/** Worked sessions of the Gantt bot, stated on concrete inputs. */
module Scenarios {
  import opened Notes
  import opened Layout
  import opened Session

  /** Four blank pieces make a record with four empty fields: nothing
      requires a field to be non-empty. */
  lemma BlankFieldsAccepted(pieces: seq<string>)
    requires |pieces| == 4 && forall i :: 0 <= i < 4 ==> AllSpace(pieces[i])
    ensures ParseText(Join(pieces)) == Some(Note("", "", "", "", Pending))
  {
    forall i | 0 <= i < 4
      ensures Separator !in pieces[i] && Trim(pieces[i]) == ""
    {
      TrimPadded(pieces[i], "", []);
      assert pieces[i] + "" + [] == pieces[i];
    }
    SplitJoin(pieces);
    ParseTextFields(Join(pieces));
  }

  function At(a: Note, b: Note, c: Note, critical: set<nat>, floating: set<nat>, current: Option<Category>): State {
    State([a, b, c], Selection(critical, floating), current, [])
  }

  /** Choosing notes 0 and 2 as Critical Path, one button at a time. */
  lemma ClassifyCritical(a: Note, b: Note, c: Note, env: Env)
    requires Iterates(env.order)
    ensures Step(At(a, b, c, {}, {}, None), SetType(CriticalPath), env).0
         == At(a, b, c, {}, {}, Some(CriticalPath))
    ensures Step(At(a, b, c, {}, {}, Some(CriticalPath)), Toggle(0), env).0
         == At(a, b, c, {0}, {}, Some(CriticalPath))
    ensures Step(At(a, b, c, {0}, {}, Some(CriticalPath)), Toggle(2), env).0
         == At(a, b, c, {0, 2}, {}, Some(CriticalPath))
  {
    SetTypeRecords(At(a, b, c, {}, {}, None), CriticalPath, env);
    ToggleAdds(At(a, b, c, {}, {}, Some(CriticalPath)), 0, env);
    ToggleAdds(At(a, b, c, {0}, {}, Some(CriticalPath)), 2, env);
  }

  /** Then switching to Floating Task and choosing note 1. */
  lemma ClassifyFloating(a: Note, b: Note, c: Note, env: Env)
    requires Iterates(env.order)
    ensures Step(At(a, b, c, {0, 2}, {}, Some(CriticalPath)), SetType(FloatingTask), env).0
         == At(a, b, c, {0, 2}, {}, Some(FloatingTask))
    ensures Step(At(a, b, c, {0, 2}, {}, Some(FloatingTask)), Toggle(1), env).0
         == At(a, b, c, {0, 2}, {1}, Some(FloatingTask))
  {
    SetTypeRecords(At(a, b, c, {0, 2}, {}, Some(CriticalPath)), FloatingTask, env);
    ToggleAdds(At(a, b, c, {0, 2}, {}, Some(FloatingTask)), 1, env);
  }

  /** A category button records the category and changes nothing else. */
  lemma SetTypeRecords(s: State, c: Category, env: Env)
    requires Iterates(env.order) && s.selection.Within(|s.notes|)
    ensures Step(s, SetType(c), env).0 == s.(current := Some(c))
  {
  }

  /** Generating from that selection: three rows, the two Critical Path
      copies first (in whatever order the set yields them) and note 1 last,
      so the request does not follow note order. */
  lemma GenerateThree(notes: seq<Note>, sel: Selection, a: Note, b: Note, c: Note, order: set<nat> -> seq<nat>)
    requires Iterates(order)
    requires notes == [a, b, c] && sel == Selection({0, 2}, {1})
    ensures var req := Generate(notes, sel, order);
      || req == [Tagged(a, CriticalPath), Tagged(c, CriticalPath), Tagged(b, FloatingTask)]
      || req == [Tagged(c, CriticalPath), Tagged(a, CriticalPath), Tagged(b, FloatingTask)]
  {
    var cp, ft := order(sel.critical), order(sel.floating);
    EnumeratesPair(cp, 0, 2);
    EnumeratesSingleton(ft, 1);
    GenerateIsCopies(notes, sel, order);
    CopiesOfThree(notes, a, b, c, cp, ft);
  }

  /** The copies behind that request, for each order in which the set
      {0, 2} can be visited. */
  lemma CopiesOfThree(notes: seq<Note>, a: Note, b: Note, c: Note, cp: seq<nat>, ft: seq<nat>)
    requires notes == [a, b, c] && (cp == [0, 2] || cp == [2, 0]) && ft == [1]
    ensures var req := Copies(notes, Label(cp, CriticalPath) + Label(ft, FloatingTask));
      || req == [Tagged(a, CriticalPath), Tagged(c, CriticalPath), Tagged(b, FloatingTask)]
      || req == [Tagged(c, CriticalPath), Tagged(a, CriticalPath), Tagged(b, FloatingTask)]
  {
  }

  /** The only enumeration of a one-element set. */
  lemma EnumeratesSingleton(xs: seq<nat>, x: nat)
    requires Enumerates(xs, {x})
    ensures xs == [x]
  {
    EnumerationLength(xs, {x});
    assert xs[0] in xs;
  }

  /** The two enumerations of a two-element set. */
  lemma EnumeratesPair(xs: seq<nat>, x: nat, y: nat)
    requires x != y && Enumerates(xs, {x, y})
    ensures xs == [x, y] || xs == [y, x]
  {
    EnumerationLength(xs, {x, y});
    assert xs[0] in xs && xs[1] in xs;
  }

  /** Toggling a note that no category holds adds it to the current one. */
  lemma ToggleAdds(s: State, i: nat, env: Env)
    requires Iterates(env.order) && s.selection.Within(|s.notes|) && s.current.Some?
    requires i !in s.selection.critical + s.selection.floating
    ensures Step(s, Toggle(i), env).0 == s.(selection := s.selection.With(s.current.value, s.selection.Of(s.current.value) + {i}))
  {
    assert i !in s.selection.Of(s.current.value.Other());
  }

  /** A note chosen for Critical Path cannot be toggled as Floating Task:
      the toggle is refused with an alert and nothing changes. */
  lemma CrossCategoryRefused(a: Note, b: Note, c: Note, env: Env)
    requires Iterates(env.order)
    ensures var s := At(a, b, c, {0}, {}, Some(FloatingTask));
      Step(s, Toggle(0), env) == (s, AlreadyChosen(CriticalPath))
  {
  }
}
