/** The classification session of the Gantt bot: the parsed notes, the
    indices chosen for each category, the category being chosen, and the
    request last generated from them. Every button the bot shows is an
    Action; Step is what handle_buttons does with one, and Open is what
    the /gantt command (send_gantt) does. */
module Session {
  import opened Notes
  import opened Layout

  /** selected_tasks: the note indices chosen for each category. */
  datatype Selection = Selection(critical: set<nat>, floating: set<nat>) {
    function Of(c: Category): set<nat> {
      if c == CriticalPath then critical else floating
    }

    /** The same selection with category c's indices replaced by s. */
    function With(c: Category, s: set<nat>): (r: Selection)
      ensures r.Of(c) == s && r.Of(c.Other()) == Of(c.Other())
    {
      if c == CriticalPath then this.(critical := s) else this.(floating := s)
    }

    /** No note is chosen for both categories. */
    predicate Disjoint() {
      critical !! floating
    }

    /** Every chosen index names a note. */
    predicate Within(n: nat) {
      forall i :: i in critical + floating ==> i < n
    }

    predicate IsEmpty() {
      critical == {} && floating == {}
    }
  }

  const NoSelection: Selection := Selection({}, {})

  /** The user_data of one user: parsed_notes, selected_tasks, current_type
      and selected_notes (the request the export buttons draw). */
  datatype State = State(notes: seq<Note>, selection: Selection, current: Option<Category>, request: seq<Note>)

  /** The invariant of a session: the two categories never share a note and
      only existing notes are chosen. */
  predicate Valid(s: State) {
    s.selection.Disjoint() && s.selection.Within(|s.notes|)
  }

  /** The buttons of the bot. */
  datatype Action =
    | Noop                     // a note already chosen for the other category
    | SetType(category: Category)
    | DoneSelecting
    | GenerateGantt
    | Export(withSheet: bool)  // "PNG" sends the chart; "Excel" sends the worksheet too
    | Toggle(index: nat)

  /** A button an operator can be shown for a session of n notes. */
  predicate Offerable(a: Action, n: nat) {
    a.Toggle? ==> a.index < n
  }

  /** How a note is shown in the option list: plain, ticked as chosen for
      the current category, or crossed out as chosen for the other one. */
  datatype Mark = Plain | Ticked | Taken

  datatype Entry = TaskEntry(task: string, mark: Mark, press: Action) | DoneEntry

  /** What the bot answers. */
  datatype Reply =
    | Silent
    | NoNotes                            // no sticky note could be parsed
    | Menu(offers: seq<Action>)          // the category menu of send_gantt
    | Options(category: Category, entries: seq<Entry>)
    | ChooseTypeFirst                    // toggle before a category is set
    | AlreadyChosen(other: Category)     // the alert of a refused toggle
    | NothingSelected                    // generate with no chosen note
    | ChooseFormat(offers: seq<Action>)
    | NoRequest                          // export before a request exists
    | Delivered(artifacts: Artifacts, withSheet: bool)
    | RenderFailed(error: RenderError)

  /** The collaborators a step needs: the order in which Python iterates a
      set of indices, and the date reader and writer of the export. */
  datatype Env = Env(order: set<nat> -> seq<nat>, read: string -> Option<int>, show: int -> string)

  /** xs lists the elements of s, each once. */
  predicate Enumerates(xs: seq<nat>, s: set<nat>) {
    && (forall i, j :: 0 <= i < j < |xs| ==> xs[i] != xs[j])
    && (forall x :: x in xs ==> x in s)
    && (forall x :: x in s ==> x in xs)
  }

  ghost predicate Iterates(order: set<nat> -> seq<nat>) {
    forall s :: Enumerates(order(s), s)
  }

  lemma {:induction false} EnumerationLength(xs: seq<nat>, s: set<nat>)
    requires Enumerates(xs, s)
    ensures |xs| == |s|
    decreases |xs|
  {
    if |xs| > 0 {
      var rest := xs[1..];
      assert forall x :: x in rest <==> x in s - {xs[0]} by {
        forall x
          ensures x in rest <==> x in s - {xs[0]}
        {
          if x in rest {
            var k :| 0 <= k < |rest| && rest[k] == x;
            assert xs[k + 1] == x;
          }
          if x in s - {xs[0]} {
            var k :| 0 <= k < |xs| && xs[k] == x;
            assert rest[k - 1] == x;
          }
        }
      }
      EnumerationLength(rest, s - {xs[0]});
    } else {
      assert forall x :: x !in s;
      assert s == {};
    }
  }

  /** The menu of send_gantt: both categories, and "Generate" once some
      note is chosen. */
  function MainMenu(sel: Selection): (offers: seq<Action>)
    ensures |offers| == (if sel.IsEmpty() then 2 else 3)
    ensures offers[0] == SetType(CriticalPath) && offers[1] == SetType(FloatingTask)
    ensures |offers| == 3 ==> offers[2] == GenerateGantt
    ensures GenerateGantt in offers <==> !sel.IsEmpty()
  {
    [SetType(CriticalPath), SetType(FloatingTask)] + (if sel.IsEmpty() then [] else [GenerateGantt])
  }

  /** send_gantt. For a user without notes the freshly fetched (and
      already markup-free) texts are parsed; if none parses nothing is
      stored. Otherwise, and for a user who has notes, the session is kept
      as it is and the menu shown. A new session starts with the category
      `pending`: current_type is read back from the user data, where a
      category button pressed before any session (on an old keyboard) can
      have left one; it is None otherwise. */
  function Open(prior: Option<State>, pending: Option<Category>, texts: seq<string>): (r: (Option<State>, Reply))
    ensures prior.Some? ==> r.0 == prior
    ensures r.1 == NoNotes <==> prior.None? && forall i :: 0 <= i < |texts| ==> Count(texts[i]) != 3
    ensures r.1 == NoNotes ==> r.0.None?
    ensures r.0.None? ==> r.1 == NoNotes
    ensures r.0.Some? <==> prior.Some? || exists i :: 0 <= i < |texts| && Count(texts[i]) == 3
    ensures r.0.Some? ==> r.1 == Menu(MainMenu(r.0.value.selection))
    ensures prior.None? && r.0.Some? ==>
      && r.0.value.notes == ParseBatch(texts) && |r.0.value.notes| > 0
      && r.0.value.selection.IsEmpty() && r.0.value.current == pending
      && r.0.value.request == [] && Valid(r.0.value)
  {
    match prior
    case Some(s) => (prior, Menu(MainMenu(s.selection)))
    case None =>
      var notes := ParseBatch(texts);
      if notes == [] then (None, NoNotes)
      else
        var s := State(notes, NoSelection, pending, []);
        (Some(s), Menu(MainMenu(s.selection)))
  }

  /** The three ways a toggle can end. */
  datatype ToggleOutcome = NoCategory | Conflict(other: Category) | Toggled(selection: Selection)

  /** The toggle branch of handle_buttons: refused without a current
      category, refused when the note is chosen for the other category,
      otherwise the note's membership in the current category flips and
      nothing else changes. */
  function ToggleNote(sel: Selection, current: Option<Category>, idx: nat): (r: ToggleOutcome)
    ensures r.NoCategory? <==> current.None?
    ensures r.Conflict? <==> current.Some? && idx in sel.Of(current.value.Other())
    ensures r.Conflict? ==> r.other == current.value.Other()
    ensures r.Toggled? ==>
      var c := current.value;
      && r.selection.Of(c.Other()) == sel.Of(c.Other())
      && (idx in r.selection.Of(c) <==> idx !in sel.Of(c))
      && (forall j :: j != idx ==> (j in r.selection.Of(c) <==> j in sel.Of(c)))
    ensures r.Toggled? && sel.Disjoint() ==> r.selection.Disjoint()
  {
    match current
    case None => NoCategory
    case Some(c) =>
      if idx in sel.Of(c.Other()) then Conflict(c.Other())
      else if idx in sel.Of(c) then Toggled(sel.With(c, sel.Of(c) - {idx}))
      else Toggled(sel.With(c, sel.Of(c) + {idx}))
  }

  /** Toggling the same note twice in the same category restores the
      selection. */
  lemma ToggleTwice(sel: Selection, c: Category, idx: nat)
    requires ToggleNote(sel, Some(c), idx).Toggled?
    ensures var once := ToggleNote(sel, Some(c), idx).selection;
      ToggleNote(once, Some(c), idx) == Toggled(sel)
  {
    var once := ToggleNote(sel, Some(c), idx).selection;
    var twice := ToggleNote(once, Some(c), idx).selection;
    assert twice.Of(c) == sel.Of(c);
    assert twice.Of(c.Other()) == sel.Of(c.Other());
    assert c == CriticalPath || c == FloatingTask;
  }

  function EntryFor(i: nat, n: Note, sel: Selection, c: Category): Entry {
    if i in sel.Of(c.Other()) then TaskEntry(n.task, Taken, Noop)
    else TaskEntry(n.task, if i in sel.Of(c) then Ticked else Plain, Toggle(i))
  }

  /** The option list shown while choosing notes for category c: one entry
      per note, in note order, and a closing "done" entry. A note chosen for
      the other category can only be looked at; any other note toggles
      itself and is ticked when it is chosen for c. */
  function OptionsView(notes: seq<Note>, sel: Selection, c: Category): (view: seq<Entry>)
    ensures |view| == |notes| + 1 && view[|notes|] == DoneEntry
    ensures forall i :: 0 <= i < |notes| ==> view[i].TaskEntry? && view[i].task == notes[i].task
    ensures forall i :: 0 <= i < |notes| ==>
      && (view[i].press == Noop <==> i in sel.Of(c.Other()))
      && (view[i].press != Noop ==> view[i].press == Toggle(i))
      && (view[i].mark == Taken <==> i in sel.Of(c.Other()))
      && (view[i].mark == Ticked <==> i !in sel.Of(c.Other()) && i in sel.Of(c))
  {
    var entries := Entries(notes, sel, c);
    assert forall i :: 0 <= i < |notes| ==> (entries + [DoneEntry])[i] == entries[i];
    entries + [DoneEntry]
  }

  /** The entry of every note, on the note's own position. */
  function Entries(notes: seq<Note>, sel: Selection, c: Category): (es: seq<Entry>)
    ensures |es| == |notes| && forall i :: 0 <= i < |notes| ==> es[i] == EntryFor(i, notes[i], sel, c)
    decreases |notes|
  {
    if |notes| == 0 then []
    else
      var init := notes[..|notes| - 1];
      var es := Entries(init, sel, c) + [EntryFor(|init|, notes[|init|], sel, c)];
      assert forall i :: 0 <= i < |init| ==> notes[i] == init[i];
      es
  }

  /** The (index, category) pairs generate_gantt visits: the Critical Path
      set first, then the Floating Task set, each in `order`. */
  function Picks(sel: Selection, order: set<nat> -> seq<nat>): (ps: seq<(nat, Category)>)
    requires Enumerates(order(sel.critical), sel.critical)
    requires Enumerates(order(sel.floating), sel.floating)
    ensures |ps| == |sel.critical| + |sel.floating|
    ensures forall k :: 0 <= k < |ps| ==>
      ps[k].1 == (if k < |sel.critical| then CriticalPath else FloatingTask)
    ensures forall i, c :: (i, c) in ps <==> i in sel.Of(c)
    ensures forall k, l :: 0 <= k < l < |ps| ==> ps[k] != ps[l]
    ensures sel.Disjoint() ==> forall k, l :: 0 <= k < l < |ps| ==> ps[k].0 != ps[l].0
  {
    var cp, ft := order(sel.critical), order(sel.floating);
    LabelBoth(sel, cp, ft);
    Label(cp, CriticalPath) + Label(ft, FloatingTask)
  }

  /** The two labelled groups side by side: Critical Path first, every
      chosen pair present, and no index twice when the sets are disjoint. */
  lemma LabelBoth(sel: Selection, cp: seq<nat>, ft: seq<nat>)
    requires Enumerates(cp, sel.critical) && Enumerates(ft, sel.floating)
    ensures var ps := Label(cp, CriticalPath) + Label(ft, FloatingTask);
      && |ps| == |sel.critical| + |sel.floating|
      && (forall k :: 0 <= k < |ps| ==>
            ps[k].1 == (if k < |sel.critical| then CriticalPath else FloatingTask))
      && (forall i, c :: (i, c) in ps <==> i in sel.Of(c))
      && (forall k, l :: 0 <= k < l < |ps| ==> ps[k] != ps[l])
      && (sel.Disjoint() ==> forall k, l :: 0 <= k < l < |ps| ==> ps[k].0 != ps[l].0)
  {
    var a, b := Label(cp, CriticalPath), Label(ft, FloatingTask);
    var ps := a + b;
    EnumerationLength(cp, sel.critical);
    EnumerationLength(ft, sel.floating);
    forall k | 0 <= k < |ps|
      ensures ps[k].1 == (if k < |sel.critical| then CriticalPath else FloatingTask)
    {
      if k < |a| {
        assert ps[k] == a[k];
      } else {
        assert ps[k] == b[k - |a|];
      }
    }
    LabelMembers(cp, sel.critical, CriticalPath);
    LabelMembers(ft, sel.floating, FloatingTask);
    forall i, c
      ensures (i, c) in ps <==> i in sel.Of(c)
    {
      assert (i, c) in ps <==> (i, c) in a || (i, c) in b;
    }
    LabelDistinct(cp, sel.critical, ft, sel.floating);
  }

  /** Each index of xs paired with category c, in order. */
  function Label(xs: seq<nat>, c: Category): (ps: seq<(nat, Category)>)
    ensures |ps| == |xs|
    ensures forall k :: 0 <= k < |xs| ==> ps[k] == (xs[k], c)
    decreases |xs|
  {
    if |xs| == 0 then []
    else
      var rest := Label(xs[1..], c);
      var ps := [(xs[0], c)] + rest;
      assert forall k :: 1 <= k < |xs| ==> ps[k] == rest[k - 1] && xs[k] == xs[1..][k - 1];
      ps
  }

  /** Labelling an enumeration of s pairs exactly the members of s with c. */
  lemma LabelMembers(xs: seq<nat>, s: set<nat>, c: Category)
    requires Enumerates(xs, s)
    ensures forall i, d :: (i, d) in Label(xs, c) <==> d == c && i in s
  {
    var ps := Label(xs, c);
    forall i, d
      ensures (i, d) in ps <==> d == c && i in s
    {
      if (i, d) in ps {
        var k :| 0 <= k < |ps| && ps[k] == (i, d);
        assert xs[k] in xs;
      }
      if d == c && i in s {
        var k :| 0 <= k < |xs| && xs[k] == i;
        assert ps[k] == (i, d);
      }
    }
  }

  /** The labelled enumerations never repeat a pair, and when the two sets
      are disjoint they never repeat an index either. */
  lemma LabelDistinct(cp: seq<nat>, critical: set<nat>, ft: seq<nat>, floating: set<nat>)
    requires Enumerates(cp, critical) && Enumerates(ft, floating)
    ensures var ps := Label(cp, CriticalPath) + Label(ft, FloatingTask);
      forall k, l :: 0 <= k < l < |ps| ==> ps[k] != ps[l]
    ensures critical !! floating ==>
      var ps := Label(cp, CriticalPath) + Label(ft, FloatingTask);
      forall k, l :: 0 <= k < l < |ps| ==> ps[k].0 != ps[l].0
  {
    var a, b := Label(cp, CriticalPath), Label(ft, FloatingTask);
    var ps := a + b;
    forall k, l | 0 <= k < l < |ps|
      ensures ps[k] != ps[l]
      ensures critical !! floating ==> ps[k].0 != ps[l].0
    {
      if l < |a| {
        assert ps[k] == a[k] && ps[l] == a[l];
      } else if |a| <= k {
        assert ps[k] == b[k - |a|] && ps[l] == b[l - |a|];
      } else {
        assert ps[k] == a[k] && ps[l] == b[l - |a|];
        assert cp[k] in cp && ft[l - |a|] in ft;
      }
    }
  }

  /** A note as it enters the request: a copy whose Type is the category. */
  function Tagged(n: Note, c: Category): Note {
    n.(kind := Assigned(c))
  }

  /** generate_gantt: the request, one tagged copy of a note per chosen
      index, Critical Path copies first. */
  function Generate(notes: seq<Note>, sel: Selection, order: set<nat> -> seq<nat>): (req: seq<Note>)
    requires Iterates(order) && sel.Within(|notes|)
    ensures |req| == |sel.critical| + |sel.floating|
    ensures req == [] <==> sel.IsEmpty()
  {
    var ps := Picks(sel, order);
    PicksWithin(sel, order, |notes|);
    Copies(notes, ps)
  }

  /** Every pick names a note when every chosen index does. */
  lemma PicksWithin(sel: Selection, order: set<nat> -> seq<nat>, n: nat)
    requires Iterates(order) && sel.Within(n)
    ensures forall k :: 0 <= k < |Picks(sel, order)| ==> Picks(sel, order)[k].0 < n
  {
    var ps := Picks(sel, order);
    forall k | 0 <= k < |ps|
      ensures ps[k].0 < n
    {
      assert ps[k] in ps;
      assert ps[k].0 in sel.Of(ps[k].1);
      assert ps[k].0 in sel.critical + sel.floating;
    }
  }

  /** The tagged copies of the notes a list of picks names, in order. */
  function Copies(notes: seq<Note>, ps: seq<(nat, Category)>): (req: seq<Note>)
    requires forall k :: 0 <= k < |ps| ==> ps[k].0 < |notes|
    ensures |req| == |ps|
    ensures forall k :: 0 <= k < |ps| ==> req[k] == Tagged(notes[ps[k].0], ps[k].1)
    decreases |ps|
  {
    if |ps| == 0 then []
    else
      assert forall k :: 0 <= k < |ps| - 1 ==> ps[1..][k] == ps[k + 1];
      var rest := Copies(notes, ps[1..]);
      var req := [Tagged(notes[ps[0].0], ps[0].1)] + rest;
      assert forall k :: 1 <= k < |ps| ==> req[k] == rest[k - 1];
      req
  }

  /** The request is the tagged copies of the picks: the Critical Path
      indices in the order the set yields them, then the Floating Task ones. */
  lemma GenerateIsCopies(notes: seq<Note>, sel: Selection, order: set<nat> -> seq<nat>)
    requires Iterates(order) && sel.Within(|notes|)
    ensures var ps := Picks(sel, order);
      && ps == Label(order(sel.critical), CriticalPath) + Label(order(sel.floating), FloatingTask)
      && (forall k :: 0 <= k < |ps| ==> ps[k].0 < |notes|)
      && Generate(notes, sel, order) == Copies(notes, ps)
  {
    PicksWithin(sel, order, |notes|);
  }

  /** The request holds a tagged copy of every chosen note. */
  lemma GenerateCoversSelection(notes: seq<Note>, sel: Selection, order: set<nat> -> seq<nat>)
    requires Iterates(order) && sel.Within(|notes|)
    ensures forall i, c :: i in sel.Of(c) ==>
      i < |notes| && Tagged(notes[i], c) in Generate(notes, sel, order)
  {
    var ps := Picks(sel, order);
    PicksWithin(sel, order, |notes|);
    var req := Copies(notes, ps);
    assert Generate(notes, sel, order) == req;
    forall i, c | i in sel.Of(c)
      ensures i < |notes| && Tagged(notes[i], c) in req
    {
      assert i in sel.critical + sel.floating;
      assert (i, c) in ps;
      var k :| 0 <= k < |ps| && ps[k] == (i, c);
      assert req[k] == Tagged(notes[i], c);
    }
  }

  /** Every row of the request is a tagged copy of a chosen note, and all
      Critical Path copies come before all Floating Task copies. */
  lemma GenerateOnlySelection(notes: seq<Note>, sel: Selection, order: set<nat> -> seq<nat>)
    requires Iterates(order) && sel.Within(|notes|)
    ensures var req := Generate(notes, sel, order);
      forall k :: 0 <= k < |req| ==>
        && req[k].kind == Assigned(if k < |sel.critical| then CriticalPath else FloatingTask)
        && exists i, c :: i in sel.Of(c) && i < |notes| && req[k] == Tagged(notes[i], c)
  {
    var ps := Picks(sel, order);
    PicksWithin(sel, order, |notes|);
    var req := Copies(notes, ps);
    assert Generate(notes, sel, order) == req;
    forall k | 0 <= k < |req|
      ensures req[k].kind == Assigned(if k < |sel.critical| then CriticalPath else FloatingTask)
      ensures exists i, c :: i in sel.Of(c) && i < |notes| && req[k] == Tagged(notes[i], c)
    {
      var (i, c) := ps[k];
      assert req[k] == Tagged(notes[i], c);
      assert ps[k] in ps;
      assert i in sel.Of(c);
    }
  }

  /** The (index, category) pairs behind a request are exactly the chosen
      ones, each once: as a multiset they are the union of the two sets.
      This holds even for a selection that is not disjoint, because the
      two groups carry different categories. */
  lemma PicksAreSelection(sel: Selection, order: set<nat> -> seq<nat>)
    requires Iterates(order)
    ensures multiset(Picks(sel, order)) == multiset(Pairs(sel))
  {
    var ps := Picks(sel, order);
    forall p
      ensures multiset(ps)[p] == multiset(Pairs(sel))[p]
    {
      assert p in ps <==> p.0 in sel.Of(p.1);
      assert p in Pairs(sel) <==> p.0 in sel.Of(p.1);
      if p in ps {
        var k :| 0 <= k < |ps| && ps[k] == p;
        OnlyOnce(ps, k);
      } else {
        assert p !in multiset(ps);
      }
    }
  }

  /** The chosen (index, category) pairs. */
  function Pairs(sel: Selection): set<(nat, Category)> {
    (set i | i in sel.critical :: (i, CriticalPath)) + (set i | i in sel.floating :: (i, FloatingTask))
  }

  /** An element of a sequence without repeats occurs in it once. */
  lemma {:induction false} OnlyOnce<T>(xs: seq<T>, k: nat)
    requires k < |xs|
    requires forall a, b :: 0 <= a < b < |xs| ==> xs[a] != xs[b]
    ensures multiset(xs)[xs[k]] == 1
    decreases |xs|
  {
    if k == |xs| - 1 {
      var init := xs[..|xs| - 1];
      assert xs == init + [xs[k]];
      assert forall a :: 0 <= a < |init| ==> init[a] != xs[k];
    } else {
      var init := xs[..|xs| - 1];
      assert xs == init + [xs[|xs| - 1]];
      assert xs[|xs| - 1] != xs[k];
      OnlyOnce(init, k);
    }
  }

  /** One button press: handle_buttons. */
  function Step(s: State, a: Action, env: Env): (r: (State, Reply))
    requires Iterates(env.order) && s.selection.Within(|s.notes|)
    ensures r.0.notes == s.notes
    ensures r.0.selection != s.selection ==> a.Toggle? && r.1.Options?
    ensures r.0.current != s.current ==> a.SetType? && r.0.current == Some(a.category)
    ensures r.0.request != s.request ==> a == GenerateGantt && r.1.ChooseFormat?
    ensures a.Noop? ==> r == (s, Silent)
    ensures a.Toggle? && s.current.None? ==> r == (s, ChooseTypeFirst)
    ensures a.Toggle? && s.current.Some? && a.index in s.selection.Of(s.current.value.Other()) ==>
      r == (s, AlreadyChosen(s.current.value.Other()))
    ensures a.SetType? ==>
      r.0.current == Some(a.category) && r.1 == Options(a.category, OptionsView(s.notes, s.selection, a.category))
    ensures a == DoneSelecting ==> r == (s, Menu(MainMenu(s.selection)))
    ensures a.Toggle? && ToggleNote(s.selection, s.current, a.index).Toggled? ==>
      var c := s.current.value;
      && r.0.selection == ToggleNote(s.selection, s.current, a.index).selection
      && r.1 == Options(c, OptionsView(s.notes, r.0.selection, c))
    ensures a == GenerateGantt ==> (r.1 == NothingSelected <==> s.selection.IsEmpty())
    ensures a == GenerateGantt && !s.selection.IsEmpty() ==>
      && r.0.request == Generate(s.notes, s.selection, env.order)
      && r.1 == ChooseFormat([Export(false), Export(true)])
    ensures a.Export? ==> (r.1 == NoRequest <==> s.request == [])
    ensures a.Export? && s.request != [] ==>
      var out := Render(s.request, env.read, env.show);
      && r.0 == s
      && (out.Ok? ==> r.1 == Delivered(out.value, a.withSheet))
      && (out.Err? ==> r.1 == RenderFailed(out.error))
  {
    match a
    case Noop => (s, Silent)
    case SetType(c) => (s.(current := Some(c)), Options(c, OptionsView(s.notes, s.selection, c)))
    case DoneSelecting => (s, Menu(MainMenu(s.selection)))
    case GenerateGantt =>
      var req := Generate(s.notes, s.selection, env.order);
      if req == [] then (s, NothingSelected)
      else (s.(request := req), ChooseFormat([Export(false), Export(true)]))
    case Export(withSheet) =>
      if s.request == [] then (s, NoRequest)
      else
        (match Render(s.request, env.read, env.show)
         case Ok(artifacts) => (s, Delivered(artifacts, withSheet))
         case Err(e) => (s, RenderFailed(e)))
    case Toggle(i) =>
      match ToggleNote(s.selection, s.current, i)
      case NoCategory => (s, ChooseTypeFirst)
      case Conflict(other) => (s, AlreadyChosen(other))
      case Toggled(sel) =>
        var c := s.current.value;
        (s.(selection := sel), Options(c, OptionsView(s.notes, sel, c)))
  }

  /** The export draws what "Generate" stored: after "Generate", an export
      button delivers exactly when the generated request renders, and then
      delivers that render with the chosen format; otherwise it reports
      why the request cannot be drawn. */
  lemma GenerateThenExport(s: State, withSheet: bool, env: Env)
    requires Iterates(env.order) && s.selection.Within(|s.notes|) && !s.selection.IsEmpty()
    ensures var out := Render(Generate(s.notes, s.selection, env.order), env.read, env.show);
      var r := Step(Step(s, GenerateGantt, env).0, Export(withSheet), env).1;
      && (r.Delivered? <==> out.Ok?)
      && (out.Ok? ==> r == Delivered(out.value, withSheet))
      && (out.Err? ==> r == RenderFailed(out.error))
  {
    var s1 := Step(s, GenerateGantt, env).0;
    assert s1.request == Generate(s.notes, s.selection, env.order) != [];
  }

  /** What an export of a generated request shows: chart line k and
      worksheet line k + 1 show request row k, whose Type is Critical Path
      for the first |critical| rows and Floating Task after them. */
  lemma GeneratedRender(notes: seq<Note>, sel: Selection, env: Env)
    requires Iterates(env.order) && sel.Within(|notes|)
    ensures var req := Generate(notes, sel, env.order);
      var out := Render(req, env.read, env.show);
      out.Ok? ==> ShowsRequest(out.value, req, |sel.critical|)
  {
    var req := Generate(notes, sel, env.order);
    if Render(req, env.read, env.show).Ok? {
      GenerateKinds(notes, sel, env.order);
      RenderShows(req, env.read, env.show, |sel.critical|);
    }
  }

  /** A chart and worksheet show a request whose first `cut` rows are
      Critical Path: the worksheet's (task, Type) pairs are the request's,
      and chart line k and worksheet line k + 1 show row k's task and
      person, with the category as Type. */
  predicate ShowsRequest(a: Artifacts, req: seq<Note>, cut: nat) {
    && |a.chart.bars| == |req| && |a.sheet| == |req| + 1
    && (forall j :: 0 < j < |a.sheet| ==> |a.sheet[j]| == |Header|)
    && SheetTags(a.sheet) == Tags(req)
    && forall k :: 0 <= k < |req| ==>
         && a.sheet[k + 1][0] == a.chart.bars[k].caption == req[k].task
         && a.sheet[k + 1][3] == a.chart.bars[k].person == req[k].person
         && a.sheet[k + 1][4] == KindName(Assigned(if k < cut then CriticalPath else FloatingTask))
  }

  /** The first |critical| rows of a request are Critical Path copies, the
      rest Floating Task copies. */
  lemma GenerateKinds(notes: seq<Note>, sel: Selection, order: set<nat> -> seq<nat>)
    requires Iterates(order) && sel.Within(|notes|)
    ensures var req := Generate(notes, sel, order);
      forall k :: 0 <= k < |req| ==>
        req[k].kind == Assigned(if k < |sel.critical| then CriticalPath else FloatingTask)
  {
    GenerateIsCopies(notes, sel, order);
  }

  /** Rendering a request whose first `cut` rows are Critical Path copies
      shows it line by line. */
  lemma RenderShows(req: seq<Note>, read: string -> Option<int>, show: int -> string, cut: nat)
    requires Render(req, read, show).Ok?
    requires forall k :: 0 <= k < |req| ==>
      req[k].kind == Assigned(if k < cut then CriticalPath else FloatingTask)
    ensures ShowsRequest(Render(req, read, show).value, req, cut)
  {
    var a := Render(req, read, show).value;
    SheetKeepsTags(req, read, show);
    forall k | 0 <= k < |req|
      ensures && a.sheet[k + 1][0] == a.chart.bars[k].caption == req[k].task
              && a.sheet[k + 1][3] == a.chart.bars[k].person == req[k].person
              && a.sheet[k + 1][4] == KindName(Assigned(if k < cut then CriticalPath else FloatingTask))
    {
      RenderFields(req, read, show, k);
    }
  }

  /** Every button keeps a session valid: in particular no note ever ends
      up chosen for both categories. */
  lemma StepKeepsValid(s: State, a: Action, env: Env)
    requires Iterates(env.order) && Valid(s) && Offerable(a, |s.notes|)
    ensures Valid(Step(s, a, env).0)
  {
    if a.Toggle? {
      var t := ToggleNote(s.selection, s.current, a.index);
      if t.Toggled? {
        var c := s.current.value;
        forall j | j in t.selection.critical + t.selection.floating
          ensures j < |s.notes|
        {
          if j != a.index {
            assert j in t.selection.Of(c) || j in t.selection.Of(c.Other());
            assert j in s.selection.Of(c) || j in s.selection.Of(c.Other());
            assert j in s.selection.critical + s.selection.floating;
          }
        }
      }
    }
  }

  /** A run of button presses. */
  function Run(s: State, actions: seq<Action>, env: Env): (r: State)
    requires Iterates(env.order) && Valid(s)
    requires forall k :: 0 <= k < |actions| ==> Offerable(actions[k], |s.notes|)
    ensures Valid(r) && r.notes == s.notes
    decreases |actions|
  {
    if |actions| == 0 then s
    else
      StepKeepsValid(s, actions[0], env);
      var next := Step(s, actions[0], env).0;
      Run(next, actions[1..], env)
  }

  /** The central invariant: whatever buttons an operator presses after
      /gantt, no note is ever chosen for both categories. */
  lemma SessionsStayDisjoint(pending: Option<Category>, texts: seq<string>, actions: seq<Action>, env: Env)
    requires Iterates(env.order)
    requires Open(None, pending, texts).0.Some?
    requires forall k :: 0 <= k < |actions| ==>
      Offerable(actions[k], |Open(None, pending, texts).0.value.notes|)
    ensures Run(Open(None, pending, texts).0.value, actions, env).selection.Disjoint()
  {
  }

  /** The option list never offers a refused toggle: pressing a note's
      entry either does nothing (a note of the other category) or flips
      that note's tick, leaving every other entry as it was. */
  lemma PressingAnEntry(s: State, c: Category, i: nat, env: Env)
    requires Iterates(env.order) && Valid(s) && s.current == Some(c) && i < |s.notes|
    ensures var press := OptionsView(s.notes, s.selection, c)[i].press;
      var r := Step(s, press, env);
      && r.1 != ChooseTypeFirst && !r.1.AlreadyChosen?
      && (press == Noop ==> r == (s, Silent))
      && (press != Noop ==>
            var before, after := OptionsView(s.notes, s.selection, c), OptionsView(s.notes, r.0.selection, c);
            && (after[i].mark == Ticked <==> before[i].mark == Plain)
            && forall j :: 0 <= j < |s.notes| && j != i ==> after[j] == before[j])
  {
    var press := OptionsView(s.notes, s.selection, c)[i].press;
    if press != Noop {
      var t := ToggleNote(s.selection, s.current, i);
      assert t.Toggled?;
      var before, after := OptionsView(s.notes, s.selection, c), OptionsView(s.notes, t.selection, c);
      forall j | 0 <= j < |s.notes| && j != i
        ensures after[j] == before[j]
      {
        assert before[j] == EntryFor(j, s.notes[j], s.selection, c);
        assert after[j] == EntryFor(j, s.notes[j], t.selection, c);
      }
    }
  }

  /** "Generate" is on the menu exactly when generating succeeds. */
  lemma GenerateOfferedIffUseful(s: State, env: Env)
    requires Iterates(env.order) && s.selection.Within(|s.notes|)
    ensures GenerateGantt in MainMenu(s.selection) <==> Step(s, GenerateGantt, env).1 != NothingSelected
  {
  }
}
