/** The note parser of the Gantt bot: a sticky note's plain text
    `Task | Start | End | Person` becomes a task record, anything else is
    rejected, and a batch of notes keeps exactly the ones that parse. */
module Notes {

  datatype Option<+T> = None | Some(value: T)

  /** The two classifications an operator can give a task. */
  datatype Category = CriticalPath | FloatingTask {
    /** The category a toggle must not collide with. */
    function Other(): (o: Category)
      ensures o != this
    {
      if this == CriticalPath then FloatingTask else CriticalPath
    }
  }

  /** The `Type` field of a record: "Pending" straight out of the parser,
      a category once the record is copied into a render request. */
  datatype Kind = Pending | Assigned(category: Category)

  /** The spelling of a kind in the records and in the exported sheet. */
  function KindName(k: Kind): (name: string)
    ensures |name| > 0
  {
    match k
    case Pending => "Pending"
    case Assigned(CriticalPath) => "Critical Path"
    case Assigned(FloatingTask) => "Floating Task"
  }

  /** Reads a kind back from its spelling; the inverse of KindName. */
  function KindOf(name: string): (k: Option<Kind>)
    ensures k.Some? ==> KindName(k.value) == name
  {
    if name == "Pending" then Some(Pending)
    else if name == "Critical Path" then Some(Assigned(CriticalPath))
    else if name == "Floating Task" then Some(Assigned(FloatingTask))
    else None
  }

  lemma KindNameInjective(k: Kind)
    ensures KindOf(KindName(k)) == Some(k)
  {
  }

  /** One parsed note. Start and End stay the text the operator wrote;
      they are read as dates only when a chart is drawn. */
  datatype Note = Note(task: string, start: string, end: string, person: string, kind: Kind)

  const Separator: char := '|'

  /** Python's `str.isspace`: the characters `str.strip()` removes. */
  predicate IsSpace(c: char) {
    || ('\t' <= c <= '\r')
    || ('\U{1C}' <= c <= ' ')
    || c == '\U{85}' || c == '\U{A0}' || c == '\U{1680}'
    || ('\U{2000}' <= c <= '\U{200A}')
    || c == '\U{2028}' || c == '\U{2029}' || c == '\U{202F}' || c == '\U{205F}'
    || c == '\U{3000}'
  }

  predicate AllSpace(s: string) {
    forall i :: 0 <= i < |s| ==> IsSpace(s[i])
  }

  /** A string `strip()` leaves as it is: no white space at either end. */
  predicate IsTrimmed(s: string) {
    |s| == 0 || (!IsSpace(s[0]) && !IsSpace(s[|s| - 1]))
  }

  /** `lstrip()`: the longest suffix that does not start with white space. */
  function TrimStart(s: string): (r: string)
    ensures |r| <= |s|
    ensures |r| == 0 || !IsSpace(r[0])
    decreases |s|
  {
    if |s| > 0 && IsSpace(s[0]) then TrimStart(s[1..]) else s
  }

  /** `lstrip()` only cuts off leading white space. */
  lemma {:induction false} TrimStartCuts(s: string)
    ensures var r := TrimStart(s);
      r == s[|s| - |r|..] && AllSpace(s[..|s| - |r|])
    decreases |s|
  {
    if |s| > 0 && IsSpace(s[0]) {
      TrimStartCuts(s[1..]);
      var k := |s| - 1 - |TrimStart(s)|;
      assert forall i :: 0 < i <= k ==> s[i] == s[1..][..k][i - 1];
      assert s[1..][k..] == s[k + 1..];
    }
  }

  /** `rstrip()`: the longest prefix that does not end with white space. */
  function TrimEnd(s: string): (r: string)
    ensures |r| <= |s|
    ensures |r| == 0 || !IsSpace(r[|r| - 1])
    decreases |s|
  {
    if |s| > 0 && IsSpace(s[|s| - 1]) then TrimEnd(s[..|s| - 1]) else s
  }

  /** `rstrip()` only cuts off trailing white space. */
  lemma {:induction false} TrimEndCuts(s: string)
    ensures var r := TrimEnd(s);
      r == s[..|r|] && AllSpace(s[|r|..])
    decreases |s|
  {
    if |s| > 0 && IsSpace(s[|s| - 1]) {
      TrimEndCuts(s[..|s| - 1]);
      var k := |TrimEnd(s)|;
      assert forall i :: 0 <= i < |s| - 1 - k ==> s[k..][i] == s[..|s| - 1][k..][i];
      assert s[..|s| - 1][..k] == s[..k];
    }
  }

  /** `strip()` */
  function Trim(s: string): (r: string)
    ensures IsTrimmed(r)
  {
    var t := TrimStart(s);
    var r := TrimEnd(t);
    TrimEndCuts(t);
    assert |r| == 0 || r[0] == t[0];
    r
  }

  /** What strip() removes is white space only: the result sits between
      two all-space margins of the input. */
  lemma TrimIsInfix(s: string)
    ensures exists a, b :: 0 <= a <= b <= |s| && Trim(s) == s[a..b]
                          && AllSpace(s[..a]) && AllSpace(s[b..])
  {
    var t := TrimStart(s);
    var r := TrimEnd(t);
    var a := |s| - |t|;
    var b := a + |r|;
    TrimStartCuts(s);
    TrimEndCuts(t);
    SuffixSlices(s, a, |r|);
    assert AllSpace(s[..a]) && AllSpace(t[|r|..]);
  }

  /** Slicing a suffix is slicing the text further along. */
  lemma SuffixSlices(s: string, a: nat, k: nat)
    requires a + k <= |s|
    ensures s[a..][..k] == s[a..a + k] && s[a..][k..] == s[a + k..]
  {
  }

  lemma {:induction false} TrimStartOfTrimmed(pad: string, t: string)
    requires AllSpace(pad) && IsTrimmed(t)
    ensures TrimStart(pad + t) == t
    decreases |pad|
  {
    if |pad| == 0 {
      assert pad + t == t;
    } else {
      assert (pad + t)[1..] == pad[1..] + t;
      TrimStartOfTrimmed(pad[1..], t);
    }
  }

  lemma {:induction false} TrimEndOfTrimmed(t: string, pad: string)
    requires AllSpace(pad) && IsTrimmed(t)
    ensures TrimEnd(t + pad) == t
    decreases |pad|
  {
    if |pad| == 0 {
      assert t + pad == t;
    } else {
      var n := |t + pad|;
      assert (t + pad)[..n - 1] == t + pad[..|pad| - 1];
      TrimEndOfTrimmed(t, pad[..|pad| - 1]);
    }
  }

  /** strip() gives back a trimmed text however it was padded. */
  lemma TrimPadded(left: string, t: string, right: string)
    requires AllSpace(left) && AllSpace(right) && IsTrimmed(t)
    ensures Trim(left + t + right) == t
  {
    assert left + t + right == left + (t + right);
    if |t| == 0 {
      assert left + (t + right) == left + right;
      assert AllSpace(left + right);
      TrimStartAllSpace(left + right);
    } else {
      TrimStartToText(left, t + right);
      TrimEndOfTrimmed(t, right);
    }
  }

  lemma {:induction false} TrimStartAllSpace(s: string)
    requires AllSpace(s)
    ensures TrimStart(s) == []
    decreases |s|
  {
    if |s| > 0 {
      TrimStartAllSpace(s[1..]);
    }
  }

  lemma {:induction false} TrimStartToText(pad: string, u: string)
    requires AllSpace(pad) && |u| > 0 && !IsSpace(u[0])
    ensures TrimStart(pad + u) == u
    decreases |pad|
  {
    if |pad| == 0 {
      assert pad + u == u;
    } else {
      assert (pad + u)[1..] == pad[1..] + u;
      TrimStartToText(pad[1..], u);
    }
  }

  /** strip() is the identity exactly on trimmed texts. */
  lemma TrimFixedPoints(s: string)
    ensures Trim(s) == s <==> IsTrimmed(s)
    ensures Trim(Trim(s)) == Trim(s)
  {
    if IsTrimmed(s) {
      TrimPadded([], s, []);
      assert [] + s + [] == s;
    }
    var t := Trim(s);
    TrimPadded([], t, []);
    assert [] + t + [] == t;
  }

  /** How many separators a text holds. */
  function Count(s: string): (n: nat)
    ensures n == 0 <==> Separator !in s
    ensures n <= |s|
    decreases |s|
  {
    if |s| == 0 then 0
    else (if s[0] == Separator then 1 else 0) + Count(s[1..])
  }

  predicate NoSeparator(parts: seq<string>) {
    forall i :: 0 <= i < |parts| ==> Separator !in parts[i]
  }

  /** Python's `s.split("|")`: the pieces between separators, empty ones
      included, so there is always one piece more than separators. */
  function Split(s: string): (parts: seq<string>)
    ensures |parts| == Count(s) + 1
    ensures NoSeparator(parts)
    decreases |s|
  {
    if |s| == 0 then [""]
    else
      var rest := Split(s[1..]);
      if s[0] == Separator then [""] + rest
      else [[s[0]] + rest[0]] + rest[1..]
  }

  /** `"|".join(parts)` */
  function Join(parts: seq<string>): (s: string)
    requires |parts| >= 1
    decreases |parts|
  {
    if |parts| == 1 then parts[0]
    else parts[0] + [Separator] + Join(parts[1..])
  }

  lemma {:induction false} JoinSplit(s: string)
    ensures Join(Split(s)) == s
    decreases |s|
  {
    if |s| > 0 {
      var rest := Split(s[1..]);
      JoinSplit(s[1..]);
      if s[0] == Separator {
        assert Split(s)[1..] == rest;
        assert s == [s[0]] + s[1..];
      } else if |rest| == 1 {
        assert s == [s[0]] + s[1..];
      } else {
        var parts := Split(s);
        assert parts[1..] == rest[1..];
        assert s == [s[0]] + s[1..];
        assert Join(parts) == [s[0]] + rest[0] + [Separator] + Join(rest[1..]);
      }
    }
  }

  lemma {:induction false} SplitPlain(p: string)
    requires Separator !in p
    ensures Split(p) == [p]
    decreases |p|
  {
    if |p| > 0 {
      SplitPlain(p[1..]);
      assert [p[0]] + p[1..] == p;
    }
  }

  lemma {:induction false} SplitCons(p: string, t: string)
    requires Separator !in p
    ensures Split(p + [Separator] + t) == [p] + Split(t)
    decreases |p|
  {
    var s := p + [Separator] + t;
    if |p| == 0 {
      assert s[1..] == t;
    } else {
      assert s[1..] == p[1..] + [Separator] + t;
      SplitCons(p[1..], t);
      assert [p[0]] + p[1..] == p;
    }
  }

  /** Splitting undoes joining separator-free pieces: the pieces of a text
      are determined by it. */
  lemma {:induction false} SplitJoin(parts: seq<string>)
    requires |parts| >= 1 && NoSeparator(parts)
    ensures Split(Join(parts)) == parts
    decreases |parts|
  {
    if |parts| == 1 {
      SplitPlain(parts[0]);
    } else {
      SplitJoin(parts[1..]);
      SplitCons(parts[0], Join(parts[1..]));
      assert [parts[0]] + parts[1..] == parts;
    }
  }

  function TrimAll(parts: seq<string>): (r: seq<string>)
    ensures |r| == |parts|
    ensures forall i :: 0 <= i < |r| ==> r[i] == Trim(parts[i])
  {
    seq(|parts|, i requires 0 <= i < |parts| => Trim(parts[i]))
  }

  /** parse_note on the note's plain text: a record exactly when the text
      holds three separators, i.e. splits into four pieces; its kind is
      Pending. ParseTextFields says what its fields are. */
  function ParseText(text: string): (r: Option<Note>)
    ensures r.Some? <==> Count(text) == 3
    ensures r.Some? ==> r.value.kind == Pending
  {
    if Separator !in text then None
    else
      var parts := TrimAll(Split(text));
      if |parts| != 4 then None
      else Some(Note(parts[0], parts[1], parts[2], parts[3], Pending))
  }

  /** The fields of an accepted note are its stripped pieces, in order. */
  lemma ParseTextFields(text: string)
    requires Count(text) == 3
    ensures var parts := Split(text);
      ParseText(text) == Some(Note(Trim(parts[0]), Trim(parts[1]), Trim(parts[2]), Trim(parts[3]), Pending))
  {
  }

  /** A field an operator can write so that it survives parsing unchanged. */
  predicate IsField(s: string) {
    Separator !in s && IsTrimmed(s)
  }

  /** The text of a sticky note as operators write it. */
  function Format(n: Note): string {
    n.task + " | " + n.start + " | " + n.end + " | " + n.person
  }

  /** The four pieces between the separators of a note whose fields are
      padded with `pad`. */
  function Pieces(n: Note, pad: string): seq<string> {
    [n.task + pad, pad + n.start + pad, pad + n.end + pad, pad + n.person]
  }

  lemma FormatIsJoin(n: Note)
    ensures Format(n) == Join(Pieces(n, " "))
  {
    var parts := Pieces(n, " ");
    assert parts[1..][1..] == parts[2..];
    assert parts[2..][1..] == parts[3..];
    assert Join(parts[3..]) == parts[3];
    assert Join(parts[2..]) == parts[2] + [Separator] + parts[3];
    assert Join(parts[1..]) == parts[1] + [Separator] + Join(parts[2..]);
  }

  /** A trimmed field with white space on one side or both strips back
      to itself. */
  lemma TrimSpaced(t: string, pad: string)
    requires IsTrimmed(t) && AllSpace(pad)
    ensures Trim(t + pad) == t && Trim(pad + t + pad) == t && Trim(pad + t) == t
  {
    TrimPadded([], t, pad);
    assert [] + t + pad == t + pad;
    TrimPadded(pad, t, pad);
    TrimPadded(pad, t, []);
    assert pad + t + [] == pad + t;
  }

  /** Each padded piece of a record with trimmed fields strips back to
      its field. */
  lemma TrimPieces(n: Note, pad: string)
    requires IsTrimmed(n.task) && IsTrimmed(n.start) && IsTrimmed(n.end) && IsTrimmed(n.person)
    requires AllSpace(pad)
    ensures var p := Pieces(n, pad);
      Trim(p[0]) == n.task && Trim(p[1]) == n.start && Trim(p[2]) == n.end && Trim(p[3]) == n.person
  {
    TrimSpaced(n.task, pad);
    TrimSpaced(n.start, pad);
    TrimSpaced(n.end, pad);
    TrimSpaced(n.person, pad);
  }

  /** Writing a pending record as a note and parsing it gives the record back. */
  lemma ParseFormat(n: Note)
    requires IsField(n.task) && IsField(n.start) && IsField(n.end) && IsField(n.person)
    requires n.kind == Pending
    ensures ParseText(Format(n)) == Some(n)
  {
    var parts := Pieces(n, " ");
    FormatIsJoin(n);
    assert NoSeparator(parts);
    SplitJoin(parts);
    assert Split(Format(n)) == parts;
    assert Count(Format(n)) == 3;
    ParseTextFields(Format(n));
    assert AllSpace(" ");
    TrimPieces(n, " ");
  }

  /** `[f(x) for x in xs if f(x)]`: the values of the elements f accepts,
      in order. */
  function Keep<T, U>(xs: seq<T>, f: T -> Option<U>): (ys: seq<U>)
    ensures |ys| <= |xs|
    ensures |ys| == 0 <==> forall i :: 0 <= i < |xs| ==> f(xs[i]).None?
    ensures |ys| == |xs| <==> forall i :: 0 <= i < |xs| ==> f(xs[i]).Some?
    ensures forall k :: 0 <= k < |ys| ==>
      exists i :: 0 <= i < |xs| && f(xs[i]) == Some(ys[k])
    decreases |xs|
  {
    if |xs| == 0 then []
    else
      var rest := Keep(xs[1..], f);
      assert forall i :: 1 <= i < |xs| ==> xs[i] == xs[1..][i - 1];
      if f(xs[0]).None? then rest
      else
        var ys := [f(xs[0]).value] + rest;
        assert forall k :: 1 <= k < |ys| ==> ys[k] == rest[k - 1];
        ys
  }

  /** Keep works element by element: splitting the input anywhere splits
      the output at the same place. */
  lemma {:induction false} KeepAppend<T, U>(a: seq<T>, b: seq<T>, f: T -> Option<U>)
    ensures Keep(a + b, f) == Keep(a, f) + Keep(b, f)
    decreases |a|
  {
    if |a| > 0 {
      assert (a + b)[1..] == a[1..] + b;
      KeepAppend(a[1..], b, f);
    } else {
      assert a + b == b;
    }
  }

  lemma KeepSingle<T, U>(x: T, f: T -> Option<U>)
    ensures Keep([x], f) == if f(x).Some? then [f(x).value] else []
  {
    assert [x][1..] == [];
  }

  /** The list comprehension of send_gantt: the records of the notes that
      parse, in the order the notes came. */
  function ParseBatch(texts: seq<string>): (notes: seq<Note>)
    ensures |notes| == 0 <==> forall i :: 0 <= i < |texts| ==> ParseText(texts[i]).None?
    ensures |notes| == |texts| <==> forall i :: 0 <= i < |texts| ==> ParseText(texts[i]).Some?
    ensures forall k :: 0 <= k < |notes| ==>
      notes[k].kind == Pending && exists i :: 0 <= i < |texts| && ParseText(texts[i]) == Some(notes[k])
  {
    KeepParseText(texts);
    Keep(texts, ParseText)
  }

  /** Keep's guarantees with the parser in place of the generic filter. */
  lemma KeepParseText(texts: seq<string>)
    ensures var notes := Keep(texts, ParseText);
      && (|notes| == 0 <==> forall i :: 0 <= i < |texts| ==> ParseText(texts[i]).None?)
      && (|notes| == |texts| <==> forall i :: 0 <= i < |texts| ==> ParseText(texts[i]).Some?)
      && forall k :: 0 <= k < |notes| ==>
           notes[k].kind == Pending && exists i :: 0 <= i < |texts| && ParseText(texts[i]) == Some(notes[k])
  {
    var notes := Keep(texts, ParseText);
    forall k | 0 <= k < |notes|
      ensures notes[k].kind == Pending && exists i :: 0 <= i < |texts| && ParseText(texts[i]) == Some(notes[k])
    {
      var i :| 0 <= i < |texts| && ParseText(texts[i]) == Some(notes[k]);
      assert ParseText(texts[i]).Some?;
    }
  }

  /** The batch in terms of the separator count alone: it is empty exactly
      when no note has three separators, and complete exactly when all do. */
  lemma ParseBatchCounts(texts: seq<string>)
    ensures |ParseBatch(texts)| == 0 <==> forall i :: 0 <= i < |texts| ==> Count(texts[i]) != 3
    ensures |ParseBatch(texts)| == |texts| <==> forall i :: 0 <= i < |texts| ==> Count(texts[i]) == 3
  {
    forall i | 0 <= i < |texts|
      ensures ParseText(texts[i]).None? <==> Count(texts[i]) != 3
    {
    }
  }

  /** A rejected note leaves no trace: the rest of the batch parses as if it
      were not there. */
  lemma ParseBatchSkipsRejected(a: seq<string>, bad: string, b: seq<string>)
    requires Count(bad) != 3
    ensures ParseBatch(a + [bad] + b) == ParseBatch(a + b)
  {
    assert ParseText(bad) == None;
    KeepSingle(bad, ParseText);
    KeepAppend(a + [bad], b, ParseText);
    KeepAppend(a, [bad], ParseText);
    KeepAppend(a, b, ParseText);
    assert Keep(a + [bad], ParseText) == Keep(a, ParseText);
  }

  /** An accepted note keeps its place between its neighbours' records. */
  lemma ParseBatchKeepsAccepted(a: seq<string>, good: string, b: seq<string>)
    requires Count(good) == 3
    ensures ParseBatch(a + [good] + b) == ParseBatch(a) + [ParseText(good).value] + ParseBatch(b)
  {
    KeepAppend(a + [good], b, ParseText);
    KeepAppend(a, [good], ParseText);
    KeepSingle(good, ParseText);
  }
}
