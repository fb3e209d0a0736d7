/** The day arithmetic of generate_excel_gantt: dates read as day numbers,
    one chart bar per record, the chart's horizontal range, and the sheet
    that lists the same records in the same order. Drawing, colours and
    figure sizes are not modelled; dates are whole days. */
module Layout {
  import opened Notes

  /** A record whose Start and End have been read as day numbers. */
  datatype Row = Row(task: string, start: int, end: int, person: string, kind: Kind)

  /** What makes drawing fail: an empty request (the data frame then has no
      columns) or a Start/End text the date reader cannot read. */
  datatype RenderError = EmptyRequest | UnreadableDate(text: string)

  datatype Outcome<+T> = Ok(value: T) | Err(error: RenderError)

  /** The two date columns of the data frame. */
  datatype DateColumn = StartColumn | EndColumn

  function DateText(n: Note, column: DateColumn): string {
    match column
    case StartColumn => n.start
    case EndColumn => n.end
  }

  /** `pd.to_datetime` on one column: every text read as a day number, or
      the first text that cannot be read. */
  function ReadColumn(notes: seq<Note>, column: DateColumn, read: string -> Option<int>): (r: Outcome<seq<int>>)
    ensures r.Ok? <==> forall i :: 0 <= i < |notes| ==> read(DateText(notes[i], column)).Some?
    ensures r.Ok? ==> (|r.value| == |notes|
      && forall i :: 0 <= i < |notes| ==> read(DateText(notes[i], column)) == Some(r.value[i]))
    ensures r.Err? ==>
      exists i :: 0 <= i < |notes| && read(DateText(notes[i], column)).None?
        && r.error == UnreadableDate(DateText(notes[i], column))
        && forall j :: 0 <= j < i ==> read(DateText(notes[j], column)).Some?
    decreases |notes|
  {
    if |notes| == 0 then Ok([])
    else
      var head := read(DateText(notes[0], column));
      if head.None? then Err(UnreadableDate(DateText(notes[0], column)))
      else
        var rest := ReadColumn(notes[1..], column, read);
        assert forall i :: 1 <= i < |notes| ==> notes[i] == notes[1..][i - 1];
        if rest.Err? then rest
        else
          var days := [head.value] + rest.value;
          assert forall i :: 1 <= i < |days| ==> days[i] == rest.value[i - 1];
          Ok(days)
  }

  /** Puts the read days back beside the records' other fields. */
  function Zip(notes: seq<Note>, starts: seq<int>, ends: seq<int>): (rows: seq<Row>)
    requires |starts| == |notes| == |ends|
    ensures |rows| == |notes|
    ensures forall i :: 0 <= i < |notes| ==>
      rows[i] == Row(notes[i].task, starts[i], ends[i], notes[i].person, notes[i].kind)
    decreases |notes|
  {
    if |notes| == 0 then []
    else
      var rest := Zip(notes[1..], starts[1..], ends[1..]);
      var rows := [Row(notes[0].task, starts[0], ends[0], notes[0].person, notes[0].kind)] + rest;
      assert forall i :: 1 <= i < |notes| ==>
        rows[i] == rest[i - 1] && notes[i] == notes[1..][i - 1]
        && starts[i] == starts[1..][i - 1] && ends[i] == ends[1..][i - 1];
      rows
  }

  /** The Start column is converted before the End column. */
  function ReadRows(notes: seq<Note>, read: string -> Option<int>): (r: Outcome<seq<Row>>)
    ensures r.Ok? <==> forall i :: 0 <= i < |notes| ==>
      read(notes[i].start).Some? && read(notes[i].end).Some?
    ensures r.Ok? ==> |r.value| == |notes| && forall i :: 0 <= i < |notes| ==>
      && r.value[i].task == notes[i].task && r.value[i].person == notes[i].person
      && r.value[i].kind == notes[i].kind
      && read(notes[i].start) == Some(r.value[i].start) && read(notes[i].end) == Some(r.value[i].end)
  {
    var starts := ReadColumn(notes, StartColumn, read);
    if starts.Err? then Err(starts.error)
    else
      var ends := ReadColumn(notes, EndColumn, read);
      if ends.Err? then Err(ends.error)
      else Ok(Zip(notes, starts.value, ends.value))
  }

  /** `df["Start"].min()` */
  function MinStart(rows: seq<Row>): (m: int)
    requires |rows| > 0
    ensures forall i :: 0 <= i < |rows| ==> m <= rows[i].start
    ensures exists i :: 0 <= i < |rows| && rows[i].start == m
    decreases |rows|
  {
    if |rows| == 1 then rows[0].start
    else
      var rest := MinStart(rows[1..]);
      assert forall i :: 1 <= i < |rows| ==> rows[i] == rows[1..][i - 1];
      if rows[0].start <= rest then rows[0].start else rest
  }

  /** `df["End"].max()` */
  function MaxEnd(rows: seq<Row>): (m: int)
    requires |rows| > 0
    ensures forall i :: 0 <= i < |rows| ==> rows[i].end <= m
    ensures exists i :: 0 <= i < |rows| && rows[i].end == m
    decreases |rows|
  {
    if |rows| == 1 then rows[0].end
    else
      var rest := MaxEnd(rows[1..]);
      assert forall i :: 1 <= i < |rows| ==> rows[i] == rows[1..][i - 1];
      if rows[0].end >= rest then rows[0].end else rest
  }

  /** One horizontal bar: drawn on line `line` from `left` for `width`
      days, with the task as the line's caption and the person written at
      day `noteAt`. */
  datatype Bar = Bar(line: nat, left: int, width: int, caption: string, noteAt: int, person: string, kind: Kind)

  /** The chart: its bars, the visible day range [xMin, xMax], and
      total_days, the span from the first Start to the last End counted
      inclusively. */
  datatype Chart = Chart(bars: seq<Bar>, xMin: int, xMax: int, totalDays: int)

  function BarOf(i: nat, row: Row): Bar {
    Bar(i, row.start, row.end - row.start, row.task, row.end + 1, row.person, row.kind)
  }

  /** One bar per row, on the row's own line. */
  function Bars(rows: seq<Row>): (bars: seq<Bar>)
    ensures |bars| == |rows| && forall i :: 0 <= i < |rows| ==> bars[i] == BarOf(i, rows[i])
    decreases |rows|
  {
    if |rows| == 0 then []
    else
      var init := rows[..|rows| - 1];
      var bars := Bars(init) + [BarOf(|init|, rows[|init|])];
      assert forall i :: 0 <= i < |init| ==> rows[i] == init[i];
      bars
  }

  /** The loop over `df.iterrows()` plus the axis limits. Each bar spans
      its record's Start to End, whatever their order; the range keeps one
      day of margin before the earliest Start and two after the latest End. */
  function Draw(rows: seq<Row>): (c: Chart)
    requires |rows| > 0
    ensures |c.bars| == |rows|
    ensures forall i :: 0 <= i < |rows| ==>
      var b, row := c.bars[i], rows[i];
      && b.line == i && b.left == row.start && b.left + b.width == row.end
      && b.caption == row.task && b.person == row.person && b.noteAt == row.end + 1
      && b.kind == row.kind
    ensures forall i :: 0 <= i < |rows| ==> c.xMin + 1 <= rows[i].start && rows[i].end + 2 <= c.xMax
    ensures exists i :: 0 <= i < |rows| && rows[i].start == c.xMin + 1
    ensures exists i :: 0 <= i < |rows| && rows[i].end + 2 == c.xMax
    ensures c.totalDays == c.xMax - c.xMin - 2
  {
    var first := MinStart(rows);
    var last := MaxEnd(rows);
    Chart(Bars(rows), first - 1, last + 2, last - first + 1)
  }

  const Header: seq<string> := ["Task", "Start", "End", "Person", "Type"]

  /** One sheet line: the record with its days written by `show`. */
  function Line(row: Row, show: int -> string): seq<string> {
    [row.task, show(row.start), show(row.end), row.person, KindName(row.kind)]
  }

  /** The record lines of the worksheet, in row order. */
  function Lines(rows: seq<Row>, show: int -> string): (lines: seq<seq<string>>)
    ensures |lines| == |rows| && forall i :: 0 <= i < |rows| ==> lines[i] == Line(rows[i], show)
    decreases |rows|
  {
    if |rows| == 0 then []
    else
      var rest := Lines(rows[1..], show);
      var lines := [Line(rows[0], show)] + rest;
      assert forall i :: 1 <= i < |rows| ==> lines[i] == rest[i - 1] && rows[i] == rows[1..][i - 1];
      lines
  }

  /** The worksheet: the header, then the records in chart order. */
  function Sheet(rows: seq<Row>, show: int -> string): (sheet: seq<seq<string>>)
    ensures |sheet| == |rows| + 1 && sheet[0] == Header
    ensures forall j :: 1 <= j < |sheet| ==> |sheet[j]| == |Header|
  {
    var lines := Lines(rows, show);
    assert forall j :: 1 <= j < |rows| + 1 ==> ([Header] + lines)[j] == lines[j - 1];
    [Header] + lines
  }

  /** Reads a worksheet back; nothing when it has no header or some line
      is not a record. */
  function ReadSheet(sheet: seq<seq<string>>, read: string -> Option<int>): (rows: Option<seq<Row>>)
    ensures rows.Some? ==> |rows.value| + 1 == |sheet|
  {
    if |sheet| == 0 || sheet[0] != Header then None
    else ReadLines(sheet[1..], read)
  }

  function ReadLines(lines: seq<seq<string>>, read: string -> Option<int>): (rows: Option<seq<Row>>)
    ensures rows.Some? ==> |rows.value| == |lines|
    decreases |lines|
  {
    if |lines| == 0 then Some([])
    else
      var rest := ReadLines(lines[1..], read);
      var line := lines[0];
      if rest.None? || |line| != |Header| then None
      else
        var start, end, kind := read(line[1]), read(line[2]), KindOf(line[4]);
        if start.None? || end.None? || kind.None? then None
        else Some([Row(line[0], start.value, end.value, line[3], kind.value)] + rest.value)
  }

  /** The date writer's text for each of the rows' days reads back as that
      day. */
  predicate DaysReadBack(rows: seq<Row>, read: string -> Option<int>, show: int -> string) {
    forall i :: 0 <= i < |rows| ==>
      read(show(rows[i].start)) == Some(rows[i].start) && read(show(rows[i].end)) == Some(rows[i].end)
  }

  /** Every day the date reader produces is written so that it reads back
      as the same day (`strftime('%Y-%m-%d')` after `pd.to_datetime`). */
  ghost predicate ReadsBack(read: string -> Option<int>, show: int -> string) {
    forall t :: read(t).Some? ==> read(show(read(t).value)) == read(t)
  }

  lemma {:induction false} ReadLinesOfRows(rows: seq<Row>, show: int -> string, read: string -> Option<int>)
    requires DaysReadBack(rows, read, show)
    ensures ReadLines(Lines(rows, show), read) == Some(rows)
    decreases |rows|
  {
    if |rows| > 0 {
      assert forall i :: 0 <= i < |rows| - 1 ==> rows[1..][i] == rows[i + 1];
      ReadLinesOfRows(rows[1..], show, read);
      KindNameInjective(rows[0].kind);
      assert [rows[0]] + rows[1..] == rows;
    }
  }

  /** When the date reader undoes the date writer on the rows' days, the
      worksheet reads back as exactly the rows it was written from: no
      record is lost, added, reordered or altered. */
  lemma SheetRoundTrip(rows: seq<Row>, show: int -> string, read: string -> Option<int>)
    requires DaysReadBack(rows, read, show)
    ensures ReadSheet(Sheet(rows, show), read) == Some(rows)
  {
    assert Sheet(rows, show)[1..] == Lines(rows, show);
    ReadLinesOfRows(rows, show, read);
  }

  /** Both outputs of one render. */
  datatype Artifacts = Artifacts(chart: Chart, sheet: seq<seq<string>>)

  /** generate_excel_gantt on a request: read the dates, then lay out the
      chart and the worksheet from the same rows. */
  function Render(notes: seq<Note>, read: string -> Option<int>, show: int -> string): (r: Outcome<Artifacts>)
    ensures r.Err? <==>
      |notes| == 0 || exists i :: 0 <= i < |notes| &&
                        (read(notes[i].start).None? || read(notes[i].end).None?)
    ensures r.Ok? ==> |r.value.chart.bars| == |notes| && |r.value.sheet| == |notes| + 1
  {
    if |notes| == 0 then Err(EmptyRequest)
    else
      var rows := ReadRows(notes, read);
      if rows.Err? then Err(rows.error)
      else Ok(Artifacts(Draw(rows.value), Sheet(rows.value, show)))
  }

  /** A successful render draws the chart and writes the worksheet from
      the same rows, the request's records with their dates read. */
  lemma RenderUsesRows(notes: seq<Note>, read: string -> Option<int>, show: int -> string)
    requires Render(notes, read, show).Ok?
    ensures ReadRows(notes, read).Ok?
    ensures var rows := ReadRows(notes, read).value;
      Render(notes, read, show).value == Artifacts(Draw(rows), Sheet(rows, show))
  {
  }

  /** The chart and the worksheet tell the same story line by line:
      sheet line i + 1 is chart line i, with the same task, person and
      type and the dates the bar spans. */
  lemma ChartAgreesWithSheet(rows: seq<Row>, read: string -> Option<int>, show: int -> string, i: nat)
    requires i < |rows|
    requires read(show(rows[i].start)) == Some(rows[i].start) && read(show(rows[i].end)) == Some(rows[i].end)
    ensures var bar, line := Draw(rows).bars[i], Sheet(rows, show)[i + 1];
      && bar.line == i
      && line[0] == bar.caption == rows[i].task
      && line[3] == bar.person == rows[i].person
      && line[4] == KindName(bar.kind) == KindName(rows[i].kind)
      && read(line[1]) == Some(bar.left) == Some(rows[i].start)
      && read(line[2]) == Some(bar.left + bar.width) == Some(rows[i].end)
  {
    var row := rows[i];
    DrawnBar(rows, i);
    WrittenLine(rows, show, i);
    var bar, line := Draw(rows).bars[i], Sheet(rows, show)[i + 1];
    assert bar == BarOf(i, row) && line == Line(row, show);
    assert line[1] == show(row.start) && line[2] == show(row.end);
    assert read(line[1]) == Some(row.start) && read(line[2]) == Some(row.end);
    assert bar.left == row.start && bar.left + bar.width == row.end;
  }

  /** Chart line i is the bar of row i. */
  lemma DrawnBar(rows: seq<Row>, i: nat)
    requires i < |rows|
    ensures Draw(rows).bars[i] == BarOf(i, rows[i])
  {
    assert Draw(rows).bars == Bars(rows);
  }

  /** Worksheet line i + 1 is the line of row i. */
  lemma WrittenLine(rows: seq<Row>, show: int -> string, i: nat)
    requires i < |rows|
    ensures Sheet(rows, show)[i + 1] == Line(rows[i], show)
  {
    assert Sheet(rows, show)[i + 1] == Lines(rows, show)[i];
  }

  /** Both outputs of a render follow the request: chart line i and sheet
      line i + 1 show record i of the request, with its dates as read. */
  lemma RenderFollowsRequest(notes: seq<Note>, read: string -> Option<int>, show: int -> string, i: nat)
    requires ReadsBack(read, show)
    requires Render(notes, read, show).Ok? && i < |notes|
    ensures var a := Render(notes, read, show).value;
      var bar, line := a.chart.bars[i], a.sheet[i + 1];
      && bar.line == i
      && line[0] == bar.caption == notes[i].task
      && line[3] == bar.person == notes[i].person
      && line[4] == KindName(notes[i].kind)
      && read(line[1]) == read(notes[i].start)
      && read(line[2]) == read(notes[i].end)
  {
    RenderUsesRows(notes, read, show);
    var rows := ReadRows(notes, read).value;
    assert read(notes[i].start) == Some(rows[i].start) && read(notes[i].end) == Some(rows[i].end);
    ChartAgreesWithSheet(rows, read, show, i);
  }

  /** The fields of a render that do not depend on the date writer: chart
      line i and sheet line i + 1 carry record i's task, person and Type,
      whatever the dates. */
  lemma RenderFields(notes: seq<Note>, read: string -> Option<int>, show: int -> string, i: nat)
    requires Render(notes, read, show).Ok? && i < |notes|
    ensures var a := Render(notes, read, show).value;
      var bar, line := a.chart.bars[i], a.sheet[i + 1];
      && bar.line == i
      && line[0] == bar.caption == notes[i].task
      && line[3] == bar.person == notes[i].person
      && line[4] == KindName(notes[i].kind)
  {
    RenderUsesRows(notes, read, show);
    var rows := ReadRows(notes, read).value;
    DrawnBar(rows, i);
    WrittenLine(rows, show, i);
  }

  /** The (task, type) pairs of a request, in order. */
  function Tags(notes: seq<Note>): (pairs: seq<(string, string)>)
    ensures |pairs| == |notes|
    ensures forall i :: 0 <= i < |notes| ==> pairs[i] == (notes[i].task, KindName(notes[i].kind))
    decreases |notes|
  {
    if |notes| == 0 then []
    else
      var rest := Tags(notes[1..]);
      var pairs := [(notes[0].task, KindName(notes[0].kind))] + rest;
      assert forall i :: 1 <= i < |notes| ==> pairs[i] == rest[i - 1] && notes[i] == notes[1..][i - 1];
      pairs
  }

  /** The (task, type) pairs of worksheet lines, in order. */
  function LineTags(lines: seq<seq<string>>): (pairs: seq<(string, string)>)
    requires forall j :: 0 <= j < |lines| ==> |lines[j]| == |Header|
    ensures |pairs| == |lines|
    ensures forall i :: 0 <= i < |lines| ==> pairs[i] == (lines[i][0], lines[i][4])
    decreases |lines|
  {
    if |lines| == 0 then []
    else
      assert forall j :: 0 <= j < |lines| - 1 ==> lines[1..][j] == lines[j + 1];
      var rest := LineTags(lines[1..]);
      var pairs := [(lines[0][0], lines[0][4])] + rest;
      assert forall i :: 1 <= i < |lines| ==> pairs[i] == rest[i - 1];
      pairs
  }

  /** The (task, type) pairs of the worksheet's records, in order. */
  function SheetTags(sheet: seq<seq<string>>): seq<(string, string)>
    requires forall j :: 0 < j < |sheet| ==> |sheet[j]| == |Header|
  {
    if |sheet| == 0 then []
    else
      assert forall j :: 0 <= j < |sheet| - 1 ==> sheet[1..][j] == sheet[j + 1];
      LineTags(sheet[1..])
  }

  lemma {:induction false} LineTagsOfRows(notes: seq<Note>, rows: seq<Row>, show: int -> string)
    requires |rows| == |notes|
    requires forall i :: 0 <= i < |notes| ==> rows[i].task == notes[i].task && rows[i].kind == notes[i].kind
    ensures LineTags(Lines(rows, show)) == Tags(notes)
    decreases |notes|
  {
    if |notes| > 0 {
      assert forall i :: 0 <= i < |notes| - 1 ==> rows[1..][i] == rows[i + 1] && notes[1..][i] == notes[i + 1];
      LineTagsOfRows(notes[1..], rows[1..], show);
    }
  }

  /** The worksheet carries exactly the request's (task, type) pairs, each
      as often as the request does and in the same order. */
  lemma SheetKeepsTags(notes: seq<Note>, read: string -> Option<int>, show: int -> string)
    requires Render(notes, read, show).Ok?
    ensures var sheet := Render(notes, read, show).value.sheet;
      (forall j :: 0 < j < |sheet| ==> |sheet[j]| == |Header|)
      && SheetTags(sheet) == Tags(notes)
  {
    RenderUsesRows(notes, read, show);
    var rows := ReadRows(notes, read).value;
    var sheet := Sheet(rows, show);
    assert sheet[1..] == Lines(rows, show);
    LineTagsOfRows(notes, rows, show);
  }

  /** total_days covers every bar: no record spans more days than the
      chart, whatever the order of its dates. */
  lemma DurationsWithinTotal(rows: seq<Row>, i: nat)
    requires |rows| > 0 && i < |rows|
    ensures Draw(rows).bars[i].width + 1 <= Draw(rows).totalDays
  {
  }

  /** When every record ends no earlier than it starts, every bar and its
      person label lie strictly inside the visible range and the chart
      spans at least one day. */
  lemma BarsInsideRange(rows: seq<Row>)
    requires |rows| > 0
    requires forall i :: 0 <= i < |rows| ==> rows[i].start <= rows[i].end
    ensures var c := Draw(rows);
      && c.totalDays >= 1
      && forall i :: 0 <= i < |rows| ==>
           c.xMin < c.bars[i].left <= c.bars[i].left + c.bars[i].width < c.bars[i].noteAt < c.xMax
  {
    var c := Draw(rows);
    var k :| 0 <= k < |rows| && rows[k].start == c.xMin + 1;
    assert rows[k].end + 2 <= c.xMax;
  }

  /** Nothing rejects a record that ends before it starts: its bar gets a
      negative width, and a chart of such records alone has an inverted
      range (xMax < xMin), which the axis shows reversed. */
  lemma BackwardsRecordInvertsRange()
    ensures var c := Draw([Row("t", 10, 3, "p", Pending)]);
      c.bars[0].width == -7 && c.xMax < c.xMin && c.totalDays == -6
  {
  }
}
