/** The CSV form of the audit export, and a reader for it: quoted cells with doubled quotes as in section 2
    of RFC 4180, rows ended by a bare line feed. */
module CsvExport {

  datatype AuditRow = AuditRow(
    timestamp: string, source: string, category: string, severity: string, outcome: string, action: string,
    actorType: string, actorDisplay: string, actor: string, target: string, reason: string,
    requestId: string, ip: string)

  const HEADER: seq<string> := [
    "timestamp", "source", "category", "severity", "outcome", "action", "actor_type", "actor_display",
    "actor", "target", "reason", "request_id", "ip"]

  function Columns(e: AuditRow): (r: seq<string>)
    ensures |r| == |HEADER|
  {
    [e.timestamp, e.source, e.category, e.severity, e.outcome, e.action, e.actorType, e.actorDisplay,
     e.actor, e.target, e.reason, e.requestId, e.ip]
  }

  // ---- writing ----

  predicate NeedsQuotes(s: string) {
    '"' in s || ',' in s || '\n' in s
  }

  function Doubled(s: string): string {
    if s == "" then "" else (if s[0] == '"' then "\"\"" else [s[0]]) + Doubled(s[1..])
  }

  /** `csvCell`. */
  function Cell(s: string): string {
    if NeedsQuotes(s) then "\"" + Doubled(s) + "\"" else s
  }

  function Join(parts: seq<string>, separator: char): string {
    if parts == [] then ""
    else if |parts| == 1 then parts[0]
    else parts[0] + ([separator] + Join(parts[1..], separator))
  }

  function Cells(row: seq<string>): (r: seq<string>)
    ensures |r| == |row| && forall k :: 0 <= k < |row| ==> r[k] == Cell(row[k])
  {
    seq(|row|, k requires 0 <= k < |row| => Cell(row[k]))
  }

  function Line(row: seq<string>): string {
    Join(Cells(row), ',')
  }

  function Lines(rows: seq<seq<string>>): (r: seq<string>)
    ensures |r| == |rows| && forall k :: 0 <= k < |rows| ==> r[k] == Line(rows[k])
  {
    seq(|rows|, k requires 0 <= k < |rows| => Line(rows[k]))
  }

  function Table(events: seq<AuditRow>): (r: seq<seq<string>>)
    ensures |r| == |events| && forall k :: 0 <= k < |events| ==> r[k] == Columns(events[k])
  {
    seq(|events|, k requires 0 <= k < |events| => Columns(events[k]))
  }

  /** The body of the CSV response. The header is joined without quoting, as the code does. */
  function Export(events: seq<AuditRow>): string {
    Join([Join(HEADER, ',')] + Lines(Table(events)), '\n')
  }

  // ---- reading ----

  datatype Mode = CellStart | Bare | Quoted | QuoteSeen

  /** Reads text cell by cell; `cell` and `row` are what has been read of the current cell and row. */
  function Scan(s: string, mode: Mode, cell: string, row: seq<string>): seq<seq<string>>
    decreases |s|
  {
    if s == "" then [row + [cell]]
    else
      var c, rest := s[0], s[1..];
      if mode == Quoted then
        if c == '"' then Scan(rest, QuoteSeen, cell, row) else Scan(rest, Quoted, cell + [c], row)
      else if c == ',' then Scan(rest, CellStart, "", row + [cell])
      else if c == '\n' then [row + [cell]] + Scan(rest, CellStart, "", [])
      else if c == '"' && mode == CellStart then Scan(rest, Quoted, cell, row)
      else if c == '"' && mode == QuoteSeen then Scan(rest, Quoted, cell + [c], row)
      else Scan(rest, Bare, cell + [c], row)
  }

  function Decode(text: string): seq<seq<string>> {
    Scan(text, CellStart, "", [])
  }

  // ---- round trip ----

  predicate AtEnd(rest: string) {
    rest == "" || rest[0] == ',' || rest[0] == '\n'
  }

  /** What reading goes on with once a cell has ended. */
  function AfterCell(rest: string, row: seq<string>): seq<seq<string>>
    requires AtEnd(rest)
  {
    if rest == "" then [row]
    else if rest[0] == ',' then Scan(rest[1..], CellStart, "", row)
    else [row] + Scan(rest[1..], CellStart, "", [])
  }

  lemma ScanEnd(rest: string, mode: Mode, cell: string, row: seq<string>)
    requires AtEnd(rest) && mode != Quoted
    ensures Scan(rest, mode, cell, row) == AfterCell(rest, row + [cell])
  {
  }

  lemma ScanQuote(x: string, cell: string, row: seq<string>)
    ensures Scan("\"" + x, CellStart, cell, row) == Scan(x, Quoted, cell, row)
    ensures Scan("\"" + x, Quoted, cell, row) == Scan(x, QuoteSeen, cell, row)
    ensures Scan("\"" + x, QuoteSeen, cell, row) == Scan(x, Quoted, cell + "\"", row)
  {
    assert ("\"" + x)[1..] == x;
  }

  lemma ScanChar(c: char, x: string, cell: string, row: seq<string>)
    ensures c != '"' ==> Scan([c] + x, Quoted, cell, row) == Scan(x, Quoted, cell + [c], row)
    ensures !NeedsQuotes([c]) ==> Scan([c] + x, CellStart, cell, row) == Scan(x, Bare, cell + [c], row)
    ensures !NeedsQuotes([c]) ==> Scan([c] + x, Bare, cell, row) == Scan(x, Bare, cell + [c], row)
  {
    assert ([c] + x)[1..] == x && c in [c];
  }

  lemma FirstChar(v: string, rest: string)
    requires v != ""
    ensures v + rest == [v[0]] + (v[1..] + rest) && v == [v[0]] + v[1..]
    ensures !NeedsQuotes(v) ==> !NeedsQuotes([v[0]]) && !NeedsQuotes(v[1..])
  {
  }

  lemma {:induction false} ScanBare(v: string, rest: string, cell: string, row: seq<string>)
    requires !NeedsQuotes(v) && AtEnd(rest)
    ensures Scan(v + rest, Bare, cell, row) == AfterCell(rest, row + [cell + v])
    decreases |v|
  {
    hide Scan, NeedsQuotes;
    if v == "" {
      assert v + rest == rest && cell + v == cell;
      ScanEnd(rest, Bare, cell, row);
    } else {
      FirstChar(v, rest);
      ScanChar(v[0], v[1..] + rest, cell, row);
      assert cell + v == cell + [v[0]] + v[1..];
      ScanBare(v[1..], rest, cell + [v[0]], row);
    }
  }

  lemma DoubledFirst(v: string, tail: string)
    requires v != ""
    ensures Doubled(v) + tail
         == if v[0] == '"' then "\"" + ("\"" + (Doubled(v[1..]) + tail)) else [v[0]] + (Doubled(v[1..]) + tail)
  {
  }

  lemma {:induction false} ScanQuoted(v: string, rest: string, cell: string, row: seq<string>)
    requires AtEnd(rest)
    ensures Scan(Doubled(v) + ("\"" + rest), Quoted, cell, row) == AfterCell(rest, row + [cell + v])
    decreases |v|
  {
    hide Scan, AfterCell;
    var tail := "\"" + rest;
    if v == "" {
      assert Doubled(v) + tail == tail && cell + v == cell;
      ScanQuote(rest, cell, row);
      ScanEnd(rest, QuoteSeen, cell, row);
    } else {
      var more := Doubled(v[1..]) + tail;
      assert cell + v == cell + [v[0]] + v[1..];
      ScanQuoted(v[1..], rest, cell + [v[0]], row);
      DoubledFirst(v, tail);
      if v[0] == '"' {
        ScanQuote("\"" + more, cell, row);
        ScanQuote(more, cell, row);
      } else {
        ScanChar(v[0], more, cell, row);
      }
    }
  }

  /** A written cell reads back as its value, wherever it stands. */
  lemma ScanCell(v: string, rest: string, row: seq<string>)
    requires AtEnd(rest)
    ensures Scan(Cell(v) + rest, CellStart, "", row) == AfterCell(rest, row + [v])
  {
    hide Scan, NeedsQuotes, Doubled;
    assert "" + v == v;
    if NeedsQuotes(v) {
      var inner := Doubled(v) + ("\"" + rest);
      assert Cell(v) + rest == "\"" + inner;
      ScanQuote(inner, "", row);
      ScanQuoted(v, rest, "", row);
    } else if v == "" {
      assert v + rest == rest;
      ScanEnd(rest, CellStart, "", row);
    } else {
      FirstChar(v, rest);
      ScanChar(v[0], v[1..] + rest, "", row);
      assert "" + [v[0]] == [v[0]];
      ScanBare(v[1..], rest, [v[0]], row);
    }
  }

  lemma {:induction false} ScanLine(cells: seq<string>, rest: string, row: seq<string>)
    requires cells != [] && (rest == "" || rest[0] == '\n')
    ensures Scan(Line(cells) + rest, CellStart, "", row) == AfterCell(rest, row + cells)
    decreases |cells|
  {
    hide Scan, Cell;
    if |cells| == 1 {
      assert Line(cells) == Cell(cells[0]) && row + cells == row + [cells[0]];
      ScanCell(cells[0], rest, row);
    } else {
      assert Cells(cells)[1..] == Cells(cells[1..]);
      var next := "," + (Line(cells[1..]) + rest);
      assert Line(cells) + rest == Cell(cells[0]) + next;
      ScanCell(cells[0], next, row);
      assert next[1..] == Line(cells[1..]) + rest;
      ScanLine(cells[1..], rest, row + [cells[0]]);
      assert row + [cells[0]] + cells[1..] == row + cells;
    }
  }

  /** Any non-empty table of non-empty rows, with any text in its cells, reads back as it was. */
  lemma {:induction false} TableDecodes(rows: seq<seq<string>>)
    requires rows != [] && forall k :: 0 <= k < |rows| ==> rows[k] != []
    ensures Decode(Join(Lines(rows), '\n')) == rows
    decreases |rows|
  {
    hide Scan, Line;
    var row := rows[0];
    assert [] + row == row;
    if |rows| == 1 {
      assert Join(Lines(rows), '\n') == Line(row) + "";
      ScanLine(row, "", []);
    } else {
      assert Lines(rows)[1..] == Lines(rows[1..]);
      var rest := "\n" + Join(Lines(rows[1..]), '\n');
      assert rest[1..] == Join(Lines(rows[1..]), '\n');
      ScanLine(row, rest, []);
      TableDecodes(rows[1..]);
    }
  }

  lemma HeaderIsALine()
    ensures Join(HEADER, ',') == Line(HEADER)
  {
    assert forall k :: 0 <= k < |HEADER| ==> !NeedsQuotes(HEADER[k]);
    assert Cells(HEADER) == HEADER;
  }

  /** The export decodes to exactly the header and the thirteen columns of every event. */
  lemma ExportDecodes(events: seq<AuditRow>)
    ensures Decode(Export(events)) == [HEADER] + Table(events)
  {
    hide Decode, Join, Line;
    HeaderIsALine();
    var rows := [HEADER] + Table(events);
    assert Lines(rows) == [Line(HEADER)] + Lines(Table(events));
    TableDecodes(rows);
  }

  /** Hence no two different event lists have the same export. */
  lemma ExportInjective(xs: seq<AuditRow>, ys: seq<AuditRow>)
    requires Export(xs) == Export(ys)
    ensures xs == ys
  {
    ExportDecodes(xs);
    ExportDecodes(ys);
    assert Table(xs) == ([HEADER] + Table(xs))[1..] && Table(ys) == ([HEADER] + Table(ys))[1..];
    forall k | 0 <= k < |xs| ensures xs[k] == ys[k] {
      SameColumns(xs[k], ys[k]);
    }
  }

  lemma SameColumns(e: AuditRow, f: AuditRow)
    requires Columns(e) == Columns(f)
    ensures e == f
  {
    assert forall k :: 0 <= k < |HEADER| ==> Columns(e)[k] == Columns(f)[k];
    assert Columns(e)[0] == e.timestamp && Columns(e)[1] == e.source && Columns(e)[2] == e.category;
    assert Columns(e)[3] == e.severity && Columns(e)[4] == e.outcome && Columns(e)[5] == e.action;
    assert Columns(e)[6] == e.actorType && Columns(e)[7] == e.actorDisplay && Columns(e)[8] == e.actor;
    assert Columns(e)[9] == e.target && Columns(e)[10] == e.reason && Columns(e)[11] == e.requestId;
    assert Columns(e)[12] == e.ip;
  }

  // ---- what a cell looks like ----

  /** A value is written as it is exactly when it has no quote, comma or line feed. */
  lemma CellExactly(s: string)
    ensures Cell(s) == s <==> forall k :: 0 <= k < |s| ==> s[k] as int !in {34, 44, 10}
    ensures Cell(s) != s ==> |Cell(s)| >= 2 && Cell(s)[0] as int == 34 == Cell(s)[|Cell(s)| - 1] as int
    ensures Cell(s) != s ==> |Cell(s)| == |s| + Quotes(s) + 2
  {
    DoubledLength(s);
    if NeedsQuotes(s) {
      assert |Cell(s)| > |s|;
      var k :| 0 <= k < |s| && (s[k] == '"' || s[k] == ',' || s[k] == '\n');
    }
  }

  function Quotes(s: string): nat {
    if s == "" then 0 else (if s[0] as int == 34 then 1 else 0) + Quotes(s[1..])
  }

  lemma {:induction false} DoubledLength(s: string)
    ensures |Doubled(s)| == |s| + Quotes(s)
  {
    if s != "" {
      DoubledLength(s[1..]);
    }
  }

  /** Every value stands under the name of its field. */
  lemma ColumnsByName(e: AuditRow, k: nat)
    requires k < |HEADER|
    ensures Columns(e)[k] ==
      if HEADER[k] == "timestamp" then e.timestamp
      else if HEADER[k] == "source" then e.source
      else if HEADER[k] == "category" then e.category
      else if HEADER[k] == "severity" then e.severity
      else if HEADER[k] == "outcome" then e.outcome
      else if HEADER[k] == "action" then e.action
      else if HEADER[k] == "actor_type" then e.actorType
      else if HEADER[k] == "actor_display" then e.actorDisplay
      else if HEADER[k] == "actor" then e.actor
      else if HEADER[k] == "target" then e.target
      else if HEADER[k] == "reason" then e.reason
      else if HEADER[k] == "request_id" then e.requestId
      else e.ip
    ensures |HEADER| == 13 && (k == 12 <==> HEADER[k] == "ip")
  {
  }
}
