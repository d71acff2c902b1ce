/** The import's CSV reader, and the quoting of section 2 of RFC 4180 that it undoes. */
module Csv {
  import opened Base

  const BOM: char := '\U{FEFF}'

  /** White space as JavaScript takes it. */
  predicate IsSpace(c: char) {
    var n := c as int;
    || 9 <= n <= 13 || n == 32 || n == 0xA0 || n == 0x1680 || 0x2000 <= n <= 0x200A
    || n == 0x2028 || n == 0x2029 || n == 0x202F || n == 0x205F || n == 0x3000 || n == 0xFEFF
  }

  function TrimLeft(s: string): string {
    if s != "" && IsSpace(s[0]) then TrimLeft(s[1..]) else s
  }

  function TrimRight(s: string): string {
    if s != "" && IsSpace(s[|s| - 1]) then TrimRight(s[..|s| - 1]) else s
  }

  function Trim(s: string): string {
    TrimRight(TrimLeft(s))
  }

  /** What is fixed for one call: whether cells keep their white space, and the most rows allowed. */
  datatype Options = Options(preserve: bool, maxRows: nat, lower: string -> string)

  function CellValue(o: Options, field: string): string {
    if o.preserve then field else Trim(field)
  }

  datatype State = State(matrix: seq<seq<string>>, row: seq<string>, field: string, quoted: bool)

  const START := State([], [], "", false)

  predicate AllEmpty(row: seq<string>) {
    forall k :: 0 <= k < |row| ==> row[k] == ""
  }

  function EndField(o: Options, st: State): State {
    st.(row := st.row + [CellValue(o, st.field)], field := "")
  }

  /** A finished row; one in which every cell is empty is dropped. */
  function EndRow(o: Options, st: State): State {
    var row := st.row + [CellValue(o, st.field)];
    State(if AllEmpty(row) then st.matrix else st.matrix + [row], [], "", st.quoted)
  }

  const TOO_MANY := "CSV exceeds the row limit"

  /** The loop over what is left of the text. */
  function Run(o: Options, s: string, st: State): Result<State>
    decreases |s|
  {
    if s == "" then Ok(st)
    else if st.quoted then
      if s[0] == '"' && |s| > 1 && s[1] == '"' then Run(o, s[2..], st.(field := st.field + "\""))
      else if s[0] == '"' then Run(o, s[1..], st.(quoted := false))
      else Run(o, s[1..], st.(field := st.field + [s[0]]))
    else if s[0] == '"' then Run(o, s[1..], st.(quoted := true))
    else if s[0] == ',' then Run(o, s[1..], EndField(o, st))
    else if s[0] == '\n' then
      var next := EndRow(o, st);
      if |next.matrix| > o.maxRows + 1 then Err(TOO_MANY) else Run(o, s[1..], next)
    else if s[0] == '\r' then Run(o, s[1..], st)
    else Run(o, s[1..], st.(field := st.field + [s[0]]))
  }

  /** The rows of the text, the header first. */
  function MatrixOf(o: Options, text: string): (m: Result<seq<seq<string>>>)
    ensures m.Ok? ==> 0 < |m.value| <= o.maxRows + 1
  {
    var r := Run(o, text, START);
    if r.Err? then Err(r.error)
    else if r.value.quoted then Err("CSV contains an unterminated quoted field")
    else
      var matrix := EndRow(o, r.value).matrix;
      if matrix == [] then Err("CSV is empty")
      else if |matrix| - 1 > o.maxRows then Err(TOO_MANY)
      else Ok(matrix)
  }

  function WithoutBom(input: string): string {
    if input != "" && input[0] == BOM then input[1..] else input
  }

  /** Runs of white space and hyphens become one underscore. */
  function Underscored(s: string, inRun: bool): string
    decreases |s|
  {
    if s == "" then ""
    else if IsSpace(s[0]) || s[0] == '-' then (if inRun then "" else "_") + Underscored(s[1..], true)
    else [s[0]] + Underscored(s[1..], false)
  }

  function Normalised(o: Options, header: string): string {
    Underscored(o.lower(Trim(header)), false)
  }

  function Headers(o: Options, row: seq<string>): (r: seq<string>)
    ensures |r| == |row| && forall k :: 0 <= k < |r| ==> r[k] == Normalised(o, row[k])
  {
    seq(|row|, k requires 0 <= k < |row| => Normalised(o, row[k]))
  }

  predicate Distinct(names: seq<string>) {
    forall i, j :: 0 <= i < j < |names| ==> names[i] != names[j]
  }

  /** A missing cell is an empty one; cells beyond the headers are ignored. */
  function Record(headers: seq<string>, values: seq<string>): map<string, string> {
    if headers == [] then map[]
    else
      var n := |headers| - 1;
      Record(headers[..n], values)[headers[n] := if n < |values| then values[n] else ""]
  }

  function Records(headers: seq<string>, matrix: seq<seq<string>>): (r: seq<map<string, string>>)
    ensures |r| == |matrix| && forall k :: 0 <= k < |r| ==> r[k] == Record(headers, matrix[k])
  {
    seq(|matrix|, k requires 0 <= k < |matrix| => Record(headers, matrix[k]))
  }

  datatype Table = Table(headers: seq<string>, rows: seq<map<string, string>>)

  function TableOf(o: Options, input: string): Result<Table> {
    var matrix := MatrixOf(o, WithoutBom(input));
    if matrix.Err? then Err(matrix.error)
    else
      var headers := Headers(o, matrix.value[0]);
      if "" in headers then Err("CSV contains an empty header")
      else if !Distinct(headers) then Err("CSV contains duplicate headers")
      else Ok(Table(headers, Records(headers, matrix.value[1..])))
  }

  // ---- The reader ----

  method ParseCsv(o: Options, input: string) returns (r: Result<Table>)
    ensures r == TableOf(o, input)
  {
    var text := WithoutBom(input);
    var scanned := ScanText(o, text);
    if scanned.Err? {
      return Err(scanned.error);
    }
    if scanned.value.quoted {
      return Err("CSV contains an unterminated quoted field");
    }
    var matrix := EndRow(o, scanned.value).matrix;
    if matrix == [] {
      return Err("CSV is empty");
    }
    if |matrix| - 1 > o.maxRows {
      return Err(TOO_MANY);
    }
    var headers := Headers(o, matrix[0]);
    if "" in headers {
      return Err("CSV contains an empty header");
    }
    var distinct := AreDistinct(headers);
    if !distinct {
      return Err("CSV contains duplicate headers");
    }
    return Ok(Table(headers, Records(headers, matrix[1..])));
  }

  method AreDistinct(names: seq<string>) returns (distinct: bool)
    ensures distinct == Distinct(names)
  {
    var seen: set<string> := {};
    for k := 0 to |names|
      invariant Distinct(names[..k]) && seen == set i | 0 <= i < k :: names[i]
    {
      if names[k] in seen {
        return false;
      }
      seen := seen + {names[k]};
    }
    assert names[..|names|] == names;
    return true;
  }

  method ScanText(o: Options, text: string) returns (r: Result<State>)
    ensures r == Run(o, text, START)
  {
    var matrix: seq<seq<string>>, row: seq<string>, field, quoted := [], [], "", false;
    var i := 0;
    while i < |text|
      invariant 0 <= i <= |text|
      invariant Run(o, text[i..], State(matrix, row, field, quoted)) == Run(o, text, START)
    {
      var ch := text[i];
      var rest := text[i..];
      assert rest[0] == ch && rest[1..] == text[i + 1..];
      if quoted {
        if ch == '"' && i + 1 < |text| && text[i + 1] == '"' {
          assert rest[2..] == text[i + 2..];
          field := field + "\"";
          i := i + 1;
        } else if ch == '"' {
          quoted := false;
        } else {
          field := field + [ch];
        }
      } else if ch == '"' {
        quoted := true;
      } else if ch == ',' {
        row, field := row + [CellValue(o, field)], "";
      } else if ch == '\n' {
        row, field := row + [CellValue(o, field)], "";
        if !AllEmpty(row) { matrix := matrix + [row]; }
        row := [];
        if |matrix| > o.maxRows + 1 {
          return Err(TOO_MANY);
        }
      } else if ch != '\r' {
        field := field + [ch];
      }
      i := i + 1;
    }
    return Ok(State(matrix, row, field, quoted));
  }

  // ---- Section 2 of RFC 4180: writing a table ----

  /** A field, and whether it is written in quotation marks. */
  datatype Cell = Cell(value: string, quoted: bool)

  /** Only a field without commas, quotation marks and line breaks may go without quotation marks. */
  predicate Writable(c: Cell) {
    c.quoted || forall k :: 0 <= k < |c.value| ==> c.value[k] != ',' && c.value[k] != '"' && c.value[k] != '\n' && c.value[k] != '\r'
  }

  function Doubled(s: string): string {
    if s == "" then "" else (if s[0] == '"' then "\"\"" else [s[0]]) + Doubled(s[1..])
  }

  function CellText(c: Cell): string {
    if c.quoted then "\"" + (Doubled(c.value) + "\"") else c.value
  }

  function RowText(cells: seq<Cell>): string {
    if cells == [] then ""
    else if |cells| == 1 then CellText(cells[0])
    else CellText(cells[0]) + ("," + RowText(cells[1..]))
  }

  /** A line of a file: its cells and the line break after it. */
  datatype Line = Line(cells: seq<Cell>, crlf: bool)

  function Break(l: Line): string {
    if l.crlf then "\r\n" else "\n"
  }

  /** The lines of a file; the last line break may be left out. */
  function FileText(lines: seq<Line>, ended: bool): string {
    if lines == [] then ""
    else if |lines| == 1 && !ended then RowText(lines[0].cells)
    else RowText(lines[0].cells) + (Break(lines[0]) + FileText(lines[1..], ended))
  }

  /** The fields of a row as they are read. */
  function Values(o: Options, cells: seq<Cell>): (r: seq<string>)
    ensures |r| == |cells| && forall k :: 0 <= k < |r| ==> r[k] == CellValue(o, cells[k].value)
  {
    seq(|cells|, k requires 0 <= k < |cells| => CellValue(o, cells[k].value))
  }

  function RowOf(o: Options, l: Line): seq<seq<string>> {
    if AllEmpty(Values(o, l.cells)) then [] else [Values(o, l.cells)]
  }

  /** The rows of a file as they are read, without those in which every cell is empty. */
  function Rows(o: Options, lines: seq<Line>): seq<seq<string>> {
    if lines == [] then [] else RowOf(o, lines[0]) + Rows(o, lines[1..])
  }

  // ---- Reading undoes writing ----

  predicate Plain(v: string) {
    forall k :: 0 <= k < |v| ==> v[k] != ',' && v[k] != '"' && v[k] != '\n' && v[k] != '\r'
  }

  lemma {:induction false} RunPlain(o: Options, v: string, rest: string, st: State)
    requires Plain(v) && !st.quoted
    ensures Run(o, v + rest, st) == Run(o, rest, st.(field := st.field + v))
    decreases |v|
  {
    if v == "" {
      assert v + rest == rest && st.field + v == st.field;
    } else {
      assert (v + rest)[1..] == v[1..] + rest && (v + rest)[0] == v[0];
      RunPlain(o, v[1..], rest, st.(field := st.field + [v[0]]));
      assert st.field + [v[0]] + v[1..] == st.field + v;
    }
  }

  /** Inside quotation marks nothing ends the field but a quotation mark that is not doubled. */
  lemma {:induction false} RunQuoted(o: Options, v: string, rest: string, st: State)
    requires st.quoted && (rest == "" || rest[0] != '"')
    ensures Run(o, Doubled(v) + "\"" + rest, st) == Run(o, rest, st.(quoted := false, field := st.field + v))
    decreases |v|
  {
    var s := Doubled(v) + "\"" + rest;
    if v == "" {
      assert s[0] == '"' && s[1..] == rest && st.field + v == st.field;
    } else {
      var tail := Doubled(v[1..]) + "\"" + rest;
      assert st.field + [v[0]] + v[1..] == st.field + v;
      RunQuoted(o, v[1..], rest, st.(field := st.field + [v[0]]));
      if v[0] == '"' {
        assert s == "\"\"" + tail;
        assert s[2..] == tail && s[0] == '"' && s[1] == '"' && [v[0]] == "\"";
      } else {
        assert s == [v[0]] + tail;
        assert s[1..] == tail && s[0] == v[0];
      }
    }
  }

  lemma {:induction false} RunCell(o: Options, c: Cell, rest: string, st: State)
    requires Writable(c) && !st.quoted && st.field == "" && (rest == "" || rest[0] != '"')
    ensures Run(o, CellText(c) + rest, st) == Run(o, rest, st.(field := c.value))
  {
    assert "" + c.value == c.value;
    if c.quoted {
      var s := CellText(c) + rest;
      assert s[0] == '"' && s[1..] == Doubled(c.value) + "\"" + rest;
      RunQuoted(o, c.value, rest, st.(quoted := true));
    } else {
      RunPlain(o, c.value, rest, st);
    }
  }

  lemma {:induction false} FirstCell(o: Options, cells: seq<Cell>, rest: string, st: State)
    requires |cells| > 1 && AllWritable(cells) && !st.quoted && st.field == ""
    ensures Run(o, RowText(cells) + rest, st) ==
            Run(o, RowText(cells[1..]) + rest, st.(row := st.row + [CellValue(o, cells[0].value)], field := ""))
  {
    var more := RowText(cells[1..]) + rest;
    RowSplits(cells, rest);
    RunCell(o, cells[0], "," + more, st);
    RunComma(o, more, st.(field := cells[0].value));
  }

  lemma {:induction false} RowSplits(cells: seq<Cell>, rest: string)
    requires |cells| > 1
    ensures RowText(cells) + rest == CellText(cells[0]) + ("," + (RowText(cells[1..]) + rest))
  {
  }

  lemma {:induction false} RunComma(o: Options, more: string, st: State)
    requires !st.quoted
    ensures Run(o, "," + more, st) == Run(o, more, EndField(o, st))
  {
    assert ("," + more)[0] == ',' && ("," + more)[1..] == more;
  }

  lemma {:induction false} RunRow(o: Options, cells: seq<Cell>, rest: string, st: State)
    requires cells != [] && AllWritable(cells) && !st.quoted && st.field == "" && (rest == "" || rest[0] != '"')
    ensures Run(o, RowText(cells) + rest, st) == Run(o, rest, BeforeLast(o, cells, st))
    decreases |cells|
  {
    if |cells| == 1 {
      RunCell(o, cells[0], rest, st);
      assert st.row + Values(o, cells[..0]) == st.row;
    } else {
      var next := st.(row := st.row + [CellValue(o, cells[0].value)], field := "");
      FirstCell(o, cells, rest, st);
      RunRow(o, cells[1..], rest, next);
      SameBefore(o, cells, st, next);
    }
  }

  /** The state when the last field of a row has been read and not yet ended. */
  function BeforeLast(o: Options, cells: seq<Cell>, st: State): State
    requires cells != []
  {
    var n := |cells| - 1;
    st.(row := st.row + Values(o, cells[..n]), field := cells[n].value)
  }

  lemma {:induction false} SameBefore(o: Options, cells: seq<Cell>, st: State, next: State)
    requires |cells| > 1 && next == st.(row := st.row + [CellValue(o, cells[0].value)], field := "")
    ensures BeforeLast(o, cells[1..], next) == BeforeLast(o, cells, st)
  {
    var n := |cells| - 1;
    ValuesFirst(o, cells, n);
    FirstOfRow(st.row, CellValue(o, cells[0].value), Values(o, cells[1..][..n - 1]));
  }

  lemma {:induction false} ValuesFirst(o: Options, cells: seq<Cell>, n: nat)
    requires 0 < n <= |cells|
    ensures Values(o, cells[..n]) == [CellValue(o, cells[0].value)] + Values(o, cells[1..][..n - 1])
  {
    var first := cells[..n];
    assert first[0] == cells[0] && first[1..] == cells[1..][..n - 1];
  }

  lemma FirstOfRow(row: seq<string>, first: string, more: seq<string>)
    ensures row + [first] + more == row + ([first] + more)
  {
  }

  lemma {:induction false} RunBreak(o: Options, l: Line, rest: string, st: State)
    requires !st.quoted
    ensures Run(o, Break(l) + rest, st) == (if |EndRow(o, st).matrix| > o.maxRows + 1 then Err(TOO_MANY) else Run(o, rest, EndRow(o, st)))
  {
    var s := Break(l) + rest;
    if l.crlf {
      assert s[1..] == "\n" + rest && s[1..][1..] == rest;
    } else {
      assert s[1..] == rest;
    }
  }

  predicate AllWritable(cells: seq<Cell>) {
    forall k :: 0 <= k < |cells| ==> Writable(cells[k])
  }

  predicate GoodLine(l: Line) {
    l.cells != [] && AllWritable(l.cells)
  }

  lemma {:induction false} RowEnds(o: Options, l: Line, matrix: seq<seq<string>>)
    requires GoodLine(l)
    ensures var st := BeforeLast(o, l.cells, State(matrix, [], "", false));
            !st.quoted && EndRow(o, st) == State(matrix + RowOf(o, l), [], "", false)
  {
    var st := BeforeLast(o, l.cells, State(matrix, [], "", false));
    assert st.row + [CellValue(o, st.field)] == Values(o, l.cells);
    assert matrix + [] == matrix;
  }

  lemma {:induction false} RunLine(o: Options, l: Line, rest: string, matrix: seq<seq<string>>)
    requires GoodLine(l) && |matrix + RowOf(o, l)| <= o.maxRows + 1
    ensures Run(o, RowText(l.cells) + (Break(l) + rest), State(matrix, [], "", false)) ==
            Run(o, rest, State(matrix + RowOf(o, l), [], "", false))
  {
    var st := State(matrix, [], "", false);
    RunRow(o, l.cells, Break(l) + rest, st);
    RowEnds(o, l, matrix);
    RunBreak(o, l, rest, BeforeLast(o, l.cells, st));
  }

  predicate Finishes(o: Options, r: Result<State>, matrix: seq<seq<string>>) {
    r.Ok? && !r.value.quoted && EndRow(o, r.value).matrix == matrix
  }

  lemma {:induction false} RunLastLine(o: Options, l: Line, matrix: seq<seq<string>>)
    requires GoodLine(l)
    ensures Finishes(o, Run(o, RowText(l.cells), State(matrix, [], "", false)), matrix + RowOf(o, l))
  {
    assert RowText(l.cells) + "" == RowText(l.cells);
    RunRow(o, l.cells, "", State(matrix, [], "", false));
    RowEnds(o, l, matrix);
  }

  predicate GoodLines(lines: seq<Line>) {
    forall k :: 0 <= k < |lines| ==> GoodLine(lines[k])
  }

  /** Whatever the file leaves unfinished, the final step completes to exactly the rows written. */
  lemma {:induction false} RunFile(o: Options, lines: seq<Line>, ended: bool, matrix: seq<seq<string>>)
    requires GoodLines(lines) && |matrix| + |Rows(o, lines)| <= o.maxRows + 1
    ensures Finishes(o, Run(o, FileText(lines, ended), State(matrix, [], "", false)), matrix + Rows(o, lines))
    decreases |lines|
  {
    if lines == [] {
      assert matrix + Rows(o, lines) == matrix;
      NothingLeft(o, matrix);
    } else {
      var rest := Rows(o, lines[1..]);
      assert matrix + RowOf(o, lines[0]) + rest == matrix + Rows(o, lines);
      if |lines| == 1 && !ended {
        RunLastLine(o, lines[0], matrix);
        assert matrix + RowOf(o, lines[0]) + [] == matrix + RowOf(o, lines[0]);
      } else {
        RunLine(o, lines[0], FileText(lines[1..], ended), matrix);
        RunFile(o, lines[1..], ended, matrix + RowOf(o, lines[0]));
      }
    }
  }

  lemma {:induction false} NothingLeft(o: Options, matrix: seq<seq<string>>)
    ensures EndRow(o, State(matrix, [], "", false)).matrix == matrix
  {
    assert CellValue(o, "") == "";
    assert AllEmpty([] + [""]);
  }

  /** A run that has met, or ends with, more rows than are allowed. */
  predicate RunsOver(o: Options, r: Result<State>) {
    r == Err(TOO_MANY) || (r.Ok? && !r.value.quoted && |EndRow(o, r.value).matrix| > o.maxRows + 1)
  }

  lemma {:induction false} LineRunsOver(o: Options, l: Line, rest: string, matrix: seq<seq<string>>)
    requires GoodLine(l) && |matrix + RowOf(o, l)| > o.maxRows + 1
    ensures Run(o, RowText(l.cells) + (Break(l) + rest), State(matrix, [], "", false)) == Err(TOO_MANY)
  {
    var st := State(matrix, [], "", false);
    RunRow(o, l.cells, Break(l) + rest, st);
    RowEnds(o, l, matrix);
    RunBreak(o, l, rest, BeforeLast(o, l.cells, st));
  }

  lemma {:induction false} FileRunsOver(o: Options, lines: seq<Line>, ended: bool, matrix: seq<seq<string>>)
    requires GoodLines(lines) && |matrix| <= o.maxRows + 1 < |matrix| + |Rows(o, lines)|
    ensures RunsOver(o, Run(o, FileText(lines, ended), State(matrix, [], "", false)))
    decreases |lines|
  {
    var more := matrix + RowOf(o, lines[0]);
    if |lines| == 1 && !ended {
      assert Rows(o, lines[1..]) == [];
      RunLastLine(o, lines[0], matrix);
    } else if |more| > o.maxRows + 1 {
      LineRunsOver(o, lines[0], FileText(lines[1..], ended), matrix);
    } else {
      RunLine(o, lines[0], FileText(lines[1..], ended), matrix);
      FileRunsOver(o, lines[1..], ended, more);
    }
  }

  /** Any file written by the standard is read as its rows, without the empty ones, or refused when they are too many. */
  lemma {:induction false} FileReads(o: Options, lines: seq<Line>, ended: bool)
    requires GoodLines(lines)
    ensures MatrixOf(o, FileText(lines, ended)) ==
            if |Rows(o, lines)| > o.maxRows + 1 then Err(TOO_MANY)
            else if Rows(o, lines) == [] then Err("CSV is empty") else Ok(Rows(o, lines))
  {
    if |Rows(o, lines)| > o.maxRows + 1 {
      FileRunsOver(o, lines, ended, []);
    } else {
      RunFile(o, lines, ended, []);
      assert [] + Rows(o, lines) == Rows(o, lines);
    }
  }

  /** A field that keeps its white space, or has none at its ends to lose; and a row that is not all empty. */
  predicate Kept(o: Options, l: Line) {
    GoodLine(l) && !AllEmpty(Written(l.cells)) && Values(o, l.cells) == Written(l.cells)
  }

  function Written(cells: seq<Cell>): (r: seq<string>)
    ensures |r| == |cells| && forall k :: 0 <= k < |r| ==> r[k] == cells[k].value
  {
    seq(|cells|, k requires 0 <= k < |cells| => cells[k].value)
  }

  function WrittenRows(lines: seq<Line>): (r: seq<seq<string>>)
    ensures |r| == |lines| && forall k :: 0 <= k < |r| ==> r[k] == Written(lines[k].cells)
  {
    seq(|lines|, k requires 0 <= k < |lines| => Written(lines[k].cells))
  }

  lemma {:induction false} KeptRows(o: Options, lines: seq<Line>)
    requires forall k :: 0 <= k < |lines| ==> Kept(o, lines[k])
    ensures Rows(o, lines) == WrittenRows(lines)
    decreases |lines|
  {
    if lines != [] {
      KeptRows(o, lines[1..]);
      FirstWritten(lines);
      assert RowOf(o, lines[0]) == [Written(lines[0].cells)];
    }
  }

  lemma {:induction false} FirstWritten(lines: seq<Line>)
    requires lines != []
    ensures WrittenRows(lines) == [Written(lines[0].cells)] + WrittenRows(lines[1..])
  {
  }

  /** A table that can be imported: normalised, distinct headers, and rows that come back as written. */
  predicate Importable(o: Options, lines: seq<Line>) {
    && 0 < |lines| <= o.maxRows + 1 && (forall k :: 0 <= k < |lines| ==> Kept(o, lines[k]))
    && var headers := Written(lines[0].cells);
       Distinct(headers) && forall k :: 0 <= k < |headers| ==> headers[k] != "" && Normalised(o, headers[k]) == headers[k]
  }

  /**
   * For every table with normalised headers whose rows are not all empty, however its fields are quoted,
   * its lines broken and its last line ended, reading the text written for it gives the table back.
   */
  lemma {:induction false} ParseUndoesQuoting(o: Options, lines: seq<Line>, ended: bool, input: string)
    requires Importable(o, lines) && WithoutBom(input) == FileText(lines, ended)
    ensures var headers := Written(lines[0].cells);
            TableOf(o, input) == Ok(Table(headers, Records(headers, WrittenRows(lines)[1..])))
  {
    var headers := Written(lines[0].cells);
    KeptRows(o, lines);
    FileReads(o, lines, ended);
    assert Headers(o, headers) == headers;
  }

  lemma {:induction false} RecordHas(headers: seq<string>, values: seq<string>, k: nat)
    requires Distinct(headers) && k < |headers|
    ensures headers[k] in Record(headers, values)
    ensures Record(headers, values)[headers[k]] == if k < |values| then values[k] else ""
    decreases |headers|
  {
    var n := |headers| - 1;
    if k < n {
      RecordHas(headers[..n], values, k);
      assert headers[..n][k] == headers[k] && headers[k] != headers[n];
    }
  }

  /** Each row of an accepted table has under every header the cell in that column, or an empty one. */
  lemma {:induction false} AcceptedRows(o: Options, input: string, row: nat, column: nat)
    requires TableOf(o, input).Ok?
    requires row < |TableOf(o, input).value.rows| && column < |TableOf(o, input).value.headers|
    ensures var t := TableOf(o, input).value; var values := MatrixOf(o, WithoutBom(input)).value[row + 1];
            && t.headers[column] != "" && Distinct(t.headers) && |t.rows| <= o.maxRows
            && t.headers[column] in t.rows[row]
            && t.rows[row][t.headers[column]] == if column < |values| then values[column] else ""
  {
    var t := TableOf(o, input).value;
    var matrix := MatrixOf(o, WithoutBom(input)).value;
    assert t.rows[row] == Record(t.headers, matrix[1..][row]) && matrix[1..][row] == matrix[row + 1];
    RecordHas(t.headers, matrix[row + 1], column);
  }

  // ---- White space and headers ----

  predicate AllSpace(s: string) {
    forall k :: 0 <= k < |s| ==> IsSpace(s[k])
  }

  lemma {:induction false} TrimLeftIs(s: string) returns (before: string)
    ensures s == before + TrimLeft(s) && AllSpace(before)
    ensures TrimLeft(s) == "" || !IsSpace(TrimLeft(s)[0])
    decreases |s|
  {
    before := "";
    if s != "" && IsSpace(s[0]) {
      var rest := TrimLeftIs(s[1..]);
      before := [s[0]] + rest;
      assert s == [s[0]] + s[1..];
    }
  }

  lemma {:induction false} TrimRightIs(s: string) returns (after: string)
    ensures s == TrimRight(s) + after && AllSpace(after)
    ensures TrimRight(s) == "" || (!IsSpace(TrimRight(s)[|TrimRight(s)| - 1]) && TrimRight(s)[0] == s[0])
    decreases |s|
  {
    after := "";
    if s != "" && IsSpace(s[|s| - 1]) {
      var rest := TrimRightIs(s[..|s| - 1]);
      after := rest + [s[|s| - 1]];
      assert s == s[..|s| - 1] + [s[|s| - 1]];
    }
  }

  /** Trimming takes white space from both ends, all of it and nothing else. */
  lemma {:induction false} TrimTakesTheEnds(s: string) returns (before: string, after: string)
    ensures s == before + Trim(s) + after && AllSpace(before) && AllSpace(after)
    ensures Trim(s) == "" || (!IsSpace(Trim(s)[0]) && !IsSpace(Trim(s)[|Trim(s)| - 1]))
  {
    before := TrimLeftIs(s);
    after := TrimRightIs(TrimLeft(s));
  }

  predicate Clean(s: string) {
    forall k :: 0 <= k < |s| ==> !IsSpace(s[k]) && s[k] != '-'
  }

  /** A header has no white space and no hyphen; one that had none keeps every character. */
  lemma {:induction false} HeadersAreClean(s: string, inRun: bool)
    ensures Clean(Underscored(s, inRun)) && (Clean(s) ==> Underscored(s, inRun) == s)
    decreases |s|
  {
    if s != "" {
      HeadersAreClean(s[1..], IsSpace(s[0]) || s[0] == '-');
      assert s == [s[0]] + s[1..];
      assert Clean(s) ==> Clean(s[1..]);
    }
  }

  /** Normalising twice is normalising once, when lower-casing is and leaves what is clean clean. */
  lemma {:induction false} NormalisedOnce(o: Options, header: string, name: string)
    requires name == Normalised(o, header) && o.lower(name) == name
    ensures Normalised(o, name) == name && Clean(name)
  {
    HeadersAreClean(o.lower(Trim(header)), false);
    HeadersAreClean(name, false);
    CleanIsTrimmed(name);
  }

  lemma {:induction false} CleanIsTrimmed(s: string)
    requires Clean(s)
    ensures Trim(s) == s
  {
  }
}
