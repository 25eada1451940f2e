/**
 * Exporting table rows as CSV and reading CSV back (RFC 4180, section 2).
 */
module Csv {
  import opened Outcome
  import opened JsText

  const QUOTE: CodeUnit := U('"')
  const COMMA: CodeUnit := U(',')
  const LF: CodeUnit := 10
  const CR: CodeUnit := 13
  const BOM: CodeUnit := 0xFEFF

  type Record = seq<Text>

  /** Null and undefined are None; every other value is the text that String or JSON.stringify gives. */
  type Row = map<Text, Option<Text>>

  datatype Error = UnterminatedQuote | InvalidColumnName | DuplicateColumnName

  // -------------------------------------------------------------- encoder

  predicate NeedsQuotes(t: Text) { exists c <- t :: c == QUOTE || c == COMMA || c == LF || c == CR }

  function DoubleQuotes(t: Text): Text {
    if |t| == 0 then [] else (if t[0] == QUOTE then [QUOTE, QUOTE] else [t[0]]) + DoubleQuotes(t[1..])
  }

  function CsvCell(t: Text): Text {
    if NeedsQuotes(t) then [QUOTE] + (DoubleQuotes(t) + [QUOTE]) else t
  }

  function CellText(row: Row, column: Text): Text {
    if column in row && row[column].Some? then row[column].value else []
  }

  function Cells(row: Row, columns: seq<Text>): Record {
    seq(|columns|, i requires 0 <= i < |columns| => CellText(row, columns[i]))
  }

  function JoinCells(cells: Record): Text {
    if |cells| == 0 then []
    else if |cells| == 1 then CsvCell(cells[0])
    else CsvCell(cells[0]) + ([COMMA] + JoinCells(cells[1..]))
  }

  function JoinLines(table: seq<Record>, eol: Text): Text {
    if |table| == 0 then []
    else if |table| == 1 then JoinCells(table[0])
    else JoinCells(table[0]) + (eol + JoinLines(table[1..], eol))
  }

  function Table(rows: seq<Row>, columns: seq<Text>): (t: seq<Record>)
    ensures |t| == |rows| + 1
  {
    [columns] + seq(|rows|, i requires 0 <= i < |rows| => Cells(rows[i], columns))
  }

  function EncodeCsv(rows: seq<Row>, columns: seq<Text>): Text { JoinLines(Table(rows, columns), [LF]) }

  // --------------------------------------------------------------- parser

  datatype State = State(records: seq<Record>, row: Record, value: Text, quoted: bool)

  const START := State([], [], [], false)

  predicate Blank(cells: Record) { forall c <- cells :: c == [] }

  function EndCell(st: State): State { st.(row := st.row + [st.value], value := []) }

  function EndRow(st: State): State {
    var row := st.row + [st.value];
    st.(records := if Blank(row) then st.records else st.records + [row], row := [], value := [])
  }

  /** One turn of the loop: the new state and how many units it used. */
  function Turn(s: Text, i: nat, st: State): (r: (State, nat))
    requires i < |s|
    ensures i + r.1 <= |s| && r.1 > 0
  {
    var c := s[i];
    var followedBy := (d: CodeUnit) => i + 1 < |s| && s[i + 1] == d;
    if st.quoted then
      if c == QUOTE && followedBy(QUOTE) then (st.(value := st.value + [QUOTE]), 2)
      else if c == QUOTE then (st.(quoted := false), 1)
      else (st.(value := st.value + [c]), 1)
    else if c == QUOTE then (st.(quoted := true), 1)
    else if c == COMMA then (EndCell(st), 1)
    else if c == LF || c == CR then (EndRow(st), if c == CR && followedBy(LF) then 2 else 1)
    else (st.(value := st.value + [c]), 1)
  }

  function Scan(s: Text, i: nat, st: State): State
    requires i <= |s|
    decreases |s| - i
  {
    if i == |s| then st else
      var (next, used) := Turn(s, i, st);
      Scan(s, i + used, next)
  }

  function Finish(st: State): Result<seq<Record>, Error> {
    if st.quoted then Err(UnterminatedQuote)
    else if st.value != [] || |st.row| > 0 then Ok(EndRow(st).records)
    else Ok(st.records)
  }

  function StripBom(input: Text): Text { if |input| > 0 && input[0] == BOM then input[1..] else input }

  function Records(input: Text): Result<seq<Record>, Error> {
    var s := StripBom(input);
    Finish(Scan(s, 0, START))
  }

  predicate IsIdentifier(t: Text) {
    |t| > 0 && !IsDigit(t[0]) && forall c <- t :: IsLetter(c) || IsDigit(c) || c == U('_')
  }

  function TrimAll(cells: Record): Record { seq(|cells|, i requires 0 <= i < |cells| => Trim(cells[i])) }

  predicate Distinct(cells: Record) { forall i, j :: 0 <= i < j < |cells| ==> cells[i] != cells[j] }

  /** Object.fromEntries: a later entry replaces an earlier one of the same name. */
  function ToObject(headers: Record, cells: Record): map<Text, Text> {
    if |headers| == 0 then map[] else
      var last := |headers| - 1;
      ToObject(headers[..last], cells)[headers[last] := if last < |cells| then cells[last] else []]
  }

  function Objects(records: seq<Record>): Result<seq<map<Text, Text>>, Error> {
    if |records| == 0 then Ok([]) else
      var headers := TrimAll(records[0]);
      if exists h <- headers :: !IsIdentifier(h) then Err(InvalidColumnName)
      else if !Distinct(headers) then Err(DuplicateColumnName)
      else Ok(seq(|records| - 1, i requires 0 <= i < |records| - 1 => ToObject(headers, records[i + 1])))
  }

  /** Which header is refused, and why: a name that is no identifier comes before two equal ones. */
  lemma HeaderRefusals(records: seq<Record>)
    requires |records| > 0
    ensures Objects(records) == Err(InvalidColumnName) <==>
      exists k :: 0 <= k < |records[0]| && !IsIdentifier(Trim(records[0][k]))
    ensures Objects(records) == Err(DuplicateColumnName) <==>
      && (forall k :: 0 <= k < |records[0]| ==> IsIdentifier(Trim(records[0][k])))
      && (exists i, j :: 0 <= i < j < |records[0]| && Trim(records[0][i]) == Trim(records[0][j]))
  {
    hide IsIdentifier, Trim;
    var headers := TrimAll(records[0]);
    assert forall k :: 0 <= k < |headers| ==> headers[k] == Trim(records[0][k]) && headers[k] in headers;
  }

  function Parsed(input: Text): Result<seq<map<Text, Text>>, Error> {
    var records :- Records(input);
    Objects(records)
  }

  method ParseCsv(input: Text) returns (r: Result<seq<map<Text, Text>>, Error>)
    ensures r == Parsed(input)
  {
    var source := StripBom(input);
    var records: seq<Record>, row: Record, value: Text, quoted := [], [], [], false;
    var index := 0;
    while index < |source|
      invariant index <= |source|
      invariant Scan(source, 0, START) == Scan(source, index, State(records, row, value, quoted))
    {
      var unit := source[index];
      var next: int := if index + 1 < |source| then source[index + 1] else -1;
      if quoted {
        if unit == QUOTE && next == QUOTE {
          value := value + [QUOTE];
          index := index + 1;
        } else if unit == QUOTE {
          quoted := false;
        } else {
          value := value + [unit];
        }
      } else if unit == QUOTE {
        quoted := true;
      } else if unit == COMMA {
        row := row + [value];
        value := [];
      } else if unit == LF || unit == CR {
        if unit == CR && next == LF { index := index + 1; }
        row := row + [value];
        value := [];
        if exists cell <- row :: cell != [] { records := records + [row]; }
        row := [];
      } else {
        value := value + [unit];
      }
      index := index + 1;
    }
    if quoted { return Err(UnterminatedQuote); }
    if value != [] || |row| > 0 {
      row := row + [value];
      if exists cell <- row :: cell != [] { records := records + [row]; }
    }
    r := Objects(records);
  }

  // ------------------------------------------------- reading a table back

  function NonBlank(table: seq<Record>): seq<Record> {
    if |table| == 0 then [] else (if Blank(table[0]) then [] else [table[0]]) + NonBlank(table[1..])
  }

  /** A line feed, a carriage return, or both. */
  predicate Eol(t: Text) { t == [10] || t == [13] || t == [13, 10] }

  /** Where a cell may end: the end of the text, a comma or a line break. */
  predicate AtBreak(s: Text, i: nat) { i >= |s| || s[i] == COMMA || s[i] == LF || s[i] == CR }

  lemma TurnStep(s: Text, i: nat, st: State)
    requires i < |s|
    ensures Scan(s, i, st) == Scan(s, i + Turn(s, i, st).1, Turn(s, i, st).0)
  {
    hide Turn;
  }

  lemma ScanEnd(s: Text, st: State)
    ensures Scan(s, |s|, st) == st
  {
  }

  lemma {:induction false} PlainReads(s: Text, i: nat, t: Text, st: State)
    requires OnAt(s, i, t) && !NeedsQuotes(t) && !st.quoted
    ensures Scan(s, i, st) == Scan(s, i + |t|, st.(value := st.value + t))
    decreases |t|
  {
    hide Scan;
    if |t| == 0 {
      assert st.value + t == st.value;
    } else {
      assert s[i] == t[0] && t[0] in t;
      TurnStep(s, i, st);
      assert forall c <- t[1..] :: c in t;
      PlainReads(s, i + 1, t[1..], st.(value := st.value + [t[0]]));
      assert st.value + [t[0]] + t[1..] == st.value + t;
    }
  }

  lemma {:induction false} QuotedReads(s: Text, i: nat, t: Text, st: State)
    requires OnAt(s, i, DoubleQuotes(t) + [QUOTE]) && st.quoted
    requires AtBreak(s, i + |DoubleQuotes(t)| + 1)
    ensures Scan(s, i, st) == Scan(s, i + |DoubleQuotes(t)| + 1, st.(value := st.value + t, quoted := false))
    decreases |t|
  {
    hide Scan;
    OnAtSplit(s, i, DoubleQuotes(t), [QUOTE]);
    TurnStep(s, i, st);
    if |t| == 0 {
      assert s[i] == QUOTE;
      assert st.value + t == st.value;
    } else {
      var head, rest := if t[0] == QUOTE then [QUOTE, QUOTE] else [t[0]], DoubleQuotes(t[1..]);
      assert DoubleQuotes(t) + [QUOTE] == head + (rest + [QUOTE]);
      OnAtSplit(s, i, head, rest + [QUOTE]);
      assert s[i] == head[0];
      assert t[0] == QUOTE ==> s[i + 1] == head[1];
      QuotedReads(s, i + |head|, t[1..], st.(value := st.value + [t[0]]));
      assert st.value + [t[0]] + t[1..] == st.value + t;
    }
  }

  lemma CellReads(s: Text, i: nat, t: Text, st: State)
    requires OnAt(s, i, CsvCell(t)) && !st.quoted && st.value == [] && AtBreak(s, i + |CsvCell(t)|)
    ensures Scan(s, i, st) == Scan(s, i + |CsvCell(t)|, st.(value := t))
  {
    hide Scan;
    if NeedsQuotes(t) {
      OnAtSplit(s, i, [QUOTE], DoubleQuotes(t) + [QUOTE]);
      assert s[i] == QUOTE;
      TurnStep(s, i, st);
      QuotedReads(s, i + 1, t, st.(quoted := true));
      assert [] + t == t;
    } else {
      PlainReads(s, i, t, st);
      assert [] + t == t;
    }
  }

  lemma CommaReads(s: Text, i: nat, st: State)
    requires i < |s| && s[i] == COMMA && !st.quoted
    ensures Scan(s, i, st) == Scan(s, i + 1, EndCell(st))
  {
    hide Scan;
    TurnStep(s, i, st);
  }

  /** A row, up to its line break: all cells but the last are in `row`, the last one is in `value`. */
  lemma {:induction false} RowReads(s: Text, i: nat, cells: Record, st: State)
    requires |cells| > 0 && OnAt(s, i, JoinCells(cells)) && !st.quoted && st.value == []
    requires AtBreak(s, i + |JoinCells(cells)|)
    ensures Scan(s, i, st) ==
            Scan(s, i + |JoinCells(cells)|, st.(row := st.row + cells[..|cells| - 1], value := cells[|cells| - 1]))
    decreases |cells|
  {
    hide Scan, CsvCell;
    if |cells| == 1 {
      CellReads(s, i, cells[0], st);
      assert st.row + cells[..0] == st.row;
    } else {
      var first, rest := CsvCell(cells[0]), cells[1..];
      OnAtSplit(s, i, first, [COMMA] + JoinCells(rest));
      OnAtSplit(s, i + |first|, [COMMA], JoinCells(rest));
      assert s[i + |first|] == COMMA;
      CellReads(s, i, cells[0], st);
      CommaReads(s, i + |first|, st.(value := cells[0]));
      RowReads(s, i + |first| + 1, rest, st.(row := st.row + [cells[0]]));
      assert st.row + [cells[0]] + rest[..|rest| - 1] == st.row + cells[..|cells| - 1];
    }
  }

  lemma EolReads(s: Text, i: nat, eol: Text, st: State)
    requires Eol(eol) && OnAt(s, i, eol) && !st.quoted
    requires eol == [CR] && i + 1 < |s| ==> s[i + 1] != LF
    ensures Scan(s, i, st) == Scan(s, i + |eol|, EndRow(st))
  {
    hide Scan;
    assert s[i] == eol[0];
    if |eol| == 2 { assert s[i + 1] == eol[1]; }
    TurnStep(s, i, st);
  }

  predicate NoLineFeedFirst(t: Text) { |t| > 0 ==> t[0] != LF }

  lemma CellStart(t: Text)
    ensures NoLineFeedFirst(CsvCell(t))
  {
    if |t| > 0 && t[0] == LF { assert t[0] in t; }
  }

  lemma RowStart(cells: Record)
    ensures NoLineFeedFirst(JoinCells(cells))
  {
    if |cells| > 0 { CellStart(cells[0]); }
  }

  lemma LinesStart(table: seq<Record>)
    ensures NoLineFeedFirst(JoinLines(table, [CR]))
  {
    if |table| > 0 { RowStart(table[0]); }
  }

  lemma LinesUnfold(table: seq<Record>, eol: Text)
    ensures |table| == 0 ==> JoinLines(table, eol) == [] && NonBlank(table) == []
    ensures |table| == 1 ==> JoinLines(table, eol) == JoinCells(table[0])
    ensures |table| > 1 ==> JoinLines(table, eol) == JoinCells(table[0]) + (eol + JoinLines(table[1..], eol))
    ensures |table| > 0 ==> NonBlank(table) == (if Blank(table[0]) then [] else [table[0]]) + NonBlank(table[1..])
  {
  }

  lemma EolMeans(s: Text, i: nat, eol: Text)
    requires Eol(eol) && OnAt(s, i, eol)
    ensures |eol| > 0 && AtBreak(s, i) && i + |eol| <= |s|
  {
    assert s[i] == eol[0];
  }

  lemma {:induction false} TableReads(s: Text, i: nat, table: seq<Record>, eol: Text, st: State)
    requires Eol(eol) && OnAt(s, i, JoinLines(table, eol)) && i + |JoinLines(table, eol)| == |s|
    requires !st.quoted && st.value == [] && st.row == []
    ensures Finish(Scan(s, i, st)) == Ok(st.records + NonBlank(table))
    decreases |table|
  {
    hide *;
    LinesUnfold(table, eol);
    if |table| == 0 {
      ScanEnd(s, st);
      FinishClean(st);
      assert st.records + [] == st.records;
    } else if |table| == 1 {
      EndIsBreak(s);
      LineReads(s, i, table[0], st);
      ScanEnd(s, LastCell(st, table[0]));
      OneRow(table);
    } else {
      var line, rest := JoinCells(table[0]), JoinLines(table[1..], eol);
      OnAtSplit(s, i, line, eol + rest);
      OnAtSplit(s, i + |line|, eol, rest);
      EolMeans(s, i + |line|, eol);
      LineReads(s, i, table[0], st);
      RestStart(s, i + |line| + |eol|, table[1..], eol);
      EolReads(s, i + |line|, eol, LastCell(st, table[0]));
      var next := EndRow(LastCell(st, table[0]));
      TableReads(s, i + |line| + |eol|, table[1..], eol, next);
      assert next.records + NonBlank(table[1..]) == st.records + NonBlank(table);
    }
  }

  lemma FinishClean(st: State)
    requires !st.quoted && st.value == [] && st.row == []
    ensures Finish(st) == Ok(st.records)
  {
  }

  lemma EndIsBreak(s: Text)
    ensures AtBreak(s, |s|)
  {
  }

  lemma RestStart(s: Text, i: nat, table: seq<Record>, eol: Text)
    requires OnAt(s, i, JoinLines(table, eol)) && i + |JoinLines(table, eol)| == |s|
    ensures eol == [CR] && i < |s| ==> s[i] != LF
  {
    LinesStart(table);
  }

  lemma OneRow(table: seq<Record>)
    requires |table| == 1
    ensures NonBlank(table) == if Blank(table[0]) then [] else [table[0]]
  {
    assert NonBlank(table[1..]) == [];
  }

  /** The state at the end of a line, before its break. */
  function LastCell(st: State, cells: Record): State {
    if |cells| == 0 then st else st.(row := cells[..|cells| - 1], value := cells[|cells| - 1])
  }

  lemma LineReads(s: Text, i: nat, cells: Record, st: State)
    requires OnAt(s, i, JoinCells(cells)) && AtBreak(s, i + |JoinCells(cells)|)
    requires !st.quoted && st.value == [] && st.row == []
    ensures Scan(s, i, st) == Scan(s, i + |JoinCells(cells)|, LastCell(st, cells))
    ensures EndRow(LastCell(st, cells)).records == st.records + (if Blank(cells) then [] else [cells])
    ensures !LastCell(st, cells).quoted
    ensures EndRow(LastCell(st, cells)) == State(EndRow(LastCell(st, cells)).records, [], [], false)
    ensures Finish(LastCell(st, cells)) == Ok(st.records + (if Blank(cells) then [] else [cells]))
  {
    hide Scan;
    if |cells| == 0 {
      assert st.records + [] == st.records;
    } else {
      RowReads(s, i, cells, st);
      assert [] + cells[..|cells| - 1] == cells[..|cells| - 1];
      assert cells[..|cells| - 1] + [cells[|cells| - 1]] == cells;
      assert st.records + [] == st.records;
    }
  }

  lemma LinesUndoJoin(table: seq<Record>, eol: Text)
    requires Eol(eol)
    ensures Finish(Scan(JoinLines(table, eol), 0, START)) == Ok(NonBlank(table))
  {
    hide Scan, JoinLines, NonBlank;
    var s := JoinLines(table, eol);
    TableReads(s, 0, table, eol, START);
    assert [] + NonBlank(table) == NonBlank(table);
  }

  /** Any table, written with any of the three line breaks, is read back without its blank rows. */
  lemma RecordsUndoJoin(table: seq<Record>, eol: Text)
    requires Eol(eol) && (|JoinLines(table, eol)| > 0 ==> JoinLines(table, eol)[0] != BOM)
    ensures Records(JoinLines(table, eol)) == Ok(NonBlank(table))
  {
    hide Scan, JoinLines, NonBlank, Finish;
    LinesUndoJoin(table, eol);
  }

  // -------------------------------------------------------- whole exports

  /** What an export should read back as: one object a row, without rows whose cells are all empty. */
  function Expected(rows: seq<Row>, columns: seq<Text>): seq<map<Text, Text>> {
    if |rows| == 0 then []
    else (if Blank(Cells(rows[0], columns)) then [] else [map c | c in columns :: CellText(rows[0], c)])
         + Expected(rows[1..], columns)
  }

  lemma {:induction false} CellsAsObject(row: Row, columns: seq<Text>, n: nat)
    requires n <= |columns|
    ensures ToObject(columns[..n], Cells(row, columns)) == map c | c in columns[..n] :: CellText(row, c)
  {
    if n > 0 {
      CellsAsObject(row, columns, n - 1);
      assert columns[..n][..n - 1] == columns[..n - 1];
      assert forall c :: c in columns[..n] <==> c in columns[..n - 1] || c == columns[n - 1];
    } else {
      assert columns[..n] == [];
    }
  }

  lemma BodyUnfold(rows: seq<Row>, columns: seq<Text>)
    ensures |rows| == 0 ==> Table(rows, columns)[1..] == [] && Expected(rows, columns) == [] && NonBlank([]) == []
    ensures |rows| > 0 ==> Table(rows, columns)[1..] == [Cells(rows[0], columns)] + Table(rows[1..], columns)[1..]
    ensures |rows| > 0 ==>
      Expected(rows, columns) ==
      (if Blank(Cells(rows[0], columns)) then [] else [map c | c in columns :: CellText(rows[0], c)])
      + Expected(rows[1..], columns)
  {
    hide Blank, CellText;
  }

  lemma NonBlankUnfold(first: Record, rest: seq<Record>)
    ensures NonBlank([first] + rest) == (if Blank(first) then [] else [first]) + NonBlank(rest)
  {
    assert ([first] + rest)[1..] == rest;
  }

  function AsObjects(columns: seq<Text>, kept: seq<Record>): seq<map<Text, Text>> {
    seq(|kept|, i requires 0 <= i < |kept| => ToObject(columns, kept[i]))
  }

  lemma AsObjectsUnfold(columns: seq<Text>, first: Record, rest: seq<Record>)
    ensures AsObjects(columns, [first] + rest) == [ToObject(columns, first)] + AsObjects(columns, rest)
    ensures AsObjects(columns, []) == []
  {
    hide ToObject;
  }

  lemma {:induction false} RecordsAsObjects(rows: seq<Row>, columns: seq<Text>)
    ensures Expected(rows, columns) == AsObjects(columns, NonBlank(Table(rows, columns)[1..]))
  {
    hide *;
    BodyUnfold(rows, columns);
    if |rows| == 0 {
      AsObjectsUnfold(columns, [], []);
    } else {
      var first, rest := Cells(rows[0], columns), Table(rows[1..], columns)[1..];
      RecordsAsObjects(rows[1..], columns);
      NonBlankUnfold(first, rest);
      CellsAsObject(rows[0], columns, |columns|);
      assert columns[..|columns|] == columns;
      AsObjectsUnfold(columns, first, NonBlank(rest));
      assert [] + NonBlank(rest) == NonBlank(rest) && [] + Expected(rows[1..], columns) == Expected(rows[1..], columns);
    }
  }

  lemma IdentifierFacts(t: Text)
    requires IsIdentifier(t)
    ensures Trim(t) == t && t != [] && !NeedsQuotes(t) && t[0] != BOM
  {
    assert t[0] in t && t[|t| - 1] in t;
  }

  lemma EncodingStart(table: seq<Record>, eol: Text)
    requires |table| > 0 && |table[0]| > 0 && IsIdentifier(table[0][0])
    ensures JoinLines(table, eol) != [] && JoinLines(table, eol)[0] != BOM
  {
    IdentifierFacts(table[0][0]);
    assert JoinCells(table[0])[0] == table[0][0][0];
  }

  lemma {:induction false} AllBlank(table: seq<Record>)
    requires forall r <- table :: Blank(r)
    ensures NonBlank(table) == []
  {
    if |table| > 0 { AllBlank(table[1..]); }
  }

  lemma {:induction false} NoColumnsText(table: seq<Record>)
    requires forall k :: 0 <= k < |table| ==> table[k] == []
    ensures forall c <- JoinLines(table, [LF]) :: c == LF
  {
    if |table| > 1 { NoColumnsText(table[1..]); }
  }

  lemma ExportWithoutColumns(rows: seq<Row>)
    ensures Parsed(EncodeCsv(rows, [])) == Ok([]) && Expected(rows, []) == []
  {
    var table := Table(rows, []);
    NoColumnsText(table);
    RecordsUndoJoin(table, [LF]);
    AllBlank(table);
    AllBlank(table[1..]);
    RecordsAsObjects(rows, []);
  }

  /** The whole round trip, whatever the cells hold. */
  lemma ParseUndoesEncode(rows: seq<Row>, columns: seq<Text>)
    requires (forall c <- columns :: IsIdentifier(c)) && forall i, j :: 0 <= i < j < |columns| ==> columns[i] != columns[j]
    ensures Parsed(EncodeCsv(rows, columns)) == Ok(Expected(rows, columns))
  {
    if |columns| == 0 {
      ExportWithoutColumns(rows);
    } else {
      hide Records, JoinLines, IsIdentifier, Trim, ToObject, Expected, Blank, Objects;
      HeaderKept(rows, columns);
      ObjectsOfExport(rows, columns, columns);
    }
  }

  /** What the header check makes of the records of an export, for any header that trims to the same names. */
  lemma ObjectsOfExport(rows: seq<Row>, columns: seq<Text>, header: Record)
    requires TrimAll(header) == TrimAll(columns)
    ensures var headers, kept := TrimAll(columns), NonBlank(Table(rows, columns)[1..]);
      var r := Objects([header] + kept);
      && |kept| == |Expected(rows, columns)|
      && (r.Ok? <==> (forall h <- headers :: IsIdentifier(h)) && Distinct(headers))
      && (r.Ok? ==> |r.value| == |kept|)
      && (r.Ok? ==> forall i :: 0 <= i < |kept| ==> r.value[i] == ToObject(headers, kept[i]))
      && (r.Ok? && headers == columns ==> r == Ok(Expected(rows, columns)))
  {
    hide IsIdentifier, Trim, ToObject, Expected, NonBlank, Distinct;
    RecordsAsObjects(rows, columns);
    var kept := NonBlank(Table(rows, columns)[1..]);
    var r := Objects([header] + kept);
    assert ([header] + kept)[0] == header;
    assert forall i :: 0 <= i < |kept| ==> ([header] + kept)[i + 1] == kept[i];
    if r.Ok? && TrimAll(columns) == columns {
      assert forall i :: 0 <= i < |kept| ==> r.value[i] == Expected(rows, columns)[i];
      assert r.value == Expected(rows, columns);
    }
  }

  lemma {:induction false} ObjectKeys(headers: Record, cells: Record)
    ensures ToObject(headers, cells).Keys == set h | h in headers
  {
    if |headers| > 0 {
      var last := |headers| - 1;
      ObjectKeys(headers[..last], cells);
      assert headers == headers[..last] + [headers[last]];
    }
  }

  lemma {:induction false} ExpectedKeys(rows: seq<Row>, columns: seq<Text>, i: nat)
    requires i < |Expected(rows, columns)|
    ensures Expected(rows, columns)[i].Keys == set c | c in columns
  {
    if Blank(Cells(rows[0], columns)) {
      ExpectedKeys(rows[1..], columns, i);
    } else if i > 0 {
      ExpectedKeys(rows[1..], columns, i - 1);
    }
  }

  /** The header line as the parser sees it: a byte order mark in front of the first name is gone. */
  function ReadHeader(columns: seq<Text>): Record { if Marked(columns) then [columns[0][1..]] + columns[1..] else columns }

  predicate Marked(columns: seq<Text>) { |columns| > 0 && |columns[0]| > 0 && columns[0][0] == BOM && !NeedsQuotes(columns[0]) }

  lemma HeaderTrims(columns: seq<Text>)
    ensures TrimAll(ReadHeader(columns)) == TrimAll(columns)
  {
    if Marked(columns) { assert IsSpace(BOM); }
  }

  lemma CellsStart(cells: Record)
    ensures JoinCells(cells) == [] || (|cells| > 0 &&
      JoinCells(cells)[0] == if cells[0] == [] then COMMA else if NeedsQuotes(cells[0]) then QUOTE else cells[0][0])
  {
  }

  lemma LinesBegin(first: Record, rest: seq<Record>)
    ensures JoinLines([first] + rest, [LF]) ==
      if |rest| == 0 then JoinCells(first) else JoinCells(first) + ([LF] + JoinLines(rest, [LF]))
  {
    assert ([first] + rest)[1..] == rest;
  }

  lemma MarkedCells(columns: seq<Text>)
    requires Marked(columns)
    ensures JoinCells(columns) == [BOM] + JoinCells(ReadHeader(columns))
  {
    var name, header := columns[0], ReadHeader(columns);
    assert name == [BOM] + name[1..];
    assert !NeedsQuotes(name[1..]) by { assert forall c :: c in name[1..] ==> c in name; }
    assert header[0] == name[1..] && header[1..] == columns[1..];
    hide NeedsQuotes, Marked;
    assert CsvCell(name) == [BOM] + CsvCell(name[1..]);
    AppendAssoc([BOM], CsvCell(name[1..]), [COMMA] + JoinCells(columns[1..]));
  }

  /** The mark is the first unit of the text. */
  lemma MarkedText(columns: seq<Text>, rest: seq<Record>)
    requires Marked(columns)
    ensures JoinLines([columns] + rest, [LF]) == [BOM] + JoinLines([ReadHeader(columns)] + rest, [LF])
  {
    hide *;
    MarkedCells(columns);
    LinesBegin(columns, rest);
    LinesBegin(ReadHeader(columns), rest);
    AppendAssoc([BOM], JoinCells(ReadHeader(columns)), [LF] + JoinLines(rest, [LF]));
  }

  lemma UnmarkedCells(columns: seq<Text>)
    requires !Marked(columns)
    ensures JoinCells(columns) == [] || JoinCells(columns)[0] != BOM
  {
    CellsStart(columns);
    hide JoinCells, NeedsQuotes;
  }

  lemma UnmarkedText(columns: seq<Text>, rest: seq<Record>)
    requires !Marked(columns)
    ensures var t := JoinLines([columns] + rest, [LF]); |t| > 0 ==> t[0] != BOM
  {
    assert LF != BOM;
    hide *;
    UnmarkedCells(columns);
    LinesBegin(columns, rest);
    var line, t := JoinCells(columns), JoinLines([columns] + rest, [LF]);
    assert |t| > 0 ==> t[0] == if line == [] then LF else line[0];
  }

  /** The records of an export. */
  lemma ExportRecords(rows: seq<Row>, columns: seq<Text>)
    ensures var header, kept := ReadHeader(columns), NonBlank(Table(rows, columns)[1..]);
      Records(EncodeCsv(rows, columns)) == Ok((if Blank(header) then [] else [header]) + kept)
  {
    var header, body := ReadHeader(columns), Table(rows, columns)[1..];
    assert Table(rows, columns) == [columns] + body;
    assert ([header] + body)[1..] == body;
    assert NonBlank([header] + body) == (if Blank(header) then [] else [header]) + NonBlank(body);
    hide Scan, JoinLines, NonBlank, Finish, Marked;
    if !Marked(columns) {
      UnmarkedText(columns, body);
      RecordsUndoJoin([columns] + body, [LF]);
    } else {
      MarkedText(columns, body);
      var t := JoinLines([header] + body, [LF]);
      assert ([BOM] + t)[1..] == t;
      LinesUndoJoin([header] + body, [LF]);
    }
  }

  /** A header line without names is skipped, and the first row taken for it. */
  lemma BlankHeaderLosesARow(kept: seq<Record>)
    ensures kept == [] ==> Objects(kept) == Ok([])
    ensures kept != [] && Objects(kept).Ok? ==> |Objects(kept).value| == |kept| - 1
  {
    hide IsIdentifier, Trim, ToObject, Distinct;
  }

  lemma DistinctTrimmed(columns: seq<Text>)
    ensures Distinct(TrimAll(columns)) <==> forall i, j :: 0 <= i < j < |columns| ==> Trim(columns[i]) != Trim(columns[j])
  {
    hide Trim;
    var trimmed := TrimAll(columns);
    assert forall i :: 0 <= i < |columns| ==> trimmed[i] == Trim(columns[i]);
  }

  /**
   * For any column names: an export reads back as its rows exactly when the
   * trimmed names are distinct identifiers and trimming changed nothing, or
   * there is no row to show it; with a header line of empty names, exactly when
   * there is no row.
   */
  lemma ReadsBackExactlyWhen(rows: seq<Row>, columns: seq<Text>)
    ensures Parsed(EncodeCsv(rows, columns)) == Ok(Expected(rows, columns)) <==>
            if Blank(ReadHeader(columns)) then Expected(rows, columns) == []
            else
              && (forall h <- TrimAll(columns) :: IsIdentifier(h))
              && (forall i, j :: 0 <= i < j < |columns| ==> Trim(columns[i]) != Trim(columns[j]))
              && (TrimAll(columns) == columns || Expected(rows, columns) == [])
  {
    hide Records, JoinLines, IsIdentifier, Trim, ToObject, Expected, Blank, Objects, ReadHeader;
    DistinctTrimmed(columns);
    ExportRecords(rows, columns);
    HeaderTrims(columns);
    ObjectsOfExport(rows, columns, ReadHeader(columns));
    var headers, kept := TrimAll(columns), NonBlank(Table(rows, columns)[1..]);
    if Blank(ReadHeader(columns)) {
      assert [] + kept == kept;
      BlankHeaderLosesARow(kept);
    } else {
      var r := Objects([ReadHeader(columns)] + kept);
      if r.Ok? && |kept| == 0 {
        assert r.value == [] == Expected(rows, columns);
      } else if r.Ok? && headers != columns {
        var k :| 0 <= k < |columns| && headers[k] != columns[k];
        ObjectKeys(headers, kept[0]);
        ExpectedKeys(rows, columns, 0);
        TrimmedOnlyOnce(columns, k);
        assert r.value[0] == ToObject(headers, kept[0]);
        assert columns[k] in Expected(rows, columns)[0].Keys && columns[k] !in r.value[0].Keys;
      }
    }
  }

  lemma TrimmedOnlyOnce(columns: seq<Text>, k: nat)
    requires k < |columns| && Trim(columns[k]) != columns[k] && forall h <- TrimAll(columns) :: IsIdentifier(h)
    ensures columns[k] !in TrimAll(columns)
  {
    if columns[k] in TrimAll(columns) { IdentifierFacts(columns[k]); }
  }

  lemma HeaderKept(rows: seq<Row>, columns: seq<Text>)
    requires |columns| > 0 && forall c <- columns :: IsIdentifier(c)
    ensures Records(EncodeCsv(rows, columns)) == Ok([columns] + NonBlank(Table(rows, columns)[1..]))
    ensures TrimAll(columns) == columns
  {
    hide JoinLines, Records;
    var table := Table(rows, columns);
    assert columns[0] in columns;
    EncodingStart(table, [LF]);
    RecordsUndoJoin(table, [LF]);
    IdentifierFacts(columns[0]);
    assert !Blank(columns);
    forall i | 0 <= i < |columns| ensures Trim(columns[i]) == columns[i] {
      assert columns[i] in columns;
      IdentifierFacts(columns[i]);
    }
  }

  // ------------------------------------------------------ unclosed quotes

  function QuoteCount(s: Text, i: nat): nat
    requires i <= |s|
    decreases |s| - i
  {
    if i == |s| then 0 else (if s[i] == QUOTE then 1 else 0) + QuoteCount(s, i + 1)
  }

  lemma {:induction false} QuotesByParity(s: Text, i: nat, st: State)
    requires i <= |s|
    ensures Scan(s, i, st).quoted <==> (QuoteCount(s, i) % 2 == 1) != st.quoted
    decreases |s| - i
  {
    if i < |s| {
      var t := Turn(s, i, st);
      QuotesByParity(s, i + t.1, t.0);
    }
  }

  /** The error for an unclosed field is raised exactly for texts with an odd number of quotes. */
  lemma UnterminatedExactlyWhenOdd(input: Text)
    ensures Parsed(input) == Err(UnterminatedQuote) <==> QuoteCount(StripBom(input), 0) % 2 == 1
  {
    hide Scan, QuoteCount;
    QuotesByParity(StripBom(input), 0, START);
  }
}
