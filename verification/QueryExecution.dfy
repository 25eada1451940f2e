/**
 * A parsed query executed on the rows of a table; and the whole way from the
 * filters a caller states to the pages of rows that come back.
 */
module QueryExecution {
  import opened Outcome
  import opened JsNumbers
  import opened JsText
  import opened QueryParams
  import opened QueryFilters
  import opened QueryLaws

  // -------------------------------------------------------------- sorting

  /** a < b: strings by code units, everything else as numbers. */
  predicate Before(a: Cell, b: Cell) {
    if a.TextCell? && b.TextCell? then Less(a.t, b.t) else NumLess(CellNumber(a), CellNumber(b))
  }

  /** The comparator: the first sort whose cells differ decides. */
  function Compare(sorts: seq<Sort>, a: Row, b: Row): int {
    if |sorts| == 0 then 0
    else
      var x, y := CellOf(a, sorts[0].field), CellOf(b, sorts[0].field);
      var order := if sorts[0].descending then -1 else 1;
      if Before(x, y) then -order else if Before(y, x) then order else Compare(sorts[1..], a, b)
  }

  function InsertRow(sorts: seq<Sort>, r: Row, rows: seq<Row>): seq<Row> {
    if |rows| == 0 || Compare(sorts, r, rows[0]) <= 0 then [r] + rows else [rows[0]] + InsertRow(sorts, r, rows[1..])
  }

  /** A stable sort, as Array.prototype.sort is. */
  function SortRows(sorts: seq<Sort>, rows: seq<Row>): seq<Row> {
    if |rows| == 0 then [] else InsertRow(sorts, rows[0], SortRows(sorts, rows[1..]))
  }

  function Select(rows: seq<Row>, keep: Row -> bool): seq<Row> {
    if |rows| == 0 then [] else (if keep(rows[0]) then [rows[0]] else []) + Select(rows[1..], keep)
  }

  // ------------------------------------------------------------ execution

  /** The row policy of the caller, if there is a caller to restrict. */
  type Policy = Option<Row -> bool>

  predicate Allows(policy: Policy, row: Row) { policy.Some? ==> policy.value(row) }

  predicate Matches(row: Row, f: Filter) { MatchFilter(CellOf(row, f.field), f.operator, f.value) }

  predicate AllOf(fs: seq<Filter>, row: Row) { forall f <- fs :: Matches(row, f) }

  predicate AnyOf(fs: seq<Filter>, row: Row) { exists f <- fs :: Matches(row, f) }

  /** The row meets every filter, one of the alternatives if there are any, and the policy. */
  predicate Passes(p: Parsed, policy: Policy, row: Row) {
    AllOf(p.filters, row) && (|p.orFilters| > 0 ==> AnyOf(p.orFilters, row)) && Allows(policy, row)
  }

  /** Everything before paging: one pass for all conditions, then the sort. */
  function Result(rows: seq<Row>, p: Parsed, policy: Policy): seq<Row> {
    SortRows(p.sorts, Select(rows, (r: Row) => Passes(p, policy, r)))
  }

  function Min(a: int, b: int): int { if a < b then a else b }

  /** slice(offset, offset + limit) */
  function Page(rows: seq<Row>, offset: nat, limit: nat): seq<Row> {
    rows[Min(offset, |rows|)..Min(offset + limit, |rows|)]
  }

  /** Filtering twice is filtering once by both conditions. */
  lemma {:induction false} SelectTwice(rows: seq<Row>, f: Row -> bool, g: Row -> bool, both: Row -> bool)
    requires forall r :: both(r) <==> f(r) && g(r)
    ensures Select(Select(rows, f), g) == Select(rows, both)
  {
    if |rows| > 0 {
      SelectTwice(rows[1..], f, g, both);
      SelectPrepend(rows[0], Select(rows[1..], f), g);
      assert [] + Select(rows[1..], f) == Select(rows[1..], f);
    }
  }

  lemma {:induction false} SelectSame(rows: seq<Row>, f: Row -> bool, g: Row -> bool)
    requires forall r <- rows :: f(r) <==> g(r)
    ensures Select(rows, f) == Select(rows, g)
  {
    if |rows| > 0 {
      assert rows[0] in rows && forall r :: r in rows[1..] ==> r in rows;
      SelectSame(rows[1..], f, g);
    }
  }

  lemma {:induction false} SelectAll(rows: seq<Row>, f: Row -> bool)
    requires forall r <- rows :: f(r)
    ensures Select(rows, f) == rows
  {
    if |rows| > 0 {
      assert rows[0] in rows && forall r :: r in rows[1..] ==> r in rows;
      SelectAll(rows[1..], f);
      assert [rows[0]] + rows[1..] == rows;
    }
  }

  lemma {:induction false} SelectedPass(rows: seq<Row>, keep: Row -> bool)
    ensures forall r <- Select(rows, keep) :: keep(r) && r in rows
  {
    if |rows| > 0 { SelectedPass(rows[1..], keep); }
  }

  lemma SortedRowsAre(sorts: seq<Sort>, rows: seq<Row>)
    ensures forall r :: r in SortRows(sorts, rows) <==> r in rows
    ensures |SortRows(sorts, rows)| == |rows|
  {
    SortKeepsRows(sorts, rows);
    hide SortRows;
    assert forall r :: r in SortRows(sorts, rows) <==> r in multiset(SortRows(sorts, rows));
    assert forall r :: r in rows <==> r in multiset(rows);
    assert |SortRows(sorts, rows)| == |multiset(SortRows(sorts, rows))| == |multiset(rows)|;
  }

  /** The three filter passes together keep exactly the rows that pass. */
  lemma PassesInTurn(rows: seq<Row>, p: Parsed, policy: Policy, every: Row -> bool, some: Row -> bool, permitted: Row -> bool)
    requires forall r :: every(r) <==> AllOf(p.filters, r)
    requires forall r :: some(r) <==> (|p.orFilters| > 0 ==> AnyOf(p.orFilters, r))
    requires forall r :: permitted(r) <==> Allows(policy, r)
    ensures Select(Select(Select(rows, every), some), permitted) == Select(rows, (r: Row) => Passes(p, policy, r))
  {
    hide AllOf, AnyOf, Allows;
    var matched := (r: Row) => every(r) && some(r);
    SelectTwice(rows, every, some, matched);
    SelectTwice(rows, matched, permitted, (r: Row) => Passes(p, policy, r));
  }

  method FilterRows(rows: seq<Row>, p: Parsed, policy: Policy) returns (filtered: seq<Row>)
    ensures filtered == Select(rows, (r: Row) => Passes(p, policy, r))
  {
    hide AllOf, AnyOf, Allows, Passes, Select;
    var every := (r: Row) => AllOf(p.filters, r);
    var some := (r: Row) => |p.orFilters| > 0 ==> AnyOf(p.orFilters, r);
    var permitted := (r: Row) => Allows(policy, r);
    filtered := rows;
    if |p.filters| > 0 { filtered := Select(filtered, every); } else { NoFilters(rows, every); }
    if |p.orFilters| > 0 { filtered := Select(filtered, some); } else { SelectAll(filtered, some); }
    if policy.Some? { filtered := Select(filtered, permitted); } else { NoPolicy(filtered, permitted); }
    PassesInTurn(rows, p, policy, every, some, permitted);
  }

  method ExecuteSelect(rows: seq<Row>, p: Parsed, policy: Policy) returns (data: seq<Row>, totalCount: nat)
    ensures data == Page(Result(rows, p, policy), p.offset, p.limit)
    ensures totalCount == |Select(rows, (r: Row) => Passes(p, policy, r))|
    ensures |data| == if totalCount <= p.offset then 0 else Min(p.limit, totalCount - p.offset)
    ensures forall r <- data :: r in rows && Passes(p, policy, r)
    ensures Uniform(p.sorts, rows) ==> Arranged(p.sorts, data)
  {
    hide Passes, Select, SortRows, Uniform, Arranged;
    var filtered := FilterRows(rows, p, policy);
    SelectedPass(rows, (r: Row) => Passes(p, policy, r));
    SortedRowsAre(p.sorts, filtered);
    if |p.sorts| > 0 { filtered := SortRows(p.sorts, filtered); } else { Unsorted(filtered); }
    totalCount := |filtered|;
    data := filtered[Min(p.offset, |filtered|)..Min(p.offset + p.limit, |filtered|)];
    assert forall r :: r in data ==> r in filtered;
    if Uniform(p.sorts, rows) {
      SortOrders(p.sorts, Select(rows, (r: Row) => Passes(p, policy, r)), rows);
      PageOfArranged(p.sorts, Result(rows, p, policy), p.offset, p.limit);
    }
  }

  lemma NoFilters(rows: seq<Row>, every: Row -> bool)
    requires forall r :: every(r) <==> AllOf([], r)
    ensures Select(rows, every) == rows
  {
    SelectAll(rows, every);
  }

  lemma NoPolicy(rows: seq<Row>, permitted: Row -> bool)
    requires forall r :: permitted(r) <==> Allows(None, r)
    ensures Select(rows, permitted) == rows
  {
    SelectAll(rows, permitted);
  }

  lemma {:induction false} Unsorted(rows: seq<Row>)
    ensures SortRows([], rows) == rows
  {
    if |rows| > 0 { Unsorted(rows[1..]); }
  }

  /** The pages 0 to n - 1 one after the other. */
  function Pages(rows: seq<Row>, limit: nat, n: nat): seq<Row> {
    if n == 0 then [] else Pages(rows, limit, n - 1) + Page(rows, (n - 1) * limit, limit)
  }

  /** Consecutive pages are together the result from its start, no row missing and none twice. */
  lemma {:induction false} PagesConcatenate(rows: seq<Row>, limit: nat, n: nat)
    ensures n * limit >= 0 && Pages(rows, limit, n) == rows[..Min(n * limit, |rows|)]
  {
    if n > 0 {
      PagesConcatenate(rows, limit, n - 1);
      assert (n - 1) * limit + limit == n * limit;
      var a, b := Min((n - 1) * limit, |rows|), Min(n * limit, |rows|);
      assert rows[..a] + rows[a..b] == rows[..b];
    }
  }

  lemma {:induction false} InsertKeepsRows(sorts: seq<Sort>, r: Row, rows: seq<Row>)
    ensures multiset(InsertRow(sorts, r, rows)) == multiset{r} + multiset(rows)
  {
    if |rows| > 0 {
      assert rows == [rows[0]] + rows[1..];
      if Compare(sorts, r, rows[0]) > 0 { InsertKeepsRows(sorts, r, rows[1..]); }
    }
  }

  lemma {:induction false} SortKeepsRows(sorts: seq<Sort>, rows: seq<Row>)
    ensures multiset(SortRows(sorts, rows)) == multiset(rows)
  {
    if |rows| > 0 {
      assert rows == [rows[0]] + rows[1..];
      SortKeepsRows(sorts, rows[1..]);
      InsertKeepsRows(sorts, rows[0], SortRows(sorts, rows[1..]));
    }
  }

  /** Rows that compare as equal keep their order. */
  lemma {:induction false} InsertIsStable(sorts: seq<Sort>, r: Row, rows: seq<Row>, same: Row -> bool)
    requires Ties(sorts, same)
    ensures Select(InsertRow(sorts, r, rows), same) == (if same(r) then [r] else []) + Select(rows, same)
  {
    hide Compare, Ties, Select;
    SelectPrepend(r, rows, same);
    if |rows| > 0 && Compare(sorts, r, rows[0]) > 0 {
      InsertIsStable(sorts, r, rows[1..], same);
      SelectPrepend(rows[0], rows[1..], same);
      SelectPrepend(rows[0], InsertRow(sorts, r, rows[1..]), same);
      assert rows == [rows[0]] + rows[1..];
      if same(r) && same(rows[0]) { TiesMeans(sorts, same, r, rows[0]); }
      assert [] + Select(rows, same) == Select(rows, same);
    }
  }

  /** All rows of a kind compare as equal. */
  ghost predicate Ties(sorts: seq<Sort>, same: Row -> bool) { forall a, b :: same(a) && same(b) ==> Compare(sorts, a, b) == 0 }

  lemma TiesMeans(sorts: seq<Sort>, same: Row -> bool, a: Row, b: Row)
    requires Ties(sorts, same) && same(a) && same(b)
    ensures Compare(sorts, a, b) == 0
  {
  }

  lemma SelectPrepend(r: Row, rows: seq<Row>, same: Row -> bool)
    ensures Select([r] + rows, same) == (if same(r) then [r] else []) + Select(rows, same)
  {
    assert ([r] + rows)[1..] == rows;
  }

  lemma {:induction false} SortIsStable(sorts: seq<Sort>, rows: seq<Row>, same: Row -> bool)
    requires Ties(sorts, same)
    ensures Select(SortRows(sorts, rows), same) == Select(rows, same)
  {
    hide Compare, Ties;
    if |rows| > 0 {
      SortIsStable(sorts, rows[1..], same);
      InsertIsStable(sorts, rows[0], SortRows(sorts, rows[1..]), same);
    }
  }

  /** Every sort field holds only strings, or only numbers, truth values and null. */
  predicate Uniform(sorts: seq<Sort>, rows: seq<Row>) {
    forall s <- sorts ::
      (forall r <- rows :: CellOf(r, s.field).TextCell?)
      || (forall r <- rows :: !CellOf(r, s.field).TextCell? && !CellOf(r, s.field).Missing?)
  }

  predicate Alike(a: Cell, b: Cell) { a.TextCell? == b.TextCell? && !a.Missing? && !b.Missing? }

  /** Before is a strict weak order on cells of one kind. */
  lemma BeforeFacts(a: Cell, b: Cell, c: Cell)
    requires Alike(a, b) && Alike(b, c)
    ensures Before(a, b) ==> !Before(b, a)
    ensures Before(a, b) && Before(b, c) ==> Before(a, c)
    ensures Before(a, b) ==> Before(a, c) || Before(c, b)
  {
    if a.TextCell? {
      TextFacts(a.t, b.t, c.t);
    } else {
      assert CellNumber(a).Finite? && CellNumber(b).Finite? && CellNumber(c).Finite?;
    }
    hide Less, FigureValue;
  }

  lemma TextFacts(a: Text, b: Text, c: Text)
    ensures Less(a, b) ==> !Less(b, a)
    ensures Less(a, b) && Less(b, c) ==> Less(a, c)
    ensures Less(a, b) ==> Less(a, c) || Less(c, b)
  {
    hide Less;
    if Less(a, b) {
      if Less(b, a) { LessTransitive(a, b, a); LessIrreflexive(a); }
      if Less(b, c) { LessTransitive(a, b, c); }
      LessTotal(a, c);
      LessTotal(c, b);
      if Less(c, a) { LessTransitive(c, a, b); }
    }
  }

  lemma {:induction false} CompareFacts(sorts: seq<Sort>, rows: seq<Row>, a: Row, b: Row, c: Row)
    requires Uniform(sorts, rows) && a in rows && b in rows && c in rows
    ensures Compare(sorts, a, b) == -Compare(sorts, b, a)
    ensures Compare(sorts, a, b) <= 0 && Compare(sorts, b, c) <= 0 ==> Compare(sorts, a, c) <= 0
  {
    if |sorts| > 0 {
      assert sorts[0] in sorts;
      assert Uniform(sorts[1..], rows) by { assert forall s :: s in sorts[1..] ==> s in sorts; }
      CompareFacts(sorts[1..], rows, a, b, c);
      var f := sorts[0].field;
      var x, y, z := CellOf(a, f), CellOf(b, f), CellOf(c, f);
      BeforeFacts(x, y, z);
      BeforeFacts(y, x, z);
      BeforeFacts(x, z, y);
      BeforeFacts(z, x, y);
      BeforeFacts(y, z, x);
      BeforeFacts(z, y, x);
    }
  }

  // ------------------------------------------- what order was asked for

  predicate HasNumber(c: Cell) { c.Null? || c.NumberCell? || c.BoolCell? }

  function RealOf(c: Cell): real
    requires HasNumber(c)
  {
    match c
    case Null => 0.0
    case NumberCell(f) => FigureValue(f)
    case BoolCell(b) => if b then 1.0 else 0.0
  }

  /** Texts by their code units, numbers by their size; false is 0 and true is 1, null is 0. */
  predicate Smaller(a: Cell, b: Cell) {
    || (a.TextCell? && b.TextCell? && Precedes(a.t, b.t))
    || (HasNumber(a) && HasNumber(b) && RealOf(a) < RealOf(b))
  }

  predicate Level(a: Cell, b: Cell) {
    (a.TextCell? && b.TextCell? && a.t == b.t) || (HasNumber(a) && HasNumber(b) && RealOf(a) == RealOf(b))
  }

  /**
   * a may stand before b: in the first sort column where the two differ, a has
   * the smaller cell, or the larger one if the sort is descending.
   */
  predicate InTurn(sorts: seq<Sort>, a: Row, b: Row) {
    forall k ::
      && 0 <= k < |sorts|
      && (forall m :: 0 <= m < k ==> Level(CellOf(a, sorts[m].field), CellOf(b, sorts[m].field)))
      && !Level(CellOf(a, sorts[k].field), CellOf(b, sorts[k].field))
      ==> if sorts[k].descending then Smaller(CellOf(b, sorts[k].field), CellOf(a, sorts[k].field))
          else Smaller(CellOf(a, sorts[k].field), CellOf(b, sorts[k].field))
  }

  predicate Arranged(sorts: seq<Sort>, rows: seq<Row>) {
    forall i, j :: 0 <= i < j < |rows| ==> InTurn(sorts, rows[i], rows[j])
  }

  lemma BeforeExactlyWhenSmaller(a: Cell, b: Cell)
    requires Alike(a, b)
    ensures Before(a, b) <==> Smaller(a, b)
    ensures !Before(a, b) && !Before(b, a) <==> Level(a, b)
  {
    if a.TextCell? {
      LessExactlyWhenPrecedes(a.t, b.t);
      LessExactlyWhenPrecedes(b.t, a.t);
      LessTotal(a.t, b.t);
      LessIrreflexive(a.t);
    }
    hide Less, Precedes, FigureValue;
  }

  lemma InTurnUnfolds(sorts: seq<Sort>, a: Row, b: Row)
    requires |sorts| > 0
    ensures var x, y := CellOf(a, sorts[0].field), CellOf(b, sorts[0].field);
      InTurn(sorts, a, b) <==>
        if Level(x, y) then InTurn(sorts[1..], a, b) else if sorts[0].descending then Smaller(y, x) else Smaller(x, y)
  {
    hide Level, Smaller, CellOf;
    var rest := sorts[1..];
    if Level(CellOf(a, sorts[0].field), CellOf(b, sorts[0].field)) {
      if InTurn(sorts, a, b) {
        forall k |
          && 0 <= k < |rest|
          && (forall m :: 0 <= m < k ==> Level(CellOf(a, rest[m].field), CellOf(b, rest[m].field)))
          && !Level(CellOf(a, rest[k].field), CellOf(b, rest[k].field))
          ensures if rest[k].descending then Smaller(CellOf(b, rest[k].field), CellOf(a, rest[k].field))
                  else Smaller(CellOf(a, rest[k].field), CellOf(b, rest[k].field))
        {
          forall m | 0 <= m < k + 1 ensures Level(CellOf(a, sorts[m].field), CellOf(b, sorts[m].field)) {
            if m > 0 { assert sorts[m] == rest[m - 1]; }
          }
          assert sorts[k + 1] == rest[k];
        }
      }
      if InTurn(rest, a, b) {
        forall k |
          && 0 <= k < |sorts|
          && (forall m :: 0 <= m < k ==> Level(CellOf(a, sorts[m].field), CellOf(b, sorts[m].field)))
          && !Level(CellOf(a, sorts[k].field), CellOf(b, sorts[k].field))
          ensures if sorts[k].descending then Smaller(CellOf(b, sorts[k].field), CellOf(a, sorts[k].field))
                  else Smaller(CellOf(a, sorts[k].field), CellOf(b, sorts[k].field))
        {
          assert sorts[k] == rest[k - 1];
          forall m | 0 <= m < k - 1 ensures Level(CellOf(a, rest[m].field), CellOf(b, rest[m].field)) {
            assert rest[m] == sorts[m + 1];
          }
        }
      }
    }
  }

  lemma LevelIsMutual(a: Cell, b: Cell)
    ensures Level(a, b) <==> Level(b, a)
  {
  }

  lemma {:induction false} CompareExactlyWhenInTurn(sorts: seq<Sort>, rows: seq<Row>, a: Row, b: Row)
    requires Uniform(sorts, rows) && a in rows && b in rows
    ensures Compare(sorts, a, b) <= 0 <==> InTurn(sorts, a, b)
  {
    if |sorts| > 0 {
      assert sorts[0] in sorts;
      assert Uniform(sorts[1..], rows) by { assert forall s :: s in sorts[1..] ==> s in sorts; }
      CompareExactlyWhenInTurn(sorts[1..], rows, a, b);
      InTurnUnfolds(sorts, a, b);
      var x, y := CellOf(a, sorts[0].field), CellOf(b, sorts[0].field);
      BeforeExactlyWhenSmaller(x, y);
      BeforeExactlyWhenSmaller(y, x);
      LevelIsMutual(x, y);
      BeforeFacts(x, y, x);
      BeforeFacts(y, x, y);
      hide InTurn, Uniform, Before, Smaller, Level;
    }
  }

  /** On uniform columns the comparator's order is the order asked for. */
  lemma OrderedExactlyWhenArranged(sorts: seq<Sort>, rows: seq<Row>, all: seq<Row>)
    requires Uniform(sorts, all) && forall x <- rows :: x in all
    ensures Ordered(sorts, rows) <==> Arranged(sorts, rows)
  {
    hide Compare, InTurn, Uniform;
    forall i, j | 0 <= i < j < |rows| ensures Compare(sorts, rows[i], rows[j]) <= 0 <==> InTurn(sorts, rows[i], rows[j]) {
      assert rows[i] in rows && rows[j] in rows;
      CompareExactlyWhenInTurn(sorts, all, rows[i], rows[j]);
    }
  }

  predicate Ordered(sorts: seq<Sort>, rows: seq<Row>) {
    forall i, j :: 0 <= i < j < |rows| ==> Compare(sorts, rows[i], rows[j]) <= 0
  }

  lemma {:induction false} InsertKeepsOrder(sorts: seq<Sort>, r: Row, rows: seq<Row>, all: seq<Row>)
    requires Uniform(sorts, all) && r in all && (forall x <- rows :: x in all) && Ordered(sorts, rows)
    ensures Ordered(sorts, InsertRow(sorts, r, rows)) && forall x <- InsertRow(sorts, r, rows) :: x in all
  {
    hide Compare, Uniform;
    if |rows| > 0 {
      assert rows[0] in rows;
      if Compare(sorts, r, rows[0]) <= 0 {
        forall j | 0 <= j < |rows| ensures Compare(sorts, r, rows[j]) <= 0 {
          assert rows[j] in rows;
          if j > 0 { CompareFacts(sorts, all, r, rows[0], rows[j]); }
        }
      } else {
        assert forall x :: x in rows[1..] ==> x in rows;
        InsertKeepsOrder(sorts, r, rows[1..], all);
        InsertKeepsRows(sorts, r, rows[1..]);
        var rest := InsertRow(sorts, r, rows[1..]);
        forall j | 0 <= j < |rest| ensures Compare(sorts, rows[0], rest[j]) <= 0 {
          assert rest[j] in multiset(rest);
          if rest[j] == r {
            CompareFacts(sorts, all, rows[0], r, r);
          } else {
            assert rest[j] in rows[1..];
            var k :| 0 <= k < |rows[1..]| && rows[1..][k] == rest[j];
            assert rows[k + 1] == rest[j];
          }
        }
      }
    }
  }

  lemma {:induction false} SortKeepsOrder(sorts: seq<Sort>, rows: seq<Row>, all: seq<Row>)
    requires Uniform(sorts, all) && forall x <- rows :: x in all
    ensures Ordered(sorts, SortRows(sorts, rows)) && forall x <- SortRows(sorts, rows) :: x in all
  {
    if |rows| > 0 {
      assert rows[0] in rows && forall x :: x in rows[1..] ==> x in rows;
      SortKeepsOrder(sorts, rows[1..], all);
      InsertKeepsOrder(sorts, rows[0], SortRows(sorts, rows[1..]), all);
    }
  }

  /** The sorted rows are in the order asked for. */
  lemma SortOrders(sorts: seq<Sort>, rows: seq<Row>, all: seq<Row>)
    requires Uniform(sorts, all) && forall x <- rows :: x in all
    ensures Arranged(sorts, SortRows(sorts, rows))
  {
    SortKeepsOrder(sorts, rows, all);
    hide SortRows, Uniform, Ordered, Arranged;
    OrderedExactlyWhenArranged(sorts, SortRows(sorts, rows), all);
  }

  const TEN: Text := [U('1'), U('0')]
  const NINE: Text := [U('9')]
  const NINE_AND_A_HALF: Figure := Parts(false, [U('9'), U('5')], 1)

  lemma TwoDigits(x: CodeUnit, y: CodeUnit)
    ensures DecimalValue([x]) == x - U('0') && DecimalValue([x, y]) == (x - U('0')) * 10 + (y - U('0'))
  {
    assert [x, y][..1] == [x] && [x][..0] == [];
  }

  lemma NineAndAHalf()
    ensures FigureValue(NINE_AND_A_HALF) == 9.5
  {
    TwoDigits(U('9'), U('5'));
    hide DecimalValue;
    assert Pow10(-1) == Pow10(0) / 10.0;
  }

  lemma NineAndTen()
    ensures Number(NINE) == Finite(9.0) && Number(TEN) == Finite(10.0) && Less(TEN, NINE)
  {
    TwoDigits(U('1'), U('0'));
    TwoDigits(U('9'), U('0'));
    hide Number, DecimalValue;
    DigitsRead(TEN);
    DigitsRead(NINE);
  }

  // The number 9.5 lies between the values of the texts "9" and "10", and "10" is before "9" as a text.
  lemma MixedCells()
    ensures Before(TextCell(NINE), NumberCell(NINE_AND_A_HALF))
    ensures Before(NumberCell(NINE_AND_A_HALF), TextCell(TEN))
    ensures Before(TextCell(TEN), TextCell(NINE))
  {
    hide Number, FigureValue, Less;
    NineAndAHalf();
    NineAndTen();
  }

  /** A column that mixes strings and numbers may have no order at all: no arrangement of 9.5, "10" and "9" is one. */
  lemma MixedColumnsHaveNoOrder(field: Text, a: Row, b: Row, c: Row, rows: seq<Row>)
    requires CellOf(a, field) == NumberCell(NINE_AND_A_HALF)
    requires CellOf(b, field) == TextCell(TEN) && CellOf(c, field) == TextCell(NINE)
    requires multiset(rows) == multiset{a, b, c}
    ensures !Ordered([Sort(field, false)], rows)
  {
    MixedCells();
  }

  lemma {:induction false} SelectFacts(rows: seq<Row>, keep: Row -> bool)
    ensures forall x :: multiset(Select(rows, keep))[x] == if keep(x) then multiset(rows)[x] else 0
  {
    if |rows| > 0 {
      assert rows == [rows[0]] + rows[1..];
      SelectFacts(rows[1..], keep);
    }
  }

  /** The result consists of the rows that pass, each as often as it is stored, and its pages are together the whole. */
  lemma PagesGiveTheWholeResult(rows: seq<Row>, p: Parsed, policy: Policy, limit: nat, n: nat)
    requires n * limit >= |Result(rows, p, policy)|
    ensures Pages(Result(rows, p, policy), limit, n) == Result(rows, p, policy)
    ensures forall x :: multiset(Result(rows, p, policy))[x] == (if Passes(p, policy, x) then multiset(rows)[x] else 0)
  {
    var result := Result(rows, p, policy);
    PagesConcatenate(result, limit, n);
    assert result[..|result|] == result;
    var passes := (r: Row) => Passes(p, policy, r);
    SelectFacts(rows, passes);
    SortKeepsRows(p.sorts, Select(rows, passes));
    hide Passes, SortRows;
  }

  // ------------------------------------------------------- the whole way

  ghost predicate AskedAll(fs: seq<SentFilter>, row: Row) { forall f <- fs :: Asked(CellOf(row, f.field), f) }

  function SortsOf(order: Option<Sort>): seq<Sort> { if order.Some? then [order.value] else [] }

  /** The rows a caller means: allowed, satisfying what was asked, in the order asked for. */
  ghost function Meant(rows: seq<Row>, fs: seq<SentFilter>, order: Option<Sort>, policy: Policy): seq<Row> {
    SortRows(SortsOf(order), Select(rows, (r: Row) => AskedAll(fs, r) && Allows(policy, r)))
  }

  lemma ReceivedMeans(f: SentFilter, row: Row)
    requires Sendable(f)
    ensures Matches(row, Received(f)) <==> Asked(CellOf(row, f.field), f)
  {
    FilterReaches(f.field, f.operator, EncodeFilter(f.value));
    hide ParseFilterValue, MatchFilter, Asked, OperatorName, EncodeFilter, ValueOf, CellOf;
    FilterMeansWhatWasSent(CellOf(row, f.field), f);
  }

  lemma RpcReceivedMeans(f: SentFilter, row: Row)
    requires RpcSendable(f)
    ensures Matches(row, RpcReceived(f)) <==> Asked(CellOf(row, f.field), f)
  {
    FilterReaches(f.field, f.operator, RpcText(f.value));
    hide ParseFilterValue, MatchFilter, Asked, OperatorName, RpcText, ValueOf, CellOf;
    RpcFilterMeansWhatWasSent(CellOf(row, f.field), f);
  }

  lemma AllReceivedMean(fs: seq<SentFilter>, row: Row)
    requires forall f <- fs :: Sendable(f)
    ensures AllOf(ReceivedAll(fs), row) <==> AskedAll(fs, row)
  {
    hide Matches, Received, Asked, Sendable;
    var all := ReceivedAll(fs);
    assert forall i :: 0 <= i < |fs| ==> all[i] == Received(fs[i]);
    forall f | f in fs ensures Matches(row, Received(f)) <==> Asked(CellOf(row, f.field), f) { ReceivedMeans(f, row); }
    forall f | f in fs ensures Received(f) in all { var i :| 0 <= i < |fs| && fs[i] == f; assert all[i] == Received(f); }
  }

  lemma AllRpcReceivedMean(fs: seq<SentFilter>, row: Row)
    requires forall f <- fs :: RpcSendable(f)
    ensures AllOf(RpcReceivedAll(fs), row) <==> AskedAll(fs, row)
  {
    hide Matches, RpcReceived, Asked, RpcSendable;
    var all := RpcReceivedAll(fs);
    assert forall i :: 0 <= i < |fs| ==> all[i] == RpcReceived(fs[i]);
    forall f | f in fs ensures Matches(row, RpcReceived(f)) <==> Asked(CellOf(row, f.field), f) { RpcReceivedMeans(f, row); }
    forall f | f in fs ensures RpcReceived(f) in all { var i :| 0 <= i < |fs| && fs[i] == f; assert all[i] == RpcReceived(f); }
  }

  lemma ResultIsMeant(rows: seq<Row>, p: Parsed, fs: seq<SentFilter>, order: Option<Sort>, policy: Policy)
    requires p.orFilters == [] && p.sorts == SortsOf(order)
    requires forall r :: AllOf(p.filters, r) <==> AskedAll(fs, r)
    ensures Result(rows, p, policy) == Meant(rows, fs, order, policy)
  {
    hide AllOf, AskedAll, Allows, SortRows;
    SelectSame(rows, (r: Row) => Passes(p, policy, r), (r: Row) => AskedAll(fs, r) && Allows(policy, r));
  }

  /** What the list request of the client library returns. */
  function Answer(rows: seq<Row>, fs: seq<SentFilter>, selected: Text, limit: Option<nat>, offset: Option<nat>, order: Option<Sort>,
                  columns: set<Text>, policy: Policy): seq<Row>
  {
    var p := ParseQuery(Gathered(Search(fs, selected, limit, offset, order)), columns);
    Page(Result(rows, p, policy), p.offset, p.limit)
  }

  /** What the select call of a function returns. */
  function RpcAnswer(rows: seq<Row>, fs: seq<SentFilter>, selected: Text, limit: Option<nat>, order: Option<Sort>,
                     columns: set<Text>, policy: Policy): seq<Row>
  {
    var p := ParseQuery(RpcQuery(fs, selected, limit, order), columns);
    Page(Result(rows, p, policy), p.offset, p.limit)
  }

  /** Filters on known columns, with values that arrive, and an order by a known column. */
  predicate WellPosed(fs: seq<SentFilter>, order: Option<Sort>, columns: set<Text>) {
    && (forall i :: 0 <= i < |fs| ==> Filterable(fs[i].field, columns))
    && (order.Some? ==> Sortable(order.value.field) && Lower(order.value.field) in columns)
  }

  lemma {:induction false} AloneAmong(part: seq<SentFilter>, all: seq<SentFilter>)
    ensures forall f <- AloneIn(part, all) :: f in part
  {
    if |part| > 0 {
      hide FieldCount;
      AloneAmong(part[1..], all);
    }
  }

  lemma MeantRows(rows: seq<Row>, fs: seq<SentFilter>, order: Option<Sort>, policy: Policy)
    ensures forall x :: multiset(Meant(rows, fs, order, policy))[x] == (if AskedAll(fs, x) && Allows(policy, x) then multiset(rows)[x] else 0)
    ensures Uniform(SortsOf(order), rows) ==> Arranged(SortsOf(order), Meant(rows, fs, order, policy))
  {
    var asked := (r: Row) => AskedAll(fs, r) && Allows(policy, r);
    var kept := Select(rows, asked);
    SelectFacts(rows, asked);
    SortKeepsRows(SortsOf(order), kept);
    SelectedPass(rows, asked);
    hide AskedAll, Allows, SortRows, Uniform, Arranged;
    if Uniform(SortsOf(order), rows) { SortOrders(SortsOf(order), kept, rows); }
  }

  lemma PageOfArranged(sorts: seq<Sort>, rows: seq<Row>, offset: nat, limit: nat)
    requires Arranged(sorts, rows)
    ensures Arranged(sorts, Page(rows, offset, limit))
  {
    hide InTurn;
    var a, b := Min(offset, |rows|), Min(offset + limit, |rows|);
    forall i, j | 0 <= i < j < b - a ensures InTurn(sorts, rows[a..b][i], rows[a..b][j]) {
      assert rows[a..b][i] == rows[a + i] && rows[a..b][j] == rows[a + j];
    }
  }

  /** A list request returns its page of the allowed rows that satisfy the filters it did not repeat a field in. */
  lemma AnswerIsMeant(rows: seq<Row>, fs: seq<SentFilter>, selected: Text, limit: Option<nat>, offset: Option<nat>,
                      order: Option<Sort>, columns: set<Text>, policy: Policy)
    requires WellPosed(fs, order, columns) && forall f <- fs :: Sendable(f)
    ensures Answer(rows, fs, selected, limit, offset, order, columns, policy) ==
      Page(Meant(rows, AloneIn(fs, fs), order, policy), GetOr(offset, 0), Clamped(limit))
    ensures Uniform(SortsOf(order), rows) ==>
      Arranged(SortsOf(order), Answer(rows, fs, selected, limit, offset, order, columns, policy))
  {
    QueryReaches(fs, selected, limit, offset, order, columns);
    var p := ParseQuery(Gathered(Search(fs, selected, limit, offset, order)), columns);
    hide ParseQuery, Gathered, Search, Sendable, AloneIn, Page, Result, Meant, Clamped, AllOf, AskedAll, ReceivedAll, Uniform, Arranged;
    AloneAmong(fs, fs);
    var kept := AloneIn(fs, fs);
    forall r ensures AllOf(p.filters, r) <==> AskedAll(kept, r) { AllReceivedMean(kept, r); }
    ResultIsMeant(rows, p, kept, order, policy);
    MeantRows(rows, kept, order, policy);
    if Uniform(SortsOf(order), rows) {
      PageOfArranged(SortsOf(order), Meant(rows, kept, order, policy), GetOr(offset, 0), Clamped(limit));
    }
  }

  /** A function's select call returns the first of the allowed rows that satisfy the last filter on each field. */
  lemma RpcAnswerIsMeant(rows: seq<Row>, fs: seq<SentFilter>, selected: Text, limit: Option<nat>, order: Option<Sort>,
                         columns: set<Text>, policy: Policy)
    requires WellPosed(fs, order, columns) && forall f <- fs :: RpcSendable(f)
    ensures RpcAnswer(rows, fs, selected, limit, order, columns, policy) ==
      Page(Meant(rows, Latest([], fs), order, policy), 0, Clamped(limit))
    ensures Uniform(SortsOf(order), rows) ==> Arranged(SortsOf(order), RpcAnswer(rows, fs, selected, limit, order, columns, policy))
    ensures forall f :: f in Latest([], fs) <==> LastOn(fs, f)
  {
    RpcQueryReaches(fs, selected, limit, order, columns);
    var p := ParseQuery(RpcQuery(fs, selected, limit, order), columns);
    hide ParseQuery, RpcQuery, RpcSendable, Latest, Page, Result, Meant, Clamped, AllOf, AskedAll, RpcReceivedAll, Uniform, Arranged;
    var kept := Latest([], fs);
    assert forall f :: LastOn(fs, f) ==> f in fs;
    hide LastOn;
    forall r ensures AllOf(p.filters, r) <==> AskedAll(kept, r) { AllRpcReceivedMean(kept, r); }
    ResultIsMeant(rows, p, kept, order, policy);
    MeantRows(rows, kept, order, policy);
    if Uniform(SortsOf(order), rows) { PageOfArranged(SortsOf(order), Meant(rows, kept, order, policy), 0, Clamped(limit)); }
  }

  /** The requests for page 0 to n - 1, one after the other. */
  function Answers(rows: seq<Row>, fs: seq<SentFilter>, selected: Text, limit: nat, order: Option<Sort>,
                   columns: set<Text>, policy: Policy, n: nat): seq<Row>
  {
    if n == 0 then []
    else
      Answers(rows, fs, selected, limit, order, columns, policy, n - 1)
      + Answer(rows, fs, selected, Some(limit), Some((n - 1) * limit), order, columns, policy)
  }

  lemma AnswersUnfold(rows: seq<Row>, fs: seq<SentFilter>, selected: Text, limit: nat, order: Option<Sort>,
                      columns: set<Text>, policy: Policy, n: nat)
    ensures n == 0 ==> Answers(rows, fs, selected, limit, order, columns, policy, n) == []
    ensures n > 0 ==> (n - 1) * limit >= 0
    ensures n > 0 ==>
      Answers(rows, fs, selected, limit, order, columns, policy, n) ==
      Answers(rows, fs, selected, limit, order, columns, policy, n - 1)
      + Answer(rows, fs, selected, Some(limit), Some((n - 1) * limit), order, columns, policy)
  {
    hide Answer;
  }

  lemma PagesUnfold(rows: seq<Row>, limit: nat, n: nat)
    ensures n == 0 ==> Pages(rows, limit, n) == []
    ensures n > 0 ==> (n - 1) * limit >= 0
    ensures n > 0 ==> Pages(rows, limit, n) == Pages(rows, limit, n - 1) + Page(rows, (n - 1) * limit, limit)
  {
    hide Page;
  }

  lemma PlainLimit(limit: nat, offset: nat)
    requires 1 <= limit <= 1000
    ensures Clamped(Some(limit)) == limit && GetOr(Some(offset), 0) == offset
  {
  }

  lemma {:induction false} AnswersArePages(rows: seq<Row>, fs: seq<SentFilter>, selected: Text, limit: nat, order: Option<Sort>,
                                           columns: set<Text>, policy: Policy, n: nat)
    requires WellPosed(fs, order, columns) && (forall f <- fs :: Sendable(f)) && 1 <= limit <= 1000
    ensures Answers(rows, fs, selected, limit, order, columns, policy, n) ==
      Pages(Meant(rows, AloneIn(fs, fs), order, policy), limit, n)
  {
    hide *;
    AnswersUnfold(rows, fs, selected, limit, order, columns, policy, n);
    PagesUnfold(Meant(rows, AloneIn(fs, fs), order, policy), limit, n);
    if n > 0 {
      AnswersArePages(rows, fs, selected, limit, order, columns, policy, n - 1);
      PlainLimit(limit, (n - 1) * limit);
      AnswerIsMeant(rows, fs, selected, Some(limit), Some((n - 1) * limit), order, columns, policy);
    }
  }

  /**
   * The pages of a query, requested one after the other through the client
   * library, are together exactly the allowed rows that satisfy what was asked,
   * each as often as it is stored, in the order asked for.
   */
  lemma PagedQueryAnswersExactly(rows: seq<Row>, fs: seq<SentFilter>, selected: Text, limit: nat, order: Option<Sort>,
                                 columns: set<Text>, policy: Policy, n: nat)
    requires WellPosed(fs, order, columns) && (forall f <- fs :: Sendable(f)) && FieldsDistinct(fs) && 1 <= limit <= 1000
    requires n * limit >= |rows|
    ensures var data := Answers(rows, fs, selected, limit, order, columns, policy, n);
      && data == Meant(rows, fs, order, policy)
      && (forall x :: multiset(data)[x] == (if AskedAll(fs, x) && Allows(policy, x) then multiset(rows)[x] else 0))
      && (Uniform(SortsOf(order), rows) ==> Arranged(SortsOf(order), data))
  {
    hide *;
    AnswersArePages(rows, fs, selected, limit, order, columns, policy, n);
    AllAlone(fs, fs);
    DistinctMeans(fs);
    var data := Meant(rows, fs, order, policy);
    MeantRows(rows, fs, order, policy);
    MeantSize(rows, fs, order, policy);
    PagesConcatenate(data, limit, n);
    MinIs(n * limit, |data|);
    assert data[..|data|] == data;
  }

  lemma MinIs(a: int, b: int)
    ensures a >= b ==> Min(a, b) == b
  {
  }

  lemma MeantSize(rows: seq<Row>, fs: seq<SentFilter>, order: Option<Sort>, policy: Policy)
    ensures |Meant(rows, fs, order, policy)| <= |rows|
  {
    var asked := (r: Row) => AskedAll(fs, r) && Allows(policy, r);
    SelectSize(rows, asked);
    SortedRowsAre(SortsOf(order), Select(rows, asked));
    hide SortRows, AskedAll, Allows;
  }

  lemma {:induction false} SelectSize(rows: seq<Row>, keep: Row -> bool)
    ensures |Select(rows, keep)| <= |rows|
  {
    if |rows| > 0 { SelectSize(rows[1..], keep); }
  }

  /** What QueryBuilder.Order(field, ascending) brings: the cells of the column never fall, or never rise. */
  lemma AnswerRisesOrFalls(rows: seq<Row>, fs: seq<SentFilter>, selected: Text, limit: Option<nat>, offset: Option<nat>,
                           field: Text, ascending: bool, columns: set<Text>, policy: Policy, i: nat, j: nat)
    requires WellPosed(fs, Some(Sort(field, !ascending)), columns) && forall f <- fs :: Sendable(f)
    requires Uniform([Sort(field, !ascending)], rows)
    requires i < j < |Answer(rows, fs, selected, limit, offset, Some(Sort(field, !ascending)), columns, policy)|
    ensures var answer := Answer(rows, fs, selected, limit, offset, Some(Sort(field, !ascending)), columns, policy);
      var x, y := CellOf(answer[i], field), CellOf(answer[j], field);
      Level(x, y) || (if ascending then Smaller(x, y) else Smaller(y, x))
  {
    hide Answer, Uniform, WellPosed, Sendable, Level, Smaller, CellOf;
    var sort := Sort(field, !ascending);
    AnswerIsMeant(rows, fs, selected, limit, offset, Some(sort), columns, policy);
    var answer := Answer(rows, fs, selected, limit, offset, Some(sort), columns, policy);
    assert InTurn([sort], answer[i], answer[j]);
    InTurnUnfolds([sort], answer[i], answer[j]);
  }

  // --------------------------------------------------------- alternatives

  /** name.eq.Joao */
  function AlternativeText(f: SentFilter): Text { f.field + ([DOT] + FilterParam(f).value) }

  function AlternativeTexts(fs: seq<SentFilter>): seq<Text> {
    seq(|fs|, i requires 0 <= i < |fs| => AlternativeText(fs[i]))
  }

  /** (name.eq.Joao,email.eq.joao@example.com) */
  function AlternativesText(fs: seq<SentFilter>): Text { [OPEN] + Join(AlternativeTexts(fs), COMMA) + [CLOSE] }

  /** Alternatives stand between commas and begin with a known column. */
  predicate Separable(f: SentFilter, columns: set<Text>) {
    Free(f.field, DOT) && Lower(f.field) in columns && Free(AlternativeText(f), COMMA)
  }

  lemma FieldEndsAtDot(field: Text, rest: Text)
    requires Free(field, DOT)
    ensures var t := field + ([DOT] + rest);
      IndexOf(t, DOT) == |field| && t[..|field|] == field && t[|field| + 1..] == rest
  {
    var t := field + ([DOT] + rest);
    assert forall k :: 0 <= k < |field| ==> t[k] == field[k];
    assert t[|field|] == DOT;
  }

  lemma {:induction false} PartsReach(fs: seq<SentFilter>, columns: set<Text>)
    requires forall i :: 0 <= i < |fs| ==> Separable(fs[i], columns)
    ensures ParseOrParts(AlternativeTexts(fs), columns) == ReceivedAll(fs)
  {
    hide ParseFilterValue, OperatorName, EncodeFilter, ValueOf, IndexOf, Lower;
    if |fs| > 0 {
      var f := fs[0];
      FieldEndsAtDot(f.field, FilterParam(f).value);
      FilterReaches(f.field, f.operator, EncodeFilter(f.value));
      assert AlternativeTexts(fs)[1..] == AlternativeTexts(fs[1..]);
      PartsReach(fs[1..], columns);
      assert ReceivedAll(fs) == [Received(f)] + ReceivedAll(fs[1..]);
    } else {
      assert AlternativeTexts(fs) == [] && ReceivedAll(fs) == [];
    }
  }

  lemma ParensGo(joined: Text)
    ensures var t := [OPEN] + joined + [CLOSE]; Trim(t) == t && StripParens(t) == joined
  {
    var t := [OPEN] + joined + [CLOSE];
    NoBlanksToTrim(t);
    assert t[1..] == joined + [CLOSE] && (joined + [CLOSE])[..|joined|] == joined;
  }

  /** Alternatives without commas are read back one by one. */
  lemma AlternativesReach(fs: seq<SentFilter>, columns: set<Text>)
    requires |fs| > 0 && forall i :: 0 <= i < |fs| ==> Separable(fs[i], columns)
    ensures OrsOf(Entry(T("or"), One(AlternativesText(fs))), columns) == ReceivedAll(fs)
  {
    hide ParseOrParts, Trim, StripParens, Split, Join, AlternativeText, T;
    var texts := AlternativeTexts(fs);
    ParensGo(Join(texts, COMMA));
    SplitJoin(texts, COMMA);
    PartsReach(fs, columns);
  }

  lemma {:induction false} NoOrs(query: Query, columns: set<Text>)
    requires forall i :: 0 <= i < |query| ==> query[i].key != T("or")
    ensures ParseOrs(query, columns) == []
  {
    hide ParseOrParts, T;
    if |query| > 0 { NoOrs(query[1..], columns); }
  }

  lemma {:induction false} OneOr(query: Query, columns: set<Text>, k: nat)
    requires k < |query| && forall i :: 0 <= i < |query| && i != k ==> query[i].key != T("or")
    ensures ParseOrs(query, columns) == OrsOf(query[k], columns)
  {
    hide T;
    if k == 0 {
      NoOrs(query[1..], columns);
      assert OrsOf(query[0], columns) + [] == OrsOf(query[0], columns);
    } else {
      OneOr(query[1..], columns, k - 1);
      assert OrsOf(query[0], columns) == [];
      assert [] + OrsOf(query[k], columns) == OrsOf(query[k], columns);
    }
    hide OrsOf;
  }

  lemma AnyReceivedMeans(fs: seq<SentFilter>, row: Row)
    requires forall f <- fs :: Sendable(f)
    ensures AnyOf(ReceivedAll(fs), row) <==> exists f <- fs :: Asked(CellOf(row, f.field), f)
  {
    hide Matches, Received, Asked, Sendable;
    var all := ReceivedAll(fs);
    assert forall i :: 0 <= i < |fs| ==> all[i] == Received(fs[i]);
    forall f | f in fs ensures Matches(row, Received(f)) <==> Asked(CellOf(row, f.field), f) { ReceivedMeans(f, row); }
    forall f | f in fs ensures Received(f) in all { var i :| 0 <= i < |fs| && fs[i] == f; assert all[i] == Received(f); }
  }

  /**
   * A request with alternatives returns each row as often as it is stored that
   * satisfies the other filters, at least one alternative, and the policy.
   */
  lemma AlternativesAreJoined(query: Query, columns: set<Text>, k: nat, fs: seq<SentFilter>, rows: seq<Row>, policy: Policy)
    requires k < |query| && query[k] == Entry(T("or"), One(AlternativesText(fs)))
    requires forall i :: 0 <= i < |query| && i != k ==> query[i].key != T("or")
    requires |fs| > 0 && (forall i :: 0 <= i < |fs| ==> Separable(fs[i], columns)) && forall f <- fs :: Sendable(f)
    ensures var result := multiset(Result(rows, ParseQuery(query, columns), policy));
      forall row ::
        && (AllOf(ParseFilters(query, columns), row) && (exists f <- fs :: Asked(CellOf(row, f.field), f)) && Allows(policy, row)
            ==> result[row] == multiset(rows)[row])
        && (result[row] > 0
            ==> AllOf(ParseFilters(query, columns), row) && (exists f <- fs :: Asked(CellOf(row, f.field), f)) && Allows(policy, row))
  {
    hide ParseFilters, ParseOrs, ParseSorts, OrsOf, AlternativesText, Sendable, Separable, Asked, Limit, Offset, T,
         SortRows, Select, AllOf, AnyOf, Allows, Lookup, Shown, OrderText, ReceivedAll;
    OneOr(query, columns, k);
    AlternativesReach(fs, columns);
    var p := ParseQuery(query, columns);
    ReceivedCount(fs);
    var passes := (r: Row) => Passes(p, policy, r);
    forall row ensures Passes(p, policy, row) <==>
      && AllOf(ParseFilters(query, columns), row) && (exists f <- fs :: Asked(CellOf(row, f.field), f)) && Allows(policy, row)
    {
      AnyReceivedMeans(fs, row);
    }
    SelectFacts(rows, passes);
    SortKeepsRows(p.sorts, Select(rows, passes));
  }

  lemma ReceivedCount(fs: seq<SentFilter>)
    ensures |ReceivedAll(fs)| == |fs|
  {
  }

  const A: Text := [U('a')]
  const X: Text := [U('x')]
  const Y: Text := [U('y')]

  lemma OneItem(x: Text)
    requires |x| == 1 && x[0] != COMMA && !IsSpace(x[0]) && x[0] != CLOSE
    ensures ValueOf(In, [OPEN] + x) == ListV([x])
  {
    var raw := [OPEN] + x;
    assert raw[1..] == x;
    assert IndexOf(x, COMMA) == 1;
    NoBlanksToTrim(x);
    assert TrimAll([x]) == [x];
  }

  lemma FirstPart(field: Text, val: Text, rest: seq<Text>, columns: set<Text>)
    requires Free(field, DOT) && Lower(field) in columns
    ensures ParseOrParts([field + ([DOT] + val)] + rest, columns) == [ParseFilterValue(field, val)] + ParseOrParts(rest, columns)
  {
    FieldEndsAtDot(field, val);
    assert ([field + ([DOT] + val)] + rest)[1..] == rest;
    hide ParseFilterValue, IndexOf, Lower;
  }

  lemma PartWithoutDot(p: Text, columns: set<Text>)
    requires Free(p, DOT)
    ensures ParseOrParts([p], columns) == []
  {
    assert IndexOf(p, DOT) == |p|;
    assert [p][1..] == [];
    hide IndexOf;
  }

  // The two parts that the comma leaves: the first is a list of one item, the second has no dot.
  lemma CutParts(first: Text, second: Text)
    requires first == A + ([DOT] + (OperatorName(In) + [DOT] + ([OPEN] + X))) && second == Y + [CLOSE]
    ensures ParseOrParts([first, second], {A}) == [Filter(A, In, ListV([X]))]
  {
    assert Lower(A) == A;
    hide OperatorName, ValueOf, ParseFilterValue, ParseOrParts, Lower;
    FirstPart(A, OperatorName(In) + [DOT] + ([OPEN] + X), [second], {A});
    assert [first] + [second] == [first, second];
    PartWithoutDot(second, {A});
    FilterReaches(A, In, [OPEN] + X);
    OneItem(X);
  }

  lemma CutText(name: Text)
    ensures var first, second := A + ([DOT] + (name + [DOT] + ([OPEN] + X))), Y + [CLOSE];
      A + ([DOT] + (name + [DOT] + ([OPEN] + (X + ([COMMA] + Y)) + [CLOSE]))) == first + ([COMMA] + second)
  {
  }

  lemma NamesHaveNoComma(op: Operator)
    ensures Free(OperatorName(op), COMMA)
  {
    NamesArePlain(op);
    hide OperatorName;
  }

  /** Lists of more than one item are no alternatives: or=(a.in.(x,y)) is cut at its comma and asks for x alone. */
  lemma ListAlternativeIsCut()
    ensures OrsOf(Entry(T("or"), One(AlternativesText([SentFilter(A, In, Items([X, Y]))]))), {A}) == [Filter(A, In, ListV([X]))]
  {
    hide OperatorName, ParseOrParts, Trim, StripParens, Split, T;
    var f, name := SentFilter(A, In, Items([X, Y])), OperatorName(In);
    var first, second := A + ([DOT] + (name + [DOT] + ([OPEN] + X))), Y + [CLOSE];
    assert [X, Y][1..] == [Y];
    assert Join([X, Y], COMMA) == X + ([COMMA] + Y);
    CutText(name);
    NamesHaveNoComma(In);
    var texts := AlternativeTexts([f]);
    assert texts == [AlternativeText(f)] && Join(texts, COMMA) == AlternativeText(f) == first + ([COMMA] + second);
    assert [first, second][1..] == [second];
    assert Join([first, second], COMMA) == first + ([COMMA] + second);
    SplitJoin([first, second], COMMA);
    ParensGo(Join(texts, COMMA));
    CutParts(first, second);
  }
}
