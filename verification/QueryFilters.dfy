/**
 * One filter on one stored value: the server's matching, and that a filter
 * sent by the client matches what the client asked for.
 */
module QueryFilters {
  import opened Outcome
  import opened JsNumbers
  import opened JsText
  import opened QueryParams

  /** A column value; Missing stands for undefined. */
  datatype Cell = Missing | Null | TextCell(t: Text) | NumberCell(f: Figure) | BoolCell(b: bool)

  type Row = map<Text, Cell>

  function CellOf(row: Row, field: Text): Cell { if field in row then row[field] else Missing }

  predicate Nil(c: Cell) { c.Missing? || c.Null? }

  /** String(cell) */
  function CellText(c: Cell): Text {
    match c
    case Missing => T("undefined")
    case Null => T("null")
    case TextCell(t) => t
    case NumberCell(f) => FigureText(f)
    case BoolCell(b) => if b then T("true") else T("false")
  }

  /** Number(cell) */
  function CellNumber(c: Cell): Num {
    match c
    case Missing => NaN
    case Null => Finite(0.0)
    case TextCell(t) => Number(t)
    case NumberCell(f) => Finite(FigureValue(f))
    case BoolCell(b) => Finite(if b then 1.0 else 0.0)
  }

  predicate Includes(t: Text, part: Text) { part <= t || (|t| > 0 && Includes(t[1..], part)) }

  function WithoutPercents(t: Text): Text {
    if |t| == 0 then [] else (if t[0] == U('%') then [] else [t[0]]) + WithoutPercents(t[1..])
  }

  /** String(value) of a filter value that is a text. */
  function TextOf(v: Value): Text { if v.TextV? then v.t else [] }

  predicate MatchFilter(c: Cell, op: Operator, v: Value) {
    if op == IsNull then (if v == BoolV(true) then Nil(c) else !Nil(c))
    else if Nil(c) then false
    else
      match op
      case Eq => CellText(c) == TextOf(v)
      case Neq => CellText(c) != TextOf(v)
      case Gt => NumLess(Compared(v), CellNumber(c))
      case Gte => NumAtMost(Compared(v), CellNumber(c))
      case Lt => NumLess(CellNumber(c), Compared(v))
      case Lte => NumAtMost(CellNumber(c), Compared(v))
      case Like => Includes(Lower(CellText(c)), WithoutPercents(Lower(TextOf(v))))
      case Ilike => Includes(Lower(CellText(c)), WithoutPercents(Lower(TextOf(v))))
      case Contains => Includes(Lower(CellText(c)), WithoutPercents(Lower(TextOf(v))))
      case StartsWith => Lower(TextOf(v)) <= Lower(CellText(c))
      case EndsWith => |TextOf(v)| <= |CellText(c)| && Lower(CellText(c))[|CellText(c)| - |TextOf(v)|..] == Lower(TextOf(v))
      case In => v.ListV? && exists item <- v.items :: Lower(item) == Lower(CellText(c))
      case Is => (c.BoolCell? && v == BoolV(c.b))
      case IsNull => false
  }

  /** The part stands somewhere in the text. */
  ghost predicate HasPart(t: Text, part: Text) { exists a: Text, b: Text :: t == a + part + b }

  lemma EmptyFront(part: Text, b: Text)
    ensures part <= [] + part + b
  {
  }

  lemma {:induction false} IncludesExactlyWhenPart(t: Text, part: Text)
    ensures Includes(t, part) <==> HasPart(t, part)
  {
    if part <= t {
      assert t == [] + part + t[|part|..];
    } else if |t| > 0 {
      IncludesExactlyWhenPart(t[1..], part);
      if a: Text, b: Text :| t == a + part + b {
        EmptyFront(part, b);
        assert t[1..] == a[1..] + part + b;
      }
      if a: Text, b: Text :| t[1..] == a + part + b {
        assert t == [t[0]] + a + part + b;
      }
    } else {
      forall a: Text, b: Text ensures t != a + part + b { assert |part| > 0; }
    }
  }

  /** a > b, for finite numbers and the infinities. */
  predicate Larger(a: Num, b: Num) {
    || (a.Finite? && b.Finite? && a.x > b.x)
    || (a == PlusInfinity && (b.Finite? || b == MinusInfinity))
    || (a.Finite? && b == MinusInfinity)
  }

  lemma LessMeansLarger(a: Num, b: Num)
    ensures NumLess(a, b) <==> Larger(b, a)
    ensures NumAtMost(a, b) <==> Larger(b, a) || (a == b && a != NaN)
  {
  }

  /** What a request asks for, said without the query string. */
  ghost predicate Asked(c: Cell, f: SentFilter) {
    if f.operator == IsNull then f.value == Scalar(T("true")) <==> (c == Missing || c == Null)
    else
      && c != Missing && c != Null
      && match f.value
         case Items(items) => f.operator == In && exists item <- items :: Lower(item) == Lower(CellText(c))
         case Scalar(t) =>
           (match f.operator
            case Eq => CellText(c) == t
            case Neq => CellText(c) != t
            case Gt => Larger(CellNumber(c), Number(t))
            case Gte => Larger(CellNumber(c), Number(t)) || (CellNumber(c) == Number(t) && Number(t) != NaN)
            case Lt => Larger(Number(t), CellNumber(c))
            case Lte => Larger(Number(t), CellNumber(c)) || (CellNumber(c) == Number(t) && Number(t) != NaN)
            case Like => HasPart(Lower(CellText(c)), WithoutWildcards(Lower(t)))
            case Ilike => HasPart(Lower(CellText(c)), WithoutWildcards(Lower(t)))
            case Contains => HasPart(Lower(CellText(c)), WithoutPercents(Lower(t)))
            case StartsWith => |t| <= |CellText(c)| && Lower(CellText(c)[..|t|]) == Lower(t)
            case EndsWith => |t| <= |CellText(c)| && Lower(CellText(c)[|CellText(c)| - |t|..]) == Lower(t)
            case Is => (t == T("true") && c == BoolCell(true)) || (t == T("false") && c == BoolCell(false))
            case _ => false)
  }

  function WithoutWildcards(t: Text): Text {
    if |t| == 0 then [] else (if t[0] == U('%') || t[0] == U('*') then [] else [t[0]]) + WithoutWildcards(t[1..])
  }

  lemma HeadUnit(t: Text)
    requires |t| > 0
    ensures Lower(t) == [Lower(t)[0]] + Lower(t[1..])
    ensures Lower(Percents(t)) == [Lower(Percents(t))[0]] + Lower(Percents(t[1..]))
    ensures if t[0] == U('*') || t[0] == U('%') then Lower(Percents(t))[0] == U('%') && Lower(t)[0] == t[0]
            else Lower(Percents(t))[0] == Lower(t)[0] && Lower(t)[0] != U('*') && Lower(t)[0] != U('%')
  {
    assert Percents(t)[1..] == Percents(t[1..]);
  }

  lemma DropHead(c: CodeUnit, t: Text)
    ensures WithoutPercents([c] + t) == (if c == U('%') then [] else [c]) + WithoutPercents(t)
    ensures WithoutWildcards([c] + t) == (if c == U('%') || c == U('*') then [] else [c]) + WithoutWildcards(t)
  {
    assert ([c] + t)[1..] == t;
  }

  lemma {:induction false} WildcardsVanish(t: Text)
    ensures WithoutPercents(Lower(Percents(t))) == WithoutWildcards(Lower(t))
  {
    if |t| > 0 {
      hide Lower, Percents, WithoutPercents, WithoutWildcards;
      WildcardsVanish(t[1..]);
      LowerKeepsLength(t);
      HeadUnit(t);
      DropHead(Lower(Percents(t))[0], Lower(Percents(t[1..])));
      DropHead(Lower(t)[0], Lower(t[1..]));
    } else {
      assert Percents(t) == [];
    }
  }

  lemma LowerKeepsLength(t: Text)
    ensures |Lower(t)| == |t| == |Lower(Percents(t))|
  {
  }

  /** Filters with values that a query carries. */
  predicate Sendable(f: SentFilter) {
    match f.value
    case Items(items) =>
      f.operator == In && |items| > 0 && forall i :: 0 <= i < |items| ==> Free(items[i], COMMA) && Trim(items[i]) == items[i]
    case Scalar(t) =>
      f.operator != In && (f.operator in {Gt, Gte, Lt, Lte} ==> ComparesAsNumber(t))
  }

  /** A text whose comparison means its number: a numeral, or none at its head, or zero there. */
  predicate ComparesAsNumber(t: Text) {
    var l := Scan(TrimStart(t));
    l.None? || ZeroLiteral(l.value) || Written(l.value) == Trim(t)
  }

  lemma ComparesAsNumberIs(t: Text)
    ensures ComparesAsNumber(t) <==> Compared(Numeric(t)) == Number(t)
  {
    ComparisonMeansNumberExactlyWhen(t);
    NumeralExactlyWhenWhole(t);
    hide Scan, Numeric, Compared, Number, Written, ZeroLiteral, IsNumeral, Trim, TrimStart;
  }

  /** Filters by numbers can always be sent. */
  lemma NumbersAreSendable(field: Text, op: Operator, n: Figure)
    requires op in {Eq, Neq, Gt, Gte, Lt, Lte}
    ensures Sendable(SentFilter(field, op, Scalar(FigureText(n))))
  {
    NumbersAreComparedAsSent(n);
    ComparesAsNumberIs(FigureText(n));
    hide Compared, Numeric, Number, FigureText, ComparesAsNumber;
  }

  lemma LowerOfSlices(t: Text, part: Text)
    ensures Lower(part) <= Lower(t) <==> |part| <= |t| && Lower(t[..|part|]) == Lower(part)
    ensures |part| <= |t| ==> Lower(t)[|t| - |part|..] == Lower(t[|t| - |part|..])
    ensures |Lower(t)| == |t| && |Lower(part)| == |part|
  {
    if |part| <= |t| { assert Lower(t)[..|part|] == Lower(t[..|part|]); }
  }

  lemma TrueIsNotFalse()
    ensures T("true") != T("false")
  {
    assert |T("true")| == 4 && |T("false")| == 5;
  }

  /** Every operator by a text, other than the comparisons. */
  lemma TextValueMeans(c: Cell, op: Operator, t: Text)
    requires op !in {In, Gt, Gte, Lt, Lte}
    ensures MatchFilter(c, op, ValueOf(op, t)) <==> Asked(c, SentFilter([], op, Scalar(t)))
  {
    WildcardsVanish(t);
    LowerOfSlices(CellText(c), t);
    TrueIsNotFalse();
    var cell := Lower(CellText(c));
    IncludesExactlyWhenPart(cell, WithoutWildcards(Lower(t)));
    IncludesExactlyWhenPart(cell, WithoutPercents(Lower(t)));
    hide Lower, Includes, HasPart, CellText, CellNumber, Percents, WithoutPercents, WithoutWildcards, Numeric, Larger, Number, T;
  }

  lemma ComparisonValueMeans(c: Cell, op: Operator, t: Text)
    requires op in {Gt, Gte, Lt, Lte} && ComparesAsNumber(t)
    ensures MatchFilter(c, op, ValueOf(op, t)) <==> Asked(c, SentFilter([], op, Scalar(t)))
  {
    ComparesAsNumberIs(t);
    LessMeansLarger(Number(t), CellNumber(c));
    LessMeansLarger(CellNumber(c), Number(t));
    hide Lower, CellText, CellNumber, Numeric, Compared, Number, ComparesAsNumber, NumLess, NumAtMost, Larger, T;
  }

  /** A value reader's result for what was sent keeps exactly the cells asked for. */
  lemma ValueMeans(c: Cell, f: SentFilter, v: Value)
    requires Sendable(f)
    requires f.value.Items? ==> v == ListV(f.value.items)
    requires f.value.Scalar? ==> v == ValueOf(f.operator, f.value.t)
    ensures MatchFilter(c, f.operator, v) <==> Asked(c, f)
  {
    match f.value
    case Items(items) =>
      hide Lower, Includes, HasPart, CellText, CellNumber, Trim, Free, T;
    case Scalar(t) =>
      if f.operator in {Gt, Gte, Lt, Lte} { ComparisonValueMeans(c, f.operator, t); } else { TextValueMeans(c, f.operator, t); }
      AskedIgnoresField(c, f);
      hide MatchFilter, Asked, ValueOf, ComparesAsNumber;
  }

  lemma AskedIgnoresField(c: Cell, f: SentFilter)
    ensures Asked(c, f) <==> Asked(c, SentFilter([], f.operator, f.value))
  {
    hide Lower, HasPart, CellText, CellNumber, Number, Larger, WithoutPercents, WithoutWildcards, T;
  }

  lemma ComparedBySize(c: Cell, op: Operator, v: Value, x: real, y: real)
    requires c.NumberCell? && CellNumber(c) == Finite(x) && Compared(v) == Finite(y) && op in {Gt, Gte, Lt, Lte}
    ensures MatchFilter(c, op, v) <==> match op case Gt => x > y case Gte => x >= y case Lt => x < y case _ => x <= y
  {
    hide Lower, Includes, CellText, CellNumber, Compared;
  }

  /** On stored numbers the comparisons by a number go by size. */
  lemma NumbersCompareBySize(stored: Figure, asked: Figure, op: Operator)
    requires op in {Gt, Gte, Lt, Lte}
    ensures MatchFilter(NumberCell(stored), op, ValueOf(op, FigureText(asked))) <==>
      var x, y := FigureValue(stored), FigureValue(asked);
      match op case Gt => x > y case Gte => x >= y case Lt => x < y case _ => x <= y
  {
    hide MatchFilter, Numeric, Number, FigureText, FigureValue, Compared;
    NumbersAreComparedAsSent(asked);
    ComparedBySize(NumberCell(stored), op, ValueOf(op, FigureText(asked)), FigureValue(stored), FigureValue(asked));
  }

  lemma EqualityIsOfTexts(c: Cell, t: Text)
    requires !Nil(c)
    ensures MatchFilter(c, Eq, ValueOf(Eq, t)) <==> CellText(c) == t
    ensures MatchFilter(c, Neq, ValueOf(Neq, t)) <==> CellText(c) != t
  {
    hide CellText;
  }

  lemma {:induction false} NoOperatorNamed(ops: seq<Operator>, name: Text)
    requires forall op <- ops :: OperatorName(op) != name
    ensures FirstNamed(ops, name) == None
  {
    hide OperatorName;
    if |ops| > 0 {
      assert ops[0] in ops && forall op :: op in ops[1..] ==> op in ops;
      NoOperatorNamed(ops[1..], name);
    }
  }

  lemma PlainTextParses(field: Text, val: Text)
    requires forall op :: Lower(val[..IndexOf(val, DOT)]) == OperatorName(op) ==> IndexOf(val, DOT) == |val|
    ensures ParseFilterValue(field, val) == Filter(field, Eq, TextV(val))
  {
    hide OperatorName, Lower, FirstNamed, ValueOf, IndexOf;
    if IndexOf(val, DOT) < |val| { NoOperatorNamed(OPERATORS, Lower(val[..IndexOf(val, DOT)])); }
  }

  lemma EqualityWithText(c: Cell, val: Text)
    ensures MatchFilter(c, Eq, TextV(val)) <==> c != Missing && c != Null && CellText(c) == val
  {
    hide CellText;
  }

  /** A text that does not begin with the name of an operator and a dot asks for equality with all of it. */
  lemma PlainTextMeansEquality(c: Cell, field: Text, val: Text)
    requires forall op :: Lower(val[..IndexOf(val, DOT)]) == OperatorName(op) ==> IndexOf(val, DOT) == |val|
    ensures var p := ParseFilterValue(field, val);
      p.field == field && (MatchFilter(c, p.operator, p.value) <==> c != Missing && c != Null && CellText(c) == val)
  {
    hide *;
    PlainTextParses(field, val);
    EqualityWithText(c, val);
  }

  /** A stored truth value equals the text of that truth value, and counts as 1 or 0. */
  lemma TruthValuesEqualTheirNames(stored: bool, asked: bool)
    ensures MatchFilter(BoolCell(stored), Eq, ValueOf(Eq, if asked then T("true") else T("false"))) <==> stored == asked
    ensures MatchFilter(BoolCell(stored), Is, ValueOf(Is, if asked then T("true") else T("false"))) <==> stored == asked
    ensures CellNumber(BoolCell(stored)) == Finite(if stored then 1.0 else 0.0)
  {
    TrueIsNotFalse();
    EqualityIsOfTexts(BoolCell(stored), if asked then T("true") else T("false"));
    hide T;
  }

  /** Equality by a number keeps only stored numbers of that value. */
  lemma NumbersEqualByValue(stored: Figure, asked: Figure)
    requires MatchFilter(NumberCell(stored), Eq, ValueOf(Eq, FigureText(asked)))
    ensures FigureValue(stored) == FigureValue(asked)
  {
    hide MatchFilter, ValueOf, FigureText, FigureValue, Number, ParseFloat;
    EqualityIsOfTexts(NumberCell(stored), FigureText(asked));
    FigureReads(stored);
    FigureReads(asked);
  }

  /** Encoded, parsed and applied, a filter keeps exactly the rows the client asked for. */
  lemma FilterMeansWhatWasSent(c: Cell, f: SentFilter)
    requires Sendable(f)
    ensures var p := ParseFilterValue(f.field, FilterParam(f).value);
      p.field == f.field && p.operator == f.operator && (MatchFilter(c, p.operator, p.value) <==> Asked(c, f))
  {
    FilterReaches(f.field, f.operator, EncodeFilter(f.value));
    if f.value.Items? { ListRecoveredExactlyWhen(f.value.items); }
    hide ParseFilterValue, MatchFilter, Asked, OperatorName, Trim, Free, ComparesAsNumber, ValueOf;
    ValueMeans(c, f, ValueOf(f.operator, EncodeFilter(f.value)));
  }

  /** Sent from inside a function, a list must in addition lose nothing to the stripped parentheses. */
  predicate RpcSendable(f: SentFilter) {
    Sendable(f) && (f.value.Items? ==> StripParens(Join(f.value.items, COMMA)) == Join(f.value.items, COMMA))
  }

  lemma RpcFilterMeansWhatWasSent(c: Cell, f: SentFilter)
    requires RpcSendable(f)
    ensures var p := ParseFilterValue(f.field, OperatorName(f.operator) + [DOT] + RpcText(f.value));
      p.field == f.field && p.operator == f.operator && (MatchFilter(c, p.operator, p.value) <==> Asked(c, f))
  {
    FilterReaches(f.field, f.operator, RpcText(f.value));
    if f.value.Items? { RpcListRecoveredExactlyWhen(f.value.items); }
    hide ParseFilterValue, MatchFilter, Asked, OperatorName, Trim, Free, ComparesAsNumber, ValueOf, StripParens, Join;
    ValueMeans(c, f, ValueOf(f.operator, RpcText(f.value)));
  }
}
