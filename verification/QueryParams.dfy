/**
 * List queries: how the client library writes filters, order and paging into
 * a query string, and how the REST server reads them back.
 */
module QueryParams {
  import opened Outcome
  import opened JsNumbers
  import opened JsText

  const DOT: CodeUnit := U('.')
  const COMMA: CodeUnit := U(',')
  const OPEN: CodeUnit := U('(')
  const CLOSE: CodeUnit := U(')')

  datatype Operator = Eq | Neq | Gt | Gte | Lt | Lte | Like | Ilike | In | Is | IsNull | Contains | StartsWith | EndsWith

  datatype Value = TextV(t: Text) | NumberV(x: Num) | ListV(items: seq<Text>) | BoolV(b: bool) | NullV

  datatype Filter = Filter(field: Text, operator: Operator, value: Value)

  datatype Sort = Sort(field: Text, descending: bool)

  /** One name and value of a query string, decoded. */
  datatype Param = Param(key: Text, value: Text)

  /** A property of the query object: a string, or an array for a repeated name. */
  datatype Given = One(t: Text) | Many(ts: seq<Text>)

  datatype Entry = Entry(key: Text, value: Given)

  /** The query object, its names in order. */
  type Query = seq<Entry>

  datatype Parsed = Parsed(filters: seq<Filter>, orFilters: seq<Filter>, sorts: seq<Sort>, limit: nat, offset: nat)

  // --------------------------------------------------------------- server

  function OperatorName(op: Operator): Text {
    match op
    case Eq => T("eq") case Neq => T("neq") case Gt => T("gt") case Gte => T("gte") case Lt => T("lt") case Lte => T("lte")
    case Like => T("like") case Ilike => T("ilike") case In => T("in") case Is => T("is") case IsNull => T("isnull")
    case Contains => T("contains") case StartsWith => T("starts_with") case EndsWith => T("ends_with")
  }

  const OPERATORS := [Eq, Neq, Gt, Gte, Lt, Lte, Like, Ilike, In, Is, IsNull, Contains, StartsWith, EndsWith]

  function FirstNamed(ops: seq<Operator>, name: Text): Option<Operator> {
    if |ops| == 0 then None else if OperatorName(ops[0]) == name then Some(ops[0]) else FirstNamed(ops[1..], name)
  }

  function OperatorOf(name: Text): Option<Operator> { FirstNamed(OPERATORS, name) }

  /** replace(/^\(|\)$/g, '') */
  function StripParens(t: Text): Text {
    var s := if |t| > 0 && t[0] == OPEN then t[1..] else t;
    if |s| > 0 && s[|s| - 1] == CLOSE then s[..|s| - 1] else s
  }

  function Percents(t: Text): Text { seq(|t|, i requires 0 <= i < |t| => if t[i] == U('*') then U('%') else t[i]) }

  function TrimAll(ts: seq<Text>): seq<Text> { seq(|ts|, i requires 0 <= i < |ts| => Trim(ts[i])) }

  /** parseFloat(raw) || raw */
  function Numeric(raw: Text): Value {
    var x := ParseFloat(raw);
    if x == NaN || x == Finite(0.0) then TextV(raw) else NumberV(x)
  }

  function ValueOf(op: Operator, raw: Text): Value {
    match op
    case Gt => Numeric(raw) case Gte => Numeric(raw)
    case Lt => Numeric(raw) case Lte => Numeric(raw)
    case Like => TextV(Percents(raw)) case Ilike => TextV(Percents(raw))
    case In => ListV(TrimAll(Split(StripParens(raw), COMMA)))
    case Is => if raw == T("true") then BoolV(true) else if raw == T("false") then BoolV(false) else NullV
    case IsNull => BoolV(raw == T("true"))
    case _ => TextV(raw)
  }

  function ParseFilterValue(field: Text, val: Text): Filter {
    var dot := IndexOf(val, DOT);
    if dot == |val| then Filter(field, Eq, TextV(val))
    else
      var op := OperatorOf(Lower(val[..dot]));
      if op == None then Filter(field, Eq, TextV(val))
      else Filter(field, op.value, ValueOf(op.value, val[dot + 1..]))
  }

  predicate Reserved(key: Text) { key in {T("select"), T("order"), T("limit"), T("offset"), T("cursor")} }

  function ParseOrParts(parts: seq<Text>, columns: set<Text>): seq<Filter> {
    if |parts| == 0 then []
    else
      var p := parts[0];
      var dot := IndexOf(p, DOT);
      (if dot < |p| && Lower(p[..dot]) in columns then [ParseFilterValue(p[..dot], p[dot + 1..])] else [])
      + ParseOrParts(parts[1..], columns)
  }

  /** What one entry adds to the filters; an array is passed over. */
  function FilterOf(e: Entry, columns: set<Text>): seq<Filter> {
    if !Reserved(e.key) && e.key != T("or") && Lower(e.key) in columns && e.value.One? then [ParseFilterValue(e.key, e.value.t)] else []
  }

  function OrsOf(e: Entry, columns: set<Text>): seq<Filter> {
    if e.key == T("or") && e.value.One? then ParseOrParts(Split(StripParens(Trim(e.value.t)), COMMA), columns) else []
  }

  function ParseFilters(query: Query, columns: set<Text>): seq<Filter> {
    if |query| == 0 then [] else FilterOf(query[0], columns) + ParseFilters(query[1..], columns)
  }

  function ParseOrs(query: Query, columns: set<Text>): seq<Filter> {
    if |query| == 0 then [] else OrsOf(query[0], columns) + ParseOrs(query[1..], columns)
  }

  function ParseSorts(parts: seq<Text>, columns: set<Text>): seq<Sort> {
    if |parts| == 0 then []
    else
      var pieces := Split(Trim(parts[0]), DOT);
      (if Lower(pieces[0]) in columns then [Sort(pieces[0], |pieces| > 1 && Lower(pieces[1]) == T("desc"))] else [])
      + ParseSorts(parts[1..], columns)
  }

  function Lookup(query: Query, key: Text): Option<Given> {
    if |query| == 0 then None else if query[0].key == key then Some(query[0].value) else Lookup(query[1..], key)
  }

  /** String of a property, as parseInt takes it: an array is joined by commas. */
  function Shown(g: Option<Given>): Option<Text> {
    if g.None? then None else if g.value.One? then Some(g.value.t) else Some(Join(g.value.ts, COMMA))
  }

  /** parseInt(t, 10) */
  function ParseInt(t: Text): Option<int> {
    var s := TrimStart(t);
    var signed := |s| > 0 && (s[0] == U('-') || s[0] == U('+'));
    var digits := if signed then s[1..] else s;
    var end := Span(digits, 0, (c: CodeUnit) => IsDigit(c));
    if end == 0 then None
    else if signed && s[0] == U('-') then Some(-DecimalValue(digits[..end])) else Some(DecimalValue(digits[..end]))
  }

  function Limit(raw: Option<Text>): (n: nat)
    ensures 1 <= n <= 1000
  {
    var n := if raw.Some? then ParseInt(raw.value) else None;
    if n == None || n.value <= 0 then 50 else if n.value > 1000 then 1000 else n.value
  }

  function Offset(raw: Option<Text>): nat {
    var n := if raw.Some? then ParseInt(raw.value) else None;
    if n == None || n.value < 0 then 0 else n.value
  }

  function OrderText(query: Query): Text {
    var order := Lookup(query, T("order"));
    if order.Some? && order.value.One? then order.value.t else []
  }

  function ParseQuery(query: Query, columns: set<Text>): Parsed {
    var order := OrderText(query);
    Parsed(ParseFilters(query, columns), ParseOrs(query, columns),
           if order == [] then [] else ParseSorts(Split(order, COMMA), columns),
           Limit(Shown(Lookup(query, T("limit")))), Offset(Shown(Lookup(query, T("offset")))))
  }

  /** One turn of the loop over the entries. */
  method ReadEntry(e: Entry, columns: set<Text>) returns (filters: seq<Filter>, orFilters: seq<Filter>)
    ensures filters == FilterOf(e, columns) && orFilters == OrsOf(e, columns)
  {
    hide ParseFilterValue, ParseOrParts, Lower, Split, Trim, StripParens;
    filters, orFilters := [], [];
    if Reserved(e.key) {
      OrIsNotReserved();
      return;
    }
    if e.key == T("or") && e.value.One? {
      orFilters := ParseOrParts(Split(StripParens(Trim(e.value.t)), COMMA), columns);
      return;
    }
    if e.key != T("or") && Lower(e.key) in columns && e.value.One? { filters := [ParseFilterValue(e.key, e.value.t)]; }
  }

  method ReadFilters(query: Query, columns: set<Text>) returns (filters: seq<Filter>, orFilters: seq<Filter>)
    ensures filters == ParseFilters(query, columns) && orFilters == ParseOrs(query, columns)
  {
    hide FilterOf, OrsOf;
    filters, orFilters := [], [];
    assert query[0..] == query;
    for i := 0 to |query|
      invariant filters + ParseFilters(query[i..], columns) == ParseFilters(query, columns)
      invariant orFilters + ParseOrs(query[i..], columns) == ParseOrs(query, columns)
    {
      assert query[i..][0] == query[i] && query[i..][1..] == query[i + 1..];
      var more, moreOrs := ReadEntry(query[i], columns);
      filters, orFilters := filters + more, orFilters + moreOrs;
    }
    assert filters + [] == filters && orFilters + [] == orFilters;
  }

  method ReadSorts(parts: seq<Text>, columns: set<Text>) returns (sorts: seq<Sort>)
    ensures sorts == ParseSorts(parts, columns)
  {
    hide Lower, Split, Trim;
    sorts := [];
    assert parts[0..] == parts;
    for i := 0 to |parts|
      invariant sorts + ParseSorts(parts[i..], columns) == ParseSorts(parts, columns)
    {
      assert parts[i..][0] == parts[i] && parts[i..][1..] == parts[i + 1..];
      var pieces := Split(Trim(parts[i]), DOT);
      if Lower(pieces[0]) in columns {
        sorts := sorts + [Sort(pieces[0], |pieces| > 1 && Lower(pieces[1]) == T("desc"))];
      }
    }
    assert sorts + [] == sorts;
  }

  method ParseQueryParams(query: Query, columns: set<Text>) returns (r: Parsed)
    ensures r == ParseQuery(query, columns)
  {
    hide ParseFilters, ParseOrs, ParseSorts, Split, Limit, Offset, Lookup, Shown;
    var filters, orFilters := ReadFilters(query, columns);
    var sorts: seq<Sort> := [];
    var order := OrderText(query);
    if order != [] { sorts := ReadSorts(Split(order, COMMA), columns); }
    return Parsed(filters, orFilters, sorts, Limit(Shown(Lookup(query, T("limit")))), Offset(Shown(Lookup(query, T("offset")))));
  }

  lemma OrIsNotReserved()
    ensures !Reserved(T("or"))
  {
    var o := T("or");
    assert |o| == 2 && o[0] == U('o') && T("order")[1] == U('r');
    assert |T("select")| == 6 && |T("order")| == 5 && |T("limit")| == 5 && |T("offset")| == 6 && |T("cursor")| == 6;
  }

  // ------------------------------------------------- the two query objects

  function Values(params: seq<Param>, key: Text): seq<Text> {
    if |params| == 0 then [] else (if params[0].key == key then [params[0].value] else []) + Values(params[1..], key)
  }

  function GivenOf(values: seq<Text>): Given { if |values| == 1 then One(values[0]) else Many(values) }

  /** What the web framework makes of a query string: a repeated name becomes one array. */
  function Gathered(params: seq<Param>): Query
    decreases |params|
  {
    if |params| == 0 then []
    else
      var k := params[0].key;
      WithoutKeyShortens(params[1..], k);
      [Entry(k, GivenOf(Values(params, k)))] + Gathered(WithoutKey(params[1..], k))
  }

  function WithoutKey(params: seq<Param>, key: Text): seq<Param> {
    if |params| == 0 then [] else (if params[0].key == key then [] else [params[0]]) + WithoutKey(params[1..], key)
  }

  lemma {:induction false} WithoutKeyShortens(params: seq<Param>, key: Text)
    ensures |WithoutKey(params, key)| <= |params|
  {
    if |params| > 0 { WithoutKeyShortens(params[1..], key); }
  }

  /** query[key] = value: a name already there keeps its place. */
  function Assign(query: Query, key: Text, value: Text): Query {
    if |query| == 0 then [Entry(key, One(value))]
    else if query[0].key == key then [Entry(key, One(value))] + query[1..]
    else [query[0]] + Assign(query[1..], key, value)
  }

  // --------------------------------------------------------------- client

  /** A scalar as String() writes it, or a list of such scalars. */
  datatype Sent = Scalar(t: Text) | Items(items: seq<Text>)

  datatype SentFilter = SentFilter(field: Text, operator: Operator, value: Sent)

  function EncodeFilter(v: Sent): Text {
    match v
    case Scalar(t) => t
    case Items(items) => [OPEN] + Join(items, COMMA) + [CLOSE]
  }

  function FilterParam(f: SentFilter): Param { Param(f.field, OperatorName(f.operator) + [DOT] + EncodeFilter(f.value)) }

  function FilterParams(fs: seq<SentFilter>): seq<Param> { seq(|fs|, i requires 0 <= i < |fs| => FilterParam(fs[i])) }

  function SortText(s: Sort): Text { s.field + [DOT] + (if s.descending then T("desc") else T("asc")) }

  /** search.set: replaces an entry of the name or appends one. */
  function SetParam(params: seq<Param>, key: Text, value: Text): seq<Param> {
    if |params| == 0 then [Param(key, value)]
    else if params[0].key == key then [Param(key, value)] + WithoutKey(params[1..], key)
    else [params[0]] + SetParam(params[1..], key, value)
  }

  lemma {:induction false} ValuesWithout(params: seq<Param>, key: Text, other: Text)
    ensures Values(WithoutKey(params, key), other) == if other == key then [] else Values(params, other)
  {
    if |params| > 0 {
      ValuesWithout(params[1..], key, other);
      if params[0].key != key { assert ([params[0]] + WithoutKey(params[1..], key))[1..] == WithoutKey(params[1..], key); }
      assert [] + WithoutKey(params[1..], key) == WithoutKey(params[1..], key);
    }
  }

  /** search.set leaves the name with that value alone, and all other names as they were. */
  lemma {:induction false} SetParamReplaces(params: seq<Param>, key: Text, value: Text, other: Text)
    ensures Values(SetParam(params, key, value), other) == if other == key then [value] else Values(params, other)
  {
    if |params| > 0 {
      var rest := if params[0].key == key then WithoutKey(params[1..], key) else SetParam(params[1..], key, value);
      var first := if params[0].key == key then Param(key, value) else params[0];
      assert SetParam(params, key, value) == [first] + rest && ([first] + rest)[1..] == rest;
      if params[0].key == key { ValuesWithout(params[1..], key, other); } else { SetParamReplaces(params[1..], key, value, other); }
    }
  }

  class QueryBuilder {
    var filters: seq<SentFilter>
    var selected: Text
    var rowLimit: Option<nat>
    var rowOffset: Option<nat>
    var orderBy: Option<Sort>

    constructor ()
      ensures filters == [] && selected == [U('*')] && rowLimit == None && rowOffset == None && orderBy == None
    {
      filters, selected, rowLimit, rowOffset, orderBy := [], [U('*')], None, None, None;
    }

    /** eq, neq, gt, gte, lt, lte, like, ilike and in. */
    method Where(field: Text, operator: Operator, value: Sent)
      modifies this`filters
      ensures filters == old(filters) + [SentFilter(field, operator, value)]
    {
      filters := filters + [SentFilter(field, operator, value)];
    }

    method Order(field: Text, ascending: bool)
      modifies this`orderBy
      ensures orderBy == Some(Sort(field, !ascending))
    {
      orderBy := Some(Sort(field, !ascending));
    }

    method Page(limit: nat, offset: nat)
      modifies this`rowLimit, this`rowOffset
      ensures rowLimit == Some(limit) && rowOffset == Some(offset)
    {
      rowLimit, rowOffset := Some(limit), Some(offset);
    }

    method ListPath() returns (search: seq<Param>)
      ensures search == Search(filters, selected, rowLimit, rowOffset, orderBy)
    {
      hide SetParam, FilterParam, Decimal, SortText;
      search := if selected != [] then [Param(T("select"), selected)] else [];
      ghost var start := search;
      for i := 0 to |filters|
        invariant search == start + FilterParams(filters[..i])
      {
        assert FilterParams(filters[..i + 1]) == FilterParams(filters[..i]) + [FilterParam(filters[i])];
        search := search + [FilterParam(filters[i])];
      }
      assert filters[..|filters|] == filters;
      if rowLimit.Some? { search := SetParam(search, T("limit"), Decimal(rowLimit.value)); }
      if rowOffset.Some? { search := SetParam(search, T("offset"), Decimal(rowOffset.value)); }
      if orderBy.Some? { search := SetParam(search, T("order"), SortText(orderBy.value)); }
    }
  }

  function Search(filters: seq<SentFilter>, selected: Text, limit: Option<nat>, offset: Option<nat>, order: Option<Sort>): seq<Param> {
    var a := (if selected != [] then [Param(T("select"), selected)] else []) + FilterParams(filters);
    var b := if limit.Some? then SetParam(a, T("limit"), Decimal(limit.value)) else a;
    var c := if offset.Some? then SetParam(b, T("offset"), Decimal(offset.value)) else b;
    if order.Some? then SetParam(c, T("order"), SortText(order.value)) else c
  }

  /** Inside a function the runtime writes a list with String(), without parentheses. */
  function RpcText(v: Sent): Text {
    match v
    case Scalar(t) => t
    case Items(items) => Join(items, COMMA)
  }

  function AssignFilters(query: Query, fs: seq<SentFilter>): Query
    decreases |fs|
  {
    if |fs| == 0 then query
    else
      var f := fs[0];
      AssignFilters(Assign(query, f.field, OperatorName(f.operator) + [DOT] + RpcText(f.value)), fs[1..])
  }

  /** The query object before the filters: columns or '*', a limit other than zero, an order with a field. */
  function RpcHead(selected: Text, limit: Option<nat>, order: Option<Sort>): Query {
    [Entry(T("select"), One(if selected == [] then [U('*')] else selected))]
    + (if limit.Some? && limit.value != 0 then [Entry(T("limit"), One(Decimal(limit.value)))] else [])
    + (if order.Some? && order.value.field != [] then [Entry(T("order"), One(SortText(order.value)))] else [])
  }

  function RpcQuery(filters: seq<SentFilter>, selected: Text, limit: Option<nat>, order: Option<Sort>): Query {
    AssignFilters(RpcHead(selected, limit, order), filters)
  }

  /** The runtime's select call: the object is filled property by property. */
  method BuildRpcQuery(filters: seq<SentFilter>, selected: Text, limit: Option<nat>, order: Option<Sort>) returns (query: Query)
    ensures query == RpcQuery(filters, selected, limit, order)
  {
    hide Assign, OperatorName, RpcText, RpcHead;
    query := RpcHead(selected, limit, order);
    assert filters[0..] == filters;
    for i := 0 to |filters|
      invariant AssignFilters(query, filters[i..]) == RpcQuery(filters, selected, limit, order)
    {
      var f := filters[i];
      assert filters[i..][0] == f && filters[i..][1..] == filters[i + 1..];
      query := Assign(query, f.field, OperatorName(f.operator) + [DOT] + RpcText(f.value));
    }
  }

  // ------------------------------------------------------- single filters

  predicate PlainName(t: Text) { forall i :: 0 <= i < |t| ==> U('a') <= t[i] <= U('z') || t[i] == U('_') }

  lemma PlainLiteral(s: string)
    requires forall i :: 0 <= i < |s| ==> 'a' <= s[i] <= 'z' || s[i] == '_'
    ensures PlainName(T(s))
  {
  }

  lemma NamesArePlain(op: Operator)
    ensures PlainName(OperatorName(op))
  {
    hide PlainName, T;
    match op
    case Eq => PlainLiteral("eq");
    case Neq => PlainLiteral("neq");
    case Gt => PlainLiteral("gt");
    case Gte => PlainLiteral("gte");
    case Lt => PlainLiteral("lt");
    case Lte => PlainLiteral("lte");
    case Like => PlainLiteral("like");
    case Ilike => PlainLiteral("ilike");
    case In => PlainLiteral("in");
    case Is => PlainLiteral("is");
    case IsNull => PlainLiteral("isnull");
    case Contains => PlainLiteral("contains");
    case StartsWith => PlainLiteral("starts_with");
    case EndsWith => PlainLiteral("ends_with");
  }

  lemma NameIsPlain(op: Operator)
    ensures Lower(OperatorName(op)) == OperatorName(op) && Free(OperatorName(op), DOT)
  {
    hide OperatorName;
    NamesArePlain(op);
  }

  lemma {:induction false} FirstNamedIs(ops: seq<Operator>, op: Operator)
    requires op in ops
    ensures FirstNamed(ops, OperatorName(op)) == Some(op)
  {
    NamesDiffer();
    hide OperatorName;
    if ops[0] != op {
      assert op in ops[1..];
      FirstNamedIs(ops[1..], op);
    }
  }

  lemma NamesRoundTrip(op: Operator)
    ensures OperatorOf(Lower(OperatorName(op))) == Some(op) && Free(OperatorName(op), DOT)
  {
    hide OperatorName, Lower;
    NameIsPlain(op);
    assert op in OPERATORS;
    FirstNamedIs(OPERATORS, op);
  }

  lemma NamesDiffer()
    ensures forall a, b :: OperatorName(a) == OperatorName(b) ==> a == b
  {
    forall a, b | OperatorName(a) == OperatorName(b) ensures a == b {
      var x, y := OperatorName(a), OperatorName(b);
      assert |x| == |y|;
      if |x| > 0 { assert x[0] == y[0]; }
      if |x| > 1 { assert x[1] == y[1]; }
      if |x| > 2 { assert x[2] == y[2]; }
    }
  }

  /** Whatever is sent for an operator, dots included, reaches its value reader whole. */
  lemma FilterReaches(field: Text, op: Operator, raw: Text)
    ensures ParseFilterValue(field, OperatorName(op) + [DOT] + raw) == Filter(field, op, ValueOf(op, raw))
  {
    NamesRoundTrip(op);
    var name := OperatorName(op);
    var val := name + [DOT] + raw;
    hide OperatorName, OperatorOf, ValueOf, Lower;
    assert forall k :: 0 <= k < |name| ==> val[k] == name[k];
    assert val[|name|] == DOT;
    assert IndexOf(val, DOT) == |name|;
    assert val[..|name|] == name && val[|name| + 1..] == raw;
  }

  /** Number(value) of a filter value, as a comparison uses it. */
  function Compared(v: Value): Num {
    match v
    case NumberV(x) => x
    case TextV(t) => Number(t)
    case _ => NaN
  }

  /**
   * A comparison means the number that was sent exactly when the text is a
   * numeral between blanks, begins with none, or begins with one that is zero.
   */
  lemma ComparisonMeansNumberExactlyWhen(raw: Text)
    ensures Compared(Numeric(raw)) == Number(raw) <==>
      var l := Scan(TrimStart(raw));
      IsNumeral(Trim(raw)) || l == None || ZeroLiteral(l.value)
  {
    FloatOrTextExactlyWhen(raw);
    hide ParseFloat, Number, Scan, Trim, TrimStart, ZeroLiteral, IsNumeral;
  }

  /** The text of every finite number is compared as that number. */
  lemma NumbersAreComparedAsSent(f: Figure)
    ensures Compared(Numeric(FigureText(f))) == Number(FigureText(f)) == Finite(FigureValue(f))
  {
    FigureReads(f);
    ComparisonMeansNumberExactlyWhen(FigureText(f));
    hide ParseFloat, Number, Scan, FigureText, FigureValue;
  }

  /** "12abc" is compared as 12, which is not the number it means: none. */
  lemma TextAfterNumeralIsDropped()
    ensures Compared(Numeric(T("12abc"))) == Finite(12.0) && Number(T("12abc")) == NaN
  {
    var t := T("12abc");
    var l := Literal(Bare, Digits([U('1'), U('2')], false, [], NoExponent));
    assert t[0] == U('1') && t[1] == U('2') && t[2] == U('a') && t[3] == U('b') && t[4] == U('c');
    assert TrimStart(t) == t && Trim(t) == t;
    assert INFINITY[0] == U('I');
    assert DigitsEnd(t) == 2;
    assert t[..2] == [U('1'), U('2')] && t[2..][0] == t[2] && t[2..][0..] == t[2..];
    assert ScanExponent(t[2..]) == NoExponent;
    assert Scan(t) == Some(l);
    TwelveIs();
  }

  lemma TwelveIs()
    ensures LiteralValue(Literal(Bare, Digits([U('1'), U('2')], false, [], NoExponent))) == Finite(12.0)
    ensures Written(Literal(Bare, Digits([U('1'), U('2')], false, [], NoExponent))) == [U('1'), U('2')]
  {
    var d: Text := [U('1'), U('2')];
    assert d[..1] == [U('1')] && [U('1')][..0] == [];
    assert d + [] == d;
  }

  function Count(t: Text, c: CodeUnit): nat { if |t| == 0 then 0 else (if t[0] == c then 1 else 0) + Count(t[1..], c) }

  lemma {:induction false} CountConcat(a: Text, b: Text, c: CodeUnit)
    ensures Count(a + b, c) == Count(a, c) + Count(b, c)
  {
    if |a| == 0 {
      assert a + b == b;
    } else {
      assert (a + b)[1..] == a[1..] + b;
      CountConcat(a[1..], b, c);
    }
  }

  lemma {:induction false} CountFree(t: Text, c: CodeUnit)
    ensures Count(t, c) == 0 <==> Free(t, c)
  {
    if |t| > 0 {
      CountFree(t[1..], c);
      if t[0] != c && Free(t[1..], c) {
        forall i | 0 <= i < |t| ensures t[i] != c { if i > 0 { assert t[i] == t[1..][i - 1]; } }
      }
      if Free(t, c) { forall i | 0 <= i < |t[1..]| ensures t[1..][i] != c { assert t[1..][i] == t[i + 1]; } }
    }
  }

  lemma {:induction false} SplitSize(t: Text, sep: CodeUnit)
    ensures |Split(t, sep)| == Count(t, sep) + 1
    decreases |t|
  {
    var i := IndexOf(t, sep);
    if i == |t| {
      CountFree(t, sep);
    } else {
      SplitSize(t[i + 1..], sep);
      assert t == t[..i] + ([sep] + t[i + 1..]);
      CountConcat(t[..i], [sep] + t[i + 1..], sep);
      CountConcat([sep], t[i + 1..], sep);
      CountFree(t[..i], sep);
      assert [sep][1..] == [];
      assert Count([sep], sep) == 1;
    }
  }

  function TotalCount(items: seq<Text>, c: CodeUnit): nat { if |items| == 0 then 0 else Count(items[0], c) + TotalCount(items[1..], c) }

  lemma {:induction false} JoinCount(items: seq<Text>, sep: CodeUnit)
    requires |items| > 0
    ensures Count(Join(items, sep), sep) == TotalCount(items, sep) + |items| - 1
  {
    if |items| > 1 {
      JoinCount(items[1..], sep);
      CountConcat(items[0], [sep] + Join(items[1..], sep), sep);
      CountConcat([sep], Join(items[1..], sep), sep);
      assert [sep][1..] == [];
      assert Count([sep], sep) == 1;
    } else {
      assert TotalCount(items[1..], sep) == 0;
    }
  }

  lemma {:induction false} NoneCounted(items: seq<Text>, c: CodeUnit)
    ensures TotalCount(items, c) == 0 <==> forall i :: 0 <= i < |items| ==> Free(items[i], c)
  {
    if |items| > 0 {
      NoneCounted(items[1..], c);
      CountFree(items[0], c);
      assert forall i :: 0 < i < |items| ==> items[i] == items[1..][i - 1];
    }
  }

  function Length(items: seq<Text>): nat { if |items| == 0 then 0 else |items[0]| + Length(items[1..]) }

  lemma {:induction false} JoinLength(items: seq<Text>, sep: CodeUnit)
    requires |items| > 0
    ensures |Join(items, sep)| == Length(items) + |items| - 1
  {
    if |items| > 1 { JoinLength(items[1..], sep); } else { assert Length(items[1..]) == 0; }
  }

  lemma {:induction false} SplitLength(t: Text, sep: CodeUnit)
    ensures Length(Split(t, sep)) + |Split(t, sep)| - 1 == |t|
    decreases |t|
  {
    var i := IndexOf(t, sep);
    if i == |t| {
      assert Split(t, sep)[1..] == [];
      assert Length([t]) == |t| + Length([]);
    } else {
      SplitLength(t[i + 1..], sep);
      assert Split(t, sep)[1..] == Split(t[i + 1..], sep);
    }
  }

  lemma {:induction false} TrimStartShortens(t: Text)
    ensures |TrimStart(t)| <= |t|
  {
    if |t| > 0 { TrimStartShortens(t[1..]); }
  }

  lemma {:induction false} TrimEndShortens(t: Text)
    ensures |TrimEnd(t)| <= |t|
  {
    if |t| > 0 { TrimEndShortens(t[..|t| - 1]); }
  }

  lemma {:induction false} TrimAllShortens(ts: seq<Text>)
    ensures Length(TrimAll(ts)) <= Length(ts)
  {
    if |ts| > 0 {
      TrimStartShortens(ts[0]);
      TrimEndShortens(TrimStart(ts[0]));
      assert TrimAll(ts)[1..] == TrimAll(ts[1..]);
      TrimAllShortens(ts[1..]);
    }
  }

  /** Splitting a joined list recovers it exactly when there is one, and no item has a comma or a space at an edge. */
  lemma SplitRecoversExactlyWhen(items: seq<Text>)
    ensures TrimAll(Split(Join(items, COMMA), COMMA)) == items <==>
      |items| > 0 && forall i :: 0 <= i < |items| ==> Free(items[i], COMMA) && Trim(items[i]) == items[i]
  {
    var parts := Split(Join(items, COMMA), COMMA);
    hide Split, Join, Trim, Count, TotalCount, Free;
    SplitSize(Join(items, COMMA), COMMA);
    if |items| > 0 {
      JoinCount(items, COMMA);
      NoneCounted(items, COMMA);
      if forall i :: 0 <= i < |items| ==> Free(items[i], COMMA) {
        SplitJoin(items, COMMA);
        if TrimAll(parts) == items {
          forall i | 0 <= i < |items| ensures Trim(items[i]) == items[i] { assert TrimAll(parts)[i] == Trim(parts[i]); }
        }
      } else {
        assert |TrimAll(parts)| != |items|;
      }
    } else {
      assert |TrimAll(parts)| >= 1;
    }
  }

  /** A list is recovered exactly when it is not empty and no item has a comma or a space at an edge. */
  lemma ListRecoveredExactlyWhen(items: seq<Text>)
    ensures ValueOf(In, EncodeFilter(Items(items))) == ListV(items) <==>
      |items| > 0 && forall i :: 0 <= i < |items| ==> Free(items[i], COMMA) && Trim(items[i]) == items[i]
  {
    var joined := Join(items, COMMA);
    var raw := [OPEN] + joined + [CLOSE];
    assert raw[1..] == joined + [CLOSE] && (joined + [CLOSE])[..|joined|] == joined;
    assert StripParens(raw) == joined;
    hide Split, Join, Trim, Free;
    SplitRecoversExactlyWhen(items);
  }

  /** Without the parentheses a list must in addition not begin with "(" or end with ")". */
  lemma RpcListRecoveredExactlyWhen(items: seq<Text>)
    ensures ValueOf(In, RpcText(Items(items))) == ListV(items) <==>
      && |items| > 0 && (forall i :: 0 <= i < |items| ==> Free(items[i], COMMA) && Trim(items[i]) == items[i])
      && StripParens(Join(items, COMMA)) == Join(items, COMMA)
  {
    var joined, stripped := Join(items, COMMA), StripParens(Join(items, COMMA));
    SplitRecoversExactlyWhen(items);
    hide Split, Join, Trim, Free;
    if stripped != joined {
      assert |stripped| < |joined|;
      var parts := Split(stripped, COMMA);
      SplitLength(stripped, COMMA);
      TrimAllShortens(parts);
      if |items| > 0 { JoinLength(items, COMMA); }
      assert TrimAll(parts) != items;
    }
  }
}
