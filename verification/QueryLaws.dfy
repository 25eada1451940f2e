/**
 * A query built by the client or inside a function is the query the server
 * parses, except for repeated names; and select lists are taken apart into
 * their parts.
 */
module QueryLaws {
  import opened Outcome
  import opened JsText
  import opened QueryParams

  // ------------------------------------------------------ gathering names

  function KeyCount(params: seq<Param>, key: Text): nat {
    if |params| == 0 then 0 else (if params[0].key == key then 1 else 0) + KeyCount(params[1..], key)
  }

  /** The entries of part whose name occurs once in all, as properties of the query object. */
  function OnceIn(part: seq<Param>, all: seq<Param>): Query {
    if |part| == 0 then []
    else (if KeyCount(all, part[0].key) == 1 then [Entry(part[0].key, One(part[0].value))] else []) + OnceIn(part[1..], all)
  }

  lemma {:induction false} ValuesCount(params: seq<Param>, key: Text)
    ensures |Values(params, key)| == KeyCount(params, key)
  {
    if |params| > 0 { ValuesCount(params[1..], key); }
  }

  lemma {:induction false} CountConcat(a: seq<Param>, b: seq<Param>, key: Text)
    ensures KeyCount(a + b, key) == KeyCount(a, key) + KeyCount(b, key)
  {
    if |a| == 0 {
      assert a + b == b;
    } else {
      assert (a + b)[1..] == a[1..] + b;
      CountConcat(a[1..], b, key);
    }
  }

  lemma {:induction false} CountIn(params: seq<Param>, i: nat)
    requires i < |params|
    ensures KeyCount(params, params[i].key) >= 1
  {
    if i > 0 { CountIn(params[1..], i - 1); }
  }

  lemma {:induction false} CountWithout(params: seq<Param>, key: Text, other: Text)
    ensures KeyCount(WithoutKey(params, key), other) == if other == key then 0 else KeyCount(params, other)
  {
    if |params| > 0 {
      CountWithout(params[1..], key, other);
      var rest := WithoutKey(params[1..], key);
      assert ([params[0]] + rest)[1..] == rest;
      assert [] + rest == rest;
    }
  }

  lemma {:induction false} ValuesWithout(params: seq<Param>, key: Text, other: Text)
    ensures Values(WithoutKey(params, key), other) == if other == key then [] else Values(params, other)
  {
    if |params| > 0 {
      ValuesWithout(params[1..], key, other);
      var rest := WithoutKey(params[1..], key);
      assert ([params[0]] + rest)[1..] == rest;
      assert [] + rest == rest;
    }
  }

  /** Taking a name away takes exactly its entries away: they were repeated, given one more in front. */
  lemma {:induction false} OnceWithout(part: seq<Param>, all: seq<Param>, p: Param)
    requires forall i :: 0 <= i < |part| ==> KeyCount(all, part[i].key) >= 1
    ensures OnceIn(WithoutKey(part, p.key), WithoutKey(all, p.key)) == OnceIn(part, [p] + all)
  {
    if |part| > 0 {
      hide KeyCount;
      assert forall i :: 0 <= i < |part[1..]| ==> part[1..][i] == part[i + 1];
      OnceWithout(part[1..], all, p);
      CountWithout(all, p.key, part[0].key);
      CountHead(p, all, part[0].key);
      var rest := WithoutKey(part[1..], p.key);
      assert ([part[0]] + rest)[1..] == rest;
      assert [] + rest == rest;
      assert KeyCount(all, part[0].key) >= 1;
    }
  }

  lemma CountHead(p: Param, all: seq<Param>, key: Text)
    ensures KeyCount([p] + all, key) == (if p.key == key then 1 else 0) + KeyCount(all, key)
  {
    assert ([p] + all)[1..] == all;
  }

  lemma ValuesHead(params: seq<Param>)
    requires |params| > 0
    ensures Values(params, params[0].key) == [params[0].value] + Values(params[1..], params[0].key)
  {
  }

  lemma GatheredUnfold(params: seq<Param>)
    requires |params| > 0
    ensures var k := params[0].key;
      Gathered(params) == [Entry(k, GivenOf(Values(params, k)))] + Gathered(WithoutKey(params[1..], k))
  {
    hide Values, GivenOf, WithoutKey;
  }

  lemma LookupHead(e: Entry, rest: Query, key: Text)
    ensures Lookup([e] + rest, key) == if e.key == key then Some(e.value) else Lookup(rest, key)
  {
    assert ([e] + rest)[1..] == rest;
  }

  lemma NothingGathered(key: Text)
    ensures Lookup(Gathered([]), key) == None && KeyCount([], key) == 0
  {
  }

  lemma KeyUnfold(params: seq<Param>, key: Text)
    requires |params| > 0
    ensures KeyCount(params, key) == (if params[0].key == key then 1 else 0) + KeyCount(params[1..], key)
    ensures Values(params, key) == (if params[0].key == key then [params[0].value] else []) + Values(params[1..], key)
  {
  }

  /** A property of the query object is the one value of its name, or all of them. */
  lemma {:induction false} GatheredLookup(params: seq<Param>, key: Text)
    ensures Lookup(Gathered(params), key) == if KeyCount(params, key) == 0 then None else Some(GivenOf(Values(params, key)))
    decreases |params|
  {
    hide *;
    if |params| == 0 {
      NothingGathered(key);
    } else {
      var k := params[0].key;
      var rest := WithoutKey(params[1..], k);
      WithoutKeyShortens(params[1..], k);
      GatheredUnfold(params);
      GatheredLookup(rest, key);
      CountWithout(params[1..], k, key);
      ValuesWithout(params[1..], k, key);
      KeyUnfold(params, key);
      LookupHead(Entry(k, GivenOf(Values(params, k))), Gathered(rest), key);
      assert [] + Values(params[1..], key) == Values(params[1..], key);
    }
  }

  lemma ManyIgnored(e: Entry, columns: set<Text>)
    requires e.value.Many?
    ensures FilterOf(e, columns) == [] && OrsOf(e, columns) == []
  {
  }

  lemma {:induction false} FiltersConcat(a: Query, b: Query, columns: set<Text>)
    ensures ParseFilters(a + b, columns) == ParseFilters(a, columns) + ParseFilters(b, columns)
  {
    hide FilterOf;
    if |a| == 0 {
      assert a + b == b;
    } else {
      assert (a + b)[1..] == a[1..] + b;
      FiltersConcat(a[1..], b, columns);
    }
  }

  lemma {:induction false} OrsConcat(a: Query, b: Query, columns: set<Text>)
    ensures ParseOrs(a + b, columns) == ParseOrs(a, columns) + ParseOrs(b, columns)
  {
    hide OrsOf;
    if |a| == 0 {
      assert a + b == b;
    } else {
      assert (a + b)[1..] == a[1..] + b;
      OrsConcat(a[1..], b, columns);
    }
  }

  lemma ParseConcat(a: Query, b: Query, columns: set<Text>)
    ensures ParseFilters(a + b, columns) == ParseFilters(a, columns) + ParseFilters(b, columns)
    ensures ParseOrs(a + b, columns) == ParseOrs(a, columns) + ParseOrs(b, columns)
  {
    hide *;
    FiltersConcat(a, b, columns);
    OrsConcat(a, b, columns);
  }

  lemma ParseOne(e: Entry, columns: set<Text>)
    ensures ParseFilters([e], columns) == FilterOf(e, columns) && ParseOrs([e], columns) == OrsOf(e, columns)
  {
    hide FilterOf, OrsOf;
    assert [e][1..] == [];
    assert ParseFilters([], columns) == [] && ParseOrs([], columns) == [];
  }

  lemma OnceUnfold(params: seq<Param>)
    requires |params| > 0
    ensures OnceIn(params, params) ==
      (if KeyCount(params[1..], params[0].key) == 0 then [Entry(params[0].key, One(params[0].value))] else [])
      + OnceIn(WithoutKey(params[1..], params[0].key), WithoutKey(params[1..], params[0].key))
  {
    var rest := params[1..];
    forall i | 0 <= i < |rest| ensures KeyCount(rest, rest[i].key) >= 1 { CountIn(rest, i); }
    OnceWithout(rest, rest, params[0]);
    assert [params[0]] + rest == params;
  }

  /** Of a query string the filters with a name of their own are parsed, and the repeated ones are not. */
  lemma {:induction false} GatheredFilters(params: seq<Param>, columns: set<Text>)
    ensures ParseFilters(Gathered(params), columns) == ParseFilters(OnceIn(params, params), columns)
    ensures ParseOrs(Gathered(params), columns) == ParseOrs(OnceIn(params, params), columns)
    decreases |params|
  {
    if |params| > 0 {
      var k := params[0].key;
      var rest := WithoutKey(params[1..], k);
      WithoutKeyShortens(params[1..], k);
      GatheredFilters(rest, columns);
      GatheredUnfold(params);
      OnceUnfold(params);
      ValuesHead(params);
      ValuesCount(params[1..], k);
      hide Gathered, OnceIn, FilterOf, OrsOf, ParseFilters, ParseOrs, Values, KeyCount, WithoutKey;
      var e := Entry(k, GivenOf(Values(params, k)));
      ParseConcat([e], Gathered(rest), columns);
      ParseOne(e, columns);
      if KeyCount(params[1..], k) == 0 {
        ParseConcat([e], OnceIn(rest, rest), columns);
        assert e == Entry(k, One(params[0].value));
      } else {
        ManyIgnored(e, columns);
        assert [] + OnceIn(rest, rest) == OnceIn(rest, rest);
      }
    }
  }

  // ---------------------------------------------------- the query survives

  /** A column that can be filtered on: known to the server and not one of the words with a meaning of their own. */
  predicate Filterable(field: Text, columns: set<Text>) { Lower(field) in columns && !Reserved(field) && field != T("or") }

  /** What the server is meant to make of a filter. */
  function Received(f: SentFilter): Filter {
    Filter(f.field, f.operator, ValueOf(f.operator, EncodeFilter(f.value)))
  }

  lemma ReservedWords()
    ensures Reserved(T("select")) && Reserved(T("limit")) && Reserved(T("offset")) && Reserved(T("order"))
    ensures T("select") != T("limit") && T("select") != T("offset") && T("select") != T("order")
    ensures T("limit") != T("offset") && T("limit") != T("order") && T("offset") != T("order")
    ensures T("select") != T("or") && T("limit") != T("or") && T("offset") != T("or") && T("order") != T("or")
  {
    assert T("limit")[0] == U('l') && T("offset")[0] == U('o') && T("order")[0] == U('o') && T("select")[0] == U('s');
    assert |T("limit")| == 5 && |T("offset")| == 6 && |T("order")| == 5 && |T("select")| == 6 && |T("or")| == 2;
  }

  function ReceivedAll(fs: seq<SentFilter>): seq<Filter> { seq(|fs|, i requires 0 <= i < |fs| => Received(fs[i])) }

  function FieldCount(fs: seq<SentFilter>, field: Text): nat {
    if |fs| == 0 then 0 else (if fs[0].field == field then 1 else 0) + FieldCount(fs[1..], field)
  }

  /** The filters of part whose field has one filter in all. */
  function AloneIn(part: seq<SentFilter>, all: seq<SentFilter>): seq<SentFilter> {
    if |part| == 0 then [] else (if FieldCount(all, part[0].field) == 1 then [part[0]] else []) + AloneIn(part[1..], all)
  }

  predicate FieldsDistinct(fs: seq<SentFilter>) { forall i, j :: 0 <= i < j < |fs| ==> fs[i].field != fs[j].field }

  lemma ReceivedConcat(a: seq<SentFilter>, b: seq<SentFilter>)
    ensures ReceivedAll(a + b) == ReceivedAll(a) + ReceivedAll(b)
  {
    hide Received;
  }

  lemma FilterEntry(f: SentFilter, columns: set<Text>)
    requires Filterable(f.field, columns)
    ensures FilterOf(Entry(f.field, One(FilterParam(f).value)), columns) == [Received(f)]
    ensures OrsOf(Entry(f.field, One(FilterParam(f).value)), columns) == []
  {
    FilterReaches(f.field, f.operator, EncodeFilter(f.value));
    hide ParseFilterValue, ParseOrParts, Reserved, Lower, Split, Trim, StripParens, ValueOf, EncodeFilter, OperatorName, T;
  }

  lemma FilterParamsUnfold(fs: seq<SentFilter>)
    ensures |fs| > 0 ==> FilterParams(fs) == [FilterParam(fs[0])] + FilterParams(fs[1..]) && FilterParams(fs)[1..] == FilterParams(fs[1..])
  {
  }

  lemma {:induction false} FilterKeys(fs: seq<SentFilter>, key: Text)
    ensures KeyCount(FilterParams(fs), key) == FieldCount(fs, key)
  {
    if |fs| > 0 {
      FilterParamsUnfold(fs);
      FilterKeys(fs[1..], key);
      hide FilterParams, FilterParam;
      assert FilterParam(fs[0]).key == fs[0].field by { ParamKey(fs[0]); }
    }
  }

  lemma ParamKey(f: SentFilter)
    ensures FilterParam(f).key == f.field
  {
  }

  /** The filters among the entries of a query string whose other names are reserved ones. */
  lemma {:induction false} FiltersReach(part: seq<SentFilter>, fs: seq<SentFilter>, all: seq<Param>, columns: set<Text>)
    requires forall i :: 0 <= i < |part| ==> Filterable(part[i].field, columns)
    requires forall i :: 0 <= i < |part| ==> KeyCount(all, part[i].field) == FieldCount(fs, part[i].field)
    ensures ParseFilters(OnceIn(FilterParams(part), all), columns) == ReceivedAll(AloneIn(part, fs))
    ensures ParseOrs(OnceIn(FilterParams(part), all), columns) == []
  {
    if |part| > 0 {
      hide Filterable, FilterOf, OrsOf, ParseFilters, ParseOrs, FilterParam, FilterParams, Received, ReceivedAll, KeyCount, FieldCount;
      FilterParamsUnfold(part);
      ParamKey(part[0]);
      assert forall i :: 0 <= i < |part[1..]| ==> part[1..][i] == part[i + 1];
      FiltersReach(part[1..], fs, all, columns);
      var e := Entry(part[0].field, One(FilterParam(part[0]).value));
      var rest := OnceIn(FilterParams(part[1..]), all);
      ParseConcat([e], rest, columns);
      ParseOne(e, columns);
      FilterEntry(part[0], columns);
      ReceivedConcat([part[0]], AloneIn(part[1..], fs));
      ReceivedOne(part[0]);
      assert [] + rest == rest && [] + AloneIn(part[1..], fs) == AloneIn(part[1..], fs);
    } else {
      assert FilterParams(part) == [];
    }
  }

  lemma ReceivedOne(f: SentFilter)
    ensures ReceivedAll([f]) == [Received(f)]
  {
    hide Received;
  }

  /** Reserved entries add no filters. */
  lemma {:induction false} ReservedAddNothing(part: seq<Param>, all: seq<Param>, columns: set<Text>)
    requires forall i :: 0 <= i < |part| ==> Reserved(part[i].key)
    ensures ParseFilters(OnceIn(part, all), columns) == [] && ParseOrs(OnceIn(part, all), columns) == []
  {
    if |part| > 0 {
      assert forall i :: 0 <= i < |part[1..]| ==> part[1..][i] == part[i + 1];
      ReservedAddNothing(part[1..], all, columns);
      var e := Entry(part[0].key, One(part[0].value));
      var rest := OnceIn(part[1..], all);
      ReservedAlone(e, columns);
      hide FilterOf, OrsOf, ParseFilters, ParseOrs, KeyCount, Reserved;
      ParseConcat([e], rest, columns);
      ParseOne(e, columns);
      assert [] + rest == rest;
    }
  }

  lemma ReservedAlone(e: Entry, columns: set<Text>)
    requires Reserved(e.key)
    ensures FilterOf(e, columns) == [] && OrsOf(e, columns) == []
  {
    OrIsNotReserved();
    hide ParseFilterValue, ParseOrParts, Lower, Reserved, T;
  }

  lemma OnceStep(part: seq<Param>, all: seq<Param>)
    requires |part| > 0
    ensures OnceIn(part, all) == OnceIn(part[..1], all) + OnceIn(part[1..], all)
  {
    hide KeyCount;
    assert part[..1][1..] == [] && OnceIn([], all) == [];
  }

  lemma {:induction false} OnceConcat(a: seq<Param>, b: seq<Param>, all: seq<Param>)
    ensures OnceIn(a + b, all) == OnceIn(a, all) + OnceIn(b, all)
  {
    if |a| == 0 {
      assert a + b == b;
      assert [] + OnceIn(b, all) == OnceIn(b, all);
    } else {
      hide KeyCount, OnceIn;
      assert (a + b)[1..] == a[1..] + b && (a + b)[..1] == a[..1];
      OnceStep(a, all);
      OnceStep(a + b, all);
      OnceConcat(a[1..], b, all);
      AppendAssoc(OnceIn(a[..1], all), OnceIn(a[1..], all), OnceIn(b, all));
    }
  }

  lemma {:induction false} SetAppends(params: seq<Param>, key: Text, value: Text)
    requires KeyCount(params, key) == 0
    ensures SetParam(params, key, value) == params + [Param(key, value)]
  {
    if |params| > 0 { SetAppends(params[1..], key, value); }
  }

  /** The entries before and after the filters. */
  function HeadParams(selected: Text): seq<Param> { if selected != [] then [Param(T("select"), selected)] else [] }

  function TailParams(limit: Option<nat>, offset: Option<nat>, order: Option<Sort>): seq<Param> {
    (if limit.Some? then [Param(T("limit"), Decimal(limit.value))] else [])
    + (if offset.Some? then [Param(T("offset"), Decimal(offset.value))] else [])
    + (if order.Some? then [Param(T("order"), SortText(order.value))] else [])
  }

  lemma {:induction false} NoReservedField(fs: seq<SentFilter>, key: Text, columns: set<Text>)
    requires Reserved(key) && forall i :: 0 <= i < |fs| ==> Filterable(fs[i].field, columns)
    ensures FieldCount(fs, key) == 0
  {
    if |fs| > 0 {
      assert Filterable(fs[0].field, columns);
      assert forall i :: 0 <= i < |fs[1..]| ==> fs[1..][i] == fs[i + 1];
      hide Reserved;
      NoReservedField(fs[1..], key, columns);
    }
  }

  lemma OneKey(p: Param, key: Text)
    ensures KeyCount([p], key) == (if p.key == key then 1 else 0) && Values([p], key) == if p.key == key then [p.value] else []
    ensures KeyCount([], key) == 0 && Values([], key) == []
  {
    assert [p][1..] == [];
  }

  lemma SetMore(params: seq<Param>, present: bool, key: Text, value: Text)
    requires KeyCount(params, key) == 0
    ensures (if present then SetParam(params, key, value) else params) == params + if present then [Param(key, value)] else []
    ensures forall other :: other != key ==>
      KeyCount(params + (if present then [Param(key, value)] else []), other) == KeyCount(params, other)
  {
    hide SetParam, KeyCount;
    SetAppends(params, key, value);
    var more := if present then [Param(key, value)] else [];
    forall other | other != key ensures KeyCount(params + more, other) == KeyCount(params, other) {
      CountConcat(params, more, other);
      OneKey(Param(key, value), other);
    }
    assert params + [] == params;
  }

  /** The client's query string as the filters between its other entries. */
  lemma SearchIs(filters: seq<SentFilter>, selected: Text, limit: Option<nat>, offset: Option<nat>, order: Option<Sort>, columns: set<Text>)
    requires forall i :: 0 <= i < |filters| ==> Filterable(filters[i].field, columns)
    ensures Search(filters, selected, limit, offset, order)
      == HeadParams(selected) + FilterParams(filters) + TailParams(limit, offset, order)
  {
    hide SetParam, FilterParams, SortText, Decimal, KeyCount, Reserved, T, Filterable;
    ReservedWords();
    var a := HeadParams(selected) + FilterParams(filters);
    forall key | Reserved(key) && key != T("select") ensures KeyCount(a, key) == 0 {
      CountConcat(HeadParams(selected), FilterParams(filters), key);
      OneKey(Param(T("select"), selected), key);
      FilterKeys(filters, key);
      NoReservedField(filters, key, columns);
    }
    var lv := if limit.Some? then Decimal(limit.value) else [];
    var ov := if offset.Some? then Decimal(offset.value) else [];
    var sv := if order.Some? then SortText(order.value) else [];
    SetMore(a, limit.Some?, T("limit"), lv);
    var b := a + if limit.Some? then [Param(T("limit"), lv)] else [];
    SetMore(b, offset.Some?, T("offset"), ov);
    var c := b + if offset.Some? then [Param(T("offset"), ov)] else [];
    SetMore(c, order.Some?, T("order"), sv);
    TailGrouping(a, limit, offset, order);
  }

  lemma TailGrouping(a: seq<Param>, limit: Option<nat>, offset: Option<nat>, order: Option<Sort>)
    ensures a + TailParams(limit, offset, order) ==
      a + (if limit.Some? then [Param(T("limit"), Decimal(limit.value))] else [])
      + (if offset.Some? then [Param(T("offset"), Decimal(offset.value))] else [])
      + (if order.Some? then [Param(T("order"), SortText(order.value))] else [])
  {
    hide SortText, Decimal, T;
  }

  /** A sort field that has no separator inside and no space in front. */
  predicate Sortable(field: Text) { |field| > 0 && !IsSpace(field[0]) && Free(field, COMMA) && Free(field, DOT) }

  lemma Directions(descending: bool)
    ensures var d := if descending then T("desc") else T("asc");
      |d| >= 3 && Free(d, DOT) && Free(d, COMMA) && !IsSpace(d[|d| - 1]) && (Lower(d) == T("desc") <==> descending)
  {
    assert |Lower(T("asc"))| == 3 && |T("desc")| == 4;
    assert Lower(T("desc")) == T("desc");
  }

  lemma TrimKeeps(t: Text)
    requires |t| > 0 && !IsSpace(t[0]) && !IsSpace(t[|t| - 1])
    ensures Trim(t) == t
  {
  }

  lemma SortReaches(s: Sort, columns: set<Text>)
    requires Sortable(s.field) && Lower(s.field) in columns
    ensures SortText(s) != [] && ParseSorts(Split(SortText(s), COMMA), columns) == [s]
  {
    var d := if s.descending then T("desc") else T("asc");
    var t := SortText(s);
    Directions(s.descending);
    hide Lower, T, Split, IsSpace, Trim;
    var parts := [s.field, d];
    assert parts[1..] == [d];
    assert Join(parts, DOT) == s.field + ([DOT] + d) == t;
    SplitJoin(parts, DOT);
    assert t[0] == s.field[0] && t[|t| - 1] == d[|d| - 1];
    TrimKeeps(t);
    assert Free(t, COMMA) by {
      forall i | 0 <= i < |t| ensures t[i] != COMMA {
        if i < |s.field| { assert t[i] == s.field[i]; } else if i > |s.field| { assert t[i] == d[i - |s.field| - 1]; }
      }
    }
    assert Join([t], COMMA) == t;
    SplitJoin([t], COMMA);
    assert [t][1..] == [];
    assert ParseSorts([], columns) == [];
  }

  lemma DecimalReads(n: nat)
    ensures ParseInt(Decimal(n)) == Some(n)
  {
    var t := Decimal(n);
    DecimalRoundTrip(n);
    assert IsDigit(t[0]);
    assert TrimStart(t) == t;
    SpanIs(t, 0, |t|, (c: CodeUnit) => IsDigit(c));
    assert t[..|t|] == t;
  }

  /** What the server makes of a paging entry of the query object. */
  lemma TailLookup(limit: Option<nat>, offset: Option<nat>, order: Option<Sort>, key: Text)
    requires key == T("limit") || key == T("offset") || key == T("order")
    ensures Values(TailParams(limit, offset, order), key) ==
      if key == T("limit") then (if limit.Some? then [Decimal(limit.value)] else [])
      else if key == T("offset") then (if offset.Some? then [Decimal(offset.value)] else [])
      else if order.Some? then [SortText(order.value)] else []
  {
    hide Values, Decimal, SortText, T, Reserved;
    ReservedWords();
    var a := if limit.Some? then [Param(T("limit"), Decimal(limit.value))] else [];
    var b := if offset.Some? then [Param(T("offset"), Decimal(offset.value))] else [];
    var c := if order.Some? then [Param(T("order"), SortText(order.value))] else [];
    ValuesConcat(a + b, c, key);
    ValuesConcat(a, b, key);
    if limit.Some? { OneKey(a[0], key); } else { OneKey(Param([], []), key); }
    if offset.Some? { OneKey(b[0], key); } else { OneKey(Param([], []), key); }
    if order.Some? { OneKey(c[0], key); } else { OneKey(Param([], []), key); }
  }

  lemma {:induction false} ValuesConcat(a: seq<Param>, b: seq<Param>, key: Text)
    ensures Values(a + b, key) == Values(a, key) + Values(b, key)
  {
    hide *;
    if |a| == 0 {
      assert a + b == b;
      OneKey(Param([], []), key);
      assert Values(a, key) == [];
      assert [] + Values(b, key) == Values(b, key);
    } else {
      assert (a + b)[1..] == a[1..] + b;
      ValuesConcat(a[1..], b, key);
      KeyUnfold(a, key);
      KeyUnfold(a + b, key);
      AppendAssoc(if a[0].key == key then [a[0].value] else [], Values(a[1..], key), Values(b, key));
    }
  }

  lemma PagingReaches(filters: seq<SentFilter>, selected: Text, limit: Option<nat>, offset: Option<nat>, order: Option<Sort>,
                      columns: set<Text>, key: Text)
    requires forall i :: 0 <= i < |filters| ==> Filterable(filters[i].field, columns)
    requires key == T("limit") || key == T("offset") || key == T("order")
    ensures var found := Lookup(Gathered(Search(filters, selected, limit, offset, order)), key);
      && (key == T("limit") ==> found == if limit.Some? then Some(One(Decimal(limit.value))) else None)
      && (key == T("offset") ==> found == if offset.Some? then Some(One(Decimal(offset.value))) else None)
      && (key == T("order") ==> found == if order.Some? then Some(One(SortText(order.value))) else None)
  {
    hide Values, Decimal, SortText, T, Reserved, Search, Gathered, Lookup, HeadParams, TailParams, FilterParams, KeyCount, Filterable;
    ReservedWords();
    SearchIs(filters, selected, limit, offset, order, columns);
    var h, m, t := HeadParams(selected), FilterParams(filters), TailParams(limit, offset, order);
    GatheredLookup(h + m + t, key);
    ValuesCount(h + m + t, key);
    ValuesConcat(h + m, t, key);
    ValuesConcat(h, m, key);
    FilterKeys(filters, key);
    NoReservedField(filters, key, columns);
    ValuesCount(m, key);
    NoSelectKey(selected, key);
    TailLookup(limit, offset, order, key);
  }

  lemma NoSelectKey(selected: Text, key: Text)
    requires key != T("select")
    ensures Values(HeadParams(selected), key) == [] && KeyCount(HeadParams(selected), key) == 0
  {
    hide T;
    OneKey(Param(T("select"), selected), key);
  }

  lemma TailIsReserved(limit: Option<nat>, offset: Option<nat>, order: Option<Sort>)
    ensures forall i :: 0 <= i < |TailParams(limit, offset, order)| ==> Reserved(TailParams(limit, offset, order)[i].key)
  {
    ReservedWords();
    hide T, Decimal, SortText, Reserved;
  }

  lemma {:induction false} ReservedNotCounted(part: seq<Param>, key: Text)
    requires !Reserved(key) && forall i :: 0 <= i < |part| ==> Reserved(part[i].key)
    ensures KeyCount(part, key) == 0
  {
    if |part| > 0 {
      hide Reserved;
      assert forall i :: 0 <= i < |part[1..]| ==> part[1..][i] == part[i + 1];
      ReservedNotCounted(part[1..], key);
    }
  }

  /** Every filter that shares its field with no other is received, in order. */
  lemma SearchFiltersReach(filters: seq<SentFilter>, selected: Text, limit: Option<nat>, offset: Option<nat>, order: Option<Sort>,
                           columns: set<Text>)
    requires forall i :: 0 <= i < |filters| ==> Filterable(filters[i].field, columns)
    ensures var q := Gathered(Search(filters, selected, limit, offset, order));
      ParseFilters(q, columns) == ReceivedAll(AloneIn(filters, filters)) && ParseOrs(q, columns) == []
  {
    ReservedWords();
    hide *;
    SearchIs(filters, selected, limit, offset, order, columns);
    var h, m, t := HeadParams(selected), FilterParams(filters), TailParams(limit, offset, order);
    var all := h + m + t;
    GatheredFilters(all, columns);
    HeadIsReserved(selected);
    TailIsReserved(limit, offset, order);
    forall i | 0 <= i < |filters| ensures KeyCount(all, filters[i].field) == FieldCount(filters, filters[i].field) {
      var field := filters[i].field;
      NotReserved(field, columns);
      ReservedNotCounted(h, field);
      ReservedNotCounted(t, field);
      CountConcat(h + m, t, field);
      CountConcat(h, m, field);
      FilterKeys(filters, field);
    }
    FiltersReach(filters, filters, all, columns);
    ReservedAddNothing(h, all, columns);
    ReservedAddNothing(t, all, columns);
    OnceConcat(h + m, t, all);
    OnceConcat(h, m, all);
    ParseConcat(OnceIn(h, all) + OnceIn(m, all), OnceIn(t, all), columns);
    ParseConcat(OnceIn(h, all), OnceIn(m, all), columns);
    var fs := ReceivedAll(AloneIn(filters, filters));
    assert [] + fs + [] == fs;
  }

  lemma NotReserved(field: Text, columns: set<Text>)
    requires Filterable(field, columns)
    ensures !Reserved(field)
  {
  }

  lemma HeadIsReserved(selected: Text)
    ensures forall i :: 0 <= i < |HeadParams(selected)| ==> Reserved(HeadParams(selected)[i].key)
  {
    ReservedWords();
    hide T, Reserved;
  }

  /** The part of a query that the server clamps. */
  function Clamped(limit: Option<nat>): nat { if limit == None || limit.value == 0 then 50 else if limit.value > 1000 then 1000 else limit.value }

  /** The client's query and what the server parses out of it, part by part. */
  lemma {:induction false} QueryReaches(filters: seq<SentFilter>, selected: Text, limit: Option<nat>, offset: Option<nat>, order: Option<Sort>,
                     columns: set<Text>)
    requires forall i :: 0 <= i < |filters| ==> Filterable(filters[i].field, columns)
    requires order.Some? ==> Sortable(order.value.field) && Lower(order.value.field) in columns
    ensures var r := ParseQuery(Gathered(Search(filters, selected, limit, offset, order)), columns);
      && r.filters == ReceivedAll(AloneIn(filters, filters))
      && r.orFilters == [] && r.sorts == (if order.Some? then [order.value] else [])
      && r.limit == Clamped(limit) && r.offset == GetOr(offset, 0)
  {
    hide *;
    var q := Gathered(Search(filters, selected, limit, offset, order));
    SearchFiltersReach(filters, selected, limit, offset, order, columns);
    PagingReaches(filters, selected, limit, offset, order, columns, T("limit"));
    PagingReaches(filters, selected, limit, offset, order, columns, T("offset"));
    PagingReaches(filters, selected, limit, offset, order, columns, T("order"));
    if order.Some? { SortReaches(order.value, columns); }
    ParsedIs(q, columns);
    LimitReads(limit);
    OffsetReads(offset);
    ShownIs(Lookup(q, T("limit")));
    ShownIs(Lookup(q, T("offset")));
  }

  lemma ShownIs(g: Option<Given>)
    ensures g == None ==> Shown(g) == None
    ensures g.Some? && g.value.One? ==> Shown(g) == Some(g.value.t)
  {
  }

  lemma ParsedIs(query: Query, columns: set<Text>)
    ensures var r := ParseQuery(query, columns);
      var order := Lookup(query, T("order"));
      && r.filters == ParseFilters(query, columns) && r.orFilters == ParseOrs(query, columns)
      && (order == None ==> r.sorts == [])
      && (order.Some? && order.value.One? && order.value.t != [] ==> r.sorts == ParseSorts(Split(order.value.t, COMMA), columns))
      && r.limit == Limit(Shown(Lookup(query, T("limit")))) && r.offset == Offset(Shown(Lookup(query, T("offset"))))
  {
    hide ParseFilters, ParseOrs, ParseSorts, Split, Limit, Offset, Lookup, Shown;
  }

  lemma LimitReads(limit: Option<nat>)
    ensures Limit(if limit.Some? then Some(Decimal(limit.value)) else None) ==
      Clamped(limit)
  {
    if limit.Some? { DecimalReads(limit.value); }
    hide ParseInt, Decimal;
  }

  lemma OffsetReads(offset: Option<nat>)
    ensures Offset(if offset.Some? then Some(Decimal(offset.value)) else None) == GetOr(offset, 0)
  {
    if offset.Some? { DecimalReads(offset.value); }
    hide ParseInt, Decimal;
  }

  lemma {:induction false} AllAlone(part: seq<SentFilter>, all: seq<SentFilter>)
    ensures |AloneIn(part, all)| <= |part|
    ensures AloneIn(part, all) == part <==> forall i :: 0 <= i < |part| ==> FieldCount(all, part[i].field) == 1
    ensures |AloneIn(part, all)| == |part| ==> AloneIn(part, all) == part
  {
    if |part| > 0 {
      hide FieldCount;
      AllAlone(part[1..], all);
      assert forall i :: 0 < i < |part| ==> part[i] == part[1..][i - 1];
      assert part == [part[0]] + part[1..];
      if AloneIn(part, all) == part {
        forall i | 0 <= i < |part| ensures FieldCount(all, part[i].field) == 1 {
          if i > 0 { assert part[1..][i - 1] == part[i]; }
        }
      }
    }
  }

  lemma {:induction false} FieldCounted(fs: seq<SentFilter>, i: nat)
    requires i < |fs|
    ensures FieldCount(fs, fs[i].field) >= 1
    ensures FieldCount(fs, fs[i].field) == 1 <==> forall j :: 0 <= j < |fs| && j != i ==> fs[j].field != fs[i].field
  {
    if i > 0 {
      FieldCounted(fs[1..], i - 1);
      assert forall j :: 0 < j < |fs| ==> fs[j] == fs[1..][j - 1];
      if fs[0].field != fs[i].field && FieldCount(fs, fs[i].field) == 1 {
        forall j | 0 <= j < |fs| && j != i ensures fs[j].field != fs[i].field { if j > 0 { assert fs[1..][j - 1] == fs[j]; } }
      }
      if forall j :: 0 <= j < |fs| && j != i ==> fs[j].field != fs[i].field {
        forall j | 0 <= j < |fs[1..]| && j != i - 1 ensures fs[1..][j].field != fs[i].field { assert fs[1..][j] == fs[j + 1]; }
      }
    } else {
      NoOther(fs[1..], fs[0].field);
      assert forall j :: 0 < j < |fs| ==> fs[j] == fs[1..][j - 1];
    }
  }

  lemma {:induction false} NoOther(fs: seq<SentFilter>, field: Text)
    ensures FieldCount(fs, field) == 0 <==> forall j :: 0 <= j < |fs| ==> fs[j].field != field
  {
    if |fs| > 0 {
      NoOther(fs[1..], field);
      assert forall j :: 0 < j < |fs| ==> fs[j] == fs[1..][j - 1];
      if forall j :: 0 <= j < |fs| ==> fs[j].field != field {
        forall j | 0 <= j < |fs[1..]| ensures fs[1..][j].field != field { assert fs[1..][j] == fs[j + 1]; }
      }
    }
  }

  /** All filters of a query string arrive exactly when no two of them are on one field. */
  lemma FiltersArriveExactlyWhen(filters: seq<SentFilter>, selected: Text, limit: Option<nat>, offset: Option<nat>,
                                 order: Option<Sort>, columns: set<Text>)
    requires forall i :: 0 <= i < |filters| ==> Filterable(filters[i].field, columns)
    ensures ParseQuery(Gathered(Search(filters, selected, limit, offset, order)), columns).filters == ReceivedAll(filters) <==>
      FieldsDistinct(filters)
  {
    hide *;
    SearchFiltersReach(filters, selected, limit, offset, order, columns);
    ParsedIs(Gathered(Search(filters, selected, limit, offset, order)), columns);
    AllAlone(filters, filters);
    ReceivedSize(filters);
    ReceivedSize(AloneIn(filters, filters));
    DistinctMeans(filters);
  }

  lemma ReceivedSize(fs: seq<SentFilter>)
    ensures |ReceivedAll(fs)| == |fs|
  {
  }

  lemma DistinctMeans(fs: seq<SentFilter>)
    ensures FieldsDistinct(fs) <==> forall i :: 0 <= i < |fs| ==> FieldCount(fs, fs[i].field) == 1
  {
    hide FieldCount;
    forall i | 0 <= i < |fs|
      ensures FieldCount(fs, fs[i].field) == 1 <==> forall j :: 0 <= j < |fs| && j != i ==> fs[j].field != fs[i].field
    {
      FieldCounted(fs, i);
    }
  }

  // ------------------------------------------- queries inside a function

  /** Putting a filter into the object: the earlier one on its field is lost, its place stays. */
  function Replace(done: seq<SentFilter>, f: SentFilter): seq<SentFilter> {
    if |done| == 0 then [f]
    else if done[0].field == f.field then [f] + done[1..]
    else [done[0]] + Replace(done[1..], f)
  }

  function Latest(done: seq<SentFilter>, fs: seq<SentFilter>): seq<SentFilter>
    decreases |fs|
  {
    if |fs| == 0 then done else Latest(Replace(done, fs[0]), fs[1..])
  }

  function RpcEntry(f: SentFilter): Entry { Entry(f.field, One(OperatorName(f.operator) + [DOT] + RpcText(f.value))) }

  function RpcEntries(fs: seq<SentFilter>): Query { seq(|fs|, i requires 0 <= i < |fs| => RpcEntry(fs[i])) }

  function RpcReceived(f: SentFilter): Filter { Filter(f.field, f.operator, ValueOf(f.operator, RpcText(f.value))) }

  function RpcReceivedAll(fs: seq<SentFilter>): seq<Filter> { seq(|fs|, i requires 0 <= i < |fs| => RpcReceived(fs[i])) }

  lemma EntriesUnfold(fs: seq<SentFilter>)
    requires |fs| > 0
    ensures RpcEntries(fs) == [RpcEntry(fs[0])] + RpcEntries(fs[1..])
    ensures RpcReceivedAll(fs) == [RpcReceived(fs[0])] + RpcReceivedAll(fs[1..])
  {
  }

  lemma EntryKey(f: SentFilter)
    ensures RpcEntry(f).key == f.field
  {
  }

  lemma EntriesPrepend(f: SentFilter, rest: seq<SentFilter>)
    ensures RpcEntries([f] + rest) == [RpcEntry(f)] + RpcEntries(rest)
  {
    EntriesUnfold([f] + rest);
    hide RpcEntry, RpcEntries;
    assert ([f] + rest)[1..] == rest;
  }

  lemma AssignUnfold(query: Query, key: Text, value: Text)
    ensures |query| == 0 ==> Assign(query, key, value) == [Entry(key, One(value))]
    ensures |query| > 0 && query[0].key == key ==> Assign(query, key, value) == [Entry(key, One(value))] + query[1..]
    ensures |query| > 0 && query[0].key != key ==> Assign(query, key, value) == [query[0]] + Assign(query[1..], key, value)
  {
  }

  lemma {:induction false} AssignReplaces(done: seq<SentFilter>, f: SentFilter)
    ensures Assign(RpcEntries(done), f.field, OperatorName(f.operator) + [DOT] + RpcText(f.value)) == RpcEntries(Replace(done, f))
  {
    var value := OperatorName(f.operator) + [DOT] + RpcText(f.value);
    assert RpcEntry(f) == Entry(f.field, One(value));
    hide OperatorName, RpcText, RpcEntry, RpcEntries, Assign;
    AssignUnfold(RpcEntries(done), f.field, value);
    if |done| == 0 {
      NoEntries();
      EntriesPrepend(f, []);
      assert [f] + [] == [f] && [RpcEntry(f)] + [] == [RpcEntry(f)];
    } else {
      EntriesUnfold(done);
      EntryKey(done[0]);
      assert RpcEntries(done)[1..] == RpcEntries(done[1..]);
      if done[0].field == f.field {
        EntriesPrepend(f, done[1..]);
      } else {
        AssignReplaces(done[1..], f);
        EntriesPrepend(done[0], Replace(done[1..], f));
      }
    }
  }

  lemma NoEntries()
    ensures RpcEntries([]) == [] && RpcReceivedAll([]) == []
  {
  }

  lemma {:induction false} AssignAfter(head: Query, query: Query, key: Text, value: Text)
    requires forall i :: 0 <= i < |head| ==> head[i].key != key
    ensures Assign(head + query, key, value) == head + Assign(query, key, value)
  {
    hide Assign;
    if |head| == 0 {
      assert head + query == query && head + Assign(query, key, value) == Assign(query, key, value);
    } else {
      assert forall i :: 0 <= i < |head[1..]| ==> head[1..][i] == head[i + 1];
      AssignAfter(head[1..], query, key, value);
      AssignUnfold(head + query, key, value);
      assert (head + query)[1..] == head[1..] + query;
      assert head == [head[0]] + head[1..];
      AppendAssoc([head[0]], head[1..], Assign(query, key, value));
    }
  }

  lemma {:induction false} FiltersAssigned(head: Query, done: seq<SentFilter>, fs: seq<SentFilter>, columns: set<Text>)
    requires forall i :: 0 <= i < |head| ==> Reserved(head[i].key)
    requires forall i :: 0 <= i < |fs| ==> Filterable(fs[i].field, columns)
    ensures AssignFilters(head + RpcEntries(done), fs) == head + RpcEntries(Latest(done, fs))
    decreases |fs|
  {
    if |fs| > 0 {
      var f := fs[0];
      NotReserved(f.field, columns);
      hide Reserved, Filterable, Assign, RpcEntries, RpcText, OperatorName, Replace;
      AssignAfter(head, RpcEntries(done), f.field, OperatorName(f.operator) + [DOT] + RpcText(f.value));
      AssignReplaces(done, f);
      assert forall i :: 0 <= i < |fs[1..]| ==> fs[1..][i] == fs[i + 1];
      FiltersAssigned(head, Replace(done, f), fs[1..], columns);
    }
  }

  lemma {:induction false} RpcFiltersParse(fs: seq<SentFilter>, columns: set<Text>)
    requires forall i :: 0 <= i < |fs| ==> Filterable(fs[i].field, columns)
    ensures ParseFilters(RpcEntries(fs), columns) == RpcReceivedAll(fs) && ParseOrs(RpcEntries(fs), columns) == []
    ensures forall key :: Reserved(key) ==> Lookup(RpcEntries(fs), key) == None
  {
    if |fs| == 0 {
      NoEntries();
    } else {
      EntriesUnfold(fs);
      EntryKey(fs[0]);
      NotReserved(fs[0].field, columns);
      RpcEntryParses(fs[0], columns);
      assert forall i :: 0 <= i < |fs[1..]| ==> fs[1..][i] == fs[i + 1];
      RpcFiltersParse(fs[1..], columns);
      hide Reserved, Filterable, ParseFilters, ParseOrs, FilterOf, OrsOf, RpcEntry, RpcEntries, RpcReceived, RpcReceivedAll, Lookup;
      ParseConcat([RpcEntry(fs[0])], RpcEntries(fs[1..]), columns);
      ParseOne(RpcEntry(fs[0]), columns);
      forall key | Reserved(key) ensures Lookup(RpcEntries(fs), key) == None {
        LookupHead(RpcEntry(fs[0]), RpcEntries(fs[1..]), key);
      }
    }
  }

  lemma RpcEntryParses(f: SentFilter, columns: set<Text>)
    requires Filterable(f.field, columns)
    ensures FilterOf(RpcEntry(f), columns) == [RpcReceived(f)] && OrsOf(RpcEntry(f), columns) == []
  {
    FilterReaches(f.field, f.operator, RpcText(f.value));
    hide ParseFilterValue, ParseOrParts, Reserved, Lower, Split, Trim, StripParens, ValueOf, RpcText, OperatorName, T;
  }

  predicate NoneOn(fs: seq<SentFilter>, field: Text) { forall f <- fs :: f.field != field }

  lemma DistinctUnfold(f: SentFilter, rest: seq<SentFilter>)
    ensures FieldsDistinct([f] + rest) <==> FieldsDistinct(rest) && NoneOn(rest, f.field)
  {
    var all := [f] + rest;
    if FieldsDistinct(all) {
      forall x | x in rest ensures x.field != f.field {
        var i :| 0 <= i < |rest| && rest[i] == x;
        assert all[0].field != all[i + 1].field;
      }
      forall i, j | 0 <= i < j < |rest| ensures rest[i].field != rest[j].field {
        assert all[i + 1].field != all[j + 1].field;
      }
    }
    if FieldsDistinct(rest) && NoneOn(rest, f.field) {
      forall i, j | 0 <= i < j < |all| ensures all[i].field != all[j].field {
        assert all[j] == rest[j - 1];
        assert rest[j - 1] in rest;
        if i > 0 { assert all[i] == rest[i - 1]; }
      }
    }
  }

  lemma {:induction false} ReplaceFacts(done: seq<SentFilter>, f: SentFilter)
    requires FieldsDistinct(done)
    ensures FieldsDistinct(Replace(done, f))
    ensures forall x :: x in Replace(done, f) <==> x == f || (x in done && x.field != f.field)
    ensures NoneOn(done, f.field) ==> Replace(done, f) == done + [f]
  {
    hide FieldsDistinct;
    if |done| == 0 {
      assert FieldsDistinct([f]) by { DistinctUnfold(f, []); assert [f] + [] == [f]; NoFields(); }
    } else {
      var rest := done[1..];
      assert done == [done[0]] + rest;
      DistinctUnfold(done[0], rest);
      if done[0].field == f.field {
        DistinctUnfold(f, rest);
      } else {
        ReplaceFacts(rest, f);
        DistinctUnfold(done[0], Replace(rest, f));
        AppendAssoc([done[0]], rest, [f]);
      }
    }
  }

  lemma NoFields()
    ensures FieldsDistinct([]) && forall field :: NoneOn([], field)
  {
  }

  /** f is the last filter on its field. */
  predicate LastOn(fs: seq<SentFilter>, f: SentFilter) {
    exists i :: 0 <= i < |fs| && fs[i] == f && forall j :: i < j < |fs| ==> fs[j].field != f.field
  }

  lemma LastUnfold(fs: seq<SentFilter>, f: SentFilter)
    requires |fs| > 0
    ensures LastOn(fs, f) <==> LastOn(fs[1..], f) || (fs[0] == f && NoneOn(fs[1..], f.field))
    ensures NoneOn(fs, f.field) <==> fs[0].field != f.field && NoneOn(fs[1..], f.field)
  {
    var rest := fs[1..];
    assert fs == [fs[0]] + rest;
    assert forall i :: 0 < i < |fs| ==> fs[i] == rest[i - 1];
    if LastOn(fs, f) {
      var i :| 0 <= i < |fs| && fs[i] == f && forall j :: i < j < |fs| ==> fs[j].field != f.field;
      forall j | i - 1 < j < |rest| ensures rest[j].field != f.field { assert fs[j + 1] == rest[j]; }
      if i > 0 { assert rest[i - 1] == f; }
    }
    if LastOn(rest, f) {
      var i :| 0 <= i < |rest| && rest[i] == f && forall j :: i < j < |rest| ==> rest[j].field != f.field;
      assert fs[i + 1] == f;
    }
  }

  lemma {:induction false} LatestFacts(done: seq<SentFilter>, fs: seq<SentFilter>, f: SentFilter)
    requires FieldsDistinct(done)
    ensures FieldsDistinct(Latest(done, fs))
    ensures f in Latest(done, fs) <==> LastOn(fs, f) || (f in done && NoneOn(fs, f.field))
    decreases |fs|
  {
    if |fs| > 0 {
      ReplaceFacts(done, fs[0]);
      LastUnfold(fs, f);
      hide FieldsDistinct, Replace, LastOn, NoneOn;
      LatestFacts(Replace(done, fs[0]), fs[1..], f);
    }
  }

  lemma {:induction false} LatestKeeps(done: seq<SentFilter>, fs: seq<SentFilter>)
    requires FieldsDistinct(done + fs)
    ensures Latest(done, fs) == done + fs
    decreases |fs|
  {
    if |fs| > 0 {
      assert done + [fs[0]] + fs[1..] == done + fs;
      DistinctPrefix(done, fs);
      ReplaceFacts(done, fs[0]);
      hide FieldsDistinct, Replace;
      LatestKeeps(done + [fs[0]], fs[1..]);
    } else {
      assert done + fs == done;
    }
  }

  lemma DistinctPrefix(done: seq<SentFilter>, fs: seq<SentFilter>)
    requires FieldsDistinct(done + fs) && |fs| > 0
    ensures FieldsDistinct(done) && NoneOn(done, fs[0].field)
  {
    var all := done + fs;
    assert forall i :: 0 <= i < |done| ==> all[i] == done[i];
    assert all[|done|] == fs[0];
  }

  lemma {:induction false} LatestFilterable(done: seq<SentFilter>, fs: seq<SentFilter>, columns: set<Text>)
    requires FieldsDistinct(done) && (forall f <- done :: Filterable(f.field, columns))
    requires forall i :: 0 <= i < |fs| ==> Filterable(fs[i].field, columns)
    ensures forall f <- Latest(done, fs) :: Filterable(f.field, columns)
    decreases |fs|
  {
    if |fs| > 0 {
      ReplaceFacts(done, fs[0]);
      hide FieldsDistinct, Replace, Filterable;
      assert forall i :: 0 <= i < |fs[1..]| ==> fs[1..][i] == fs[i + 1];
      LatestFilterable(Replace(done, fs[0]), fs[1..], columns);
    }
  }

  lemma RpcHeadFacts(selected: Text, limit: Option<nat>, order: Option<Sort>, columns: set<Text>)
    ensures var h := RpcHead(selected, limit, order);
      && (forall i :: 0 <= i < |h| ==> Reserved(h[i].key))
      && Lookup(h, T("limit")) == (if limit.Some? && limit.value != 0 then Some(One(Decimal(limit.value))) else None)
      && Lookup(h, T("offset")) == None
      && Lookup(h, T("order")) == (if order.Some? && order.value.field != [] then Some(One(SortText(order.value))) else None)
  {
    ReservedWords();
    hide T, Decimal, SortText, Reserved;
    var star := if selected == [] then [U('*')] else selected;
    var a: Query := [Entry(T("select"), One(star))];
    var b: Query := if limit.Some? && limit.value != 0 then [Entry(T("limit"), One(Decimal(limit.value)))] else [];
    var c: Query := if order.Some? && order.value.field != [] then [Entry(T("order"), One(SortText(order.value)))] else [];
    assert RpcHead(selected, limit, order) == a + (b + c);
    forall key ensures Lookup(a + (b + c), key) == if key == T("select") then Some(One(star)) else Lookup(b + c, key) {
      LookupHead(a[0], b + c, key);
    }
    forall key ensures Lookup(c, key) == if |c| > 0 && key == T("order") then Some(c[0].value) else None {
      assert Lookup([], key) == None;
      if |c| > 0 { LookupHead(c[0], [], key); assert [c[0]] + [] == c; }
    }
    forall key ensures Lookup(b + c, key) == if |b| > 0 && key == T("limit") then Some(b[0].value) else Lookup(c, key) {
      if |b| > 0 { LookupHead(b[0], c, key); assert [b[0]] + c == b + c; } else { assert b + c == c; }
    }
  }

  lemma {:induction false} LookupConcat(a: Query, b: Query, key: Text)
    ensures Lookup(a + b, key) == if Lookup(a, key).Some? then Lookup(a, key) else Lookup(b, key)
  {
    if |a| == 0 {
      assert a + b == b;
    } else {
      assert (a + b)[1..] == a[1..] + b;
      LookupConcat(a[1..], b, key);
    }
  }

  lemma {:induction false} ReservedEntries(query: Query, columns: set<Text>)
    requires forall i :: 0 <= i < |query| ==> Reserved(query[i].key)
    ensures ParseFilters(query, columns) == [] && ParseOrs(query, columns) == []
  {
    if |query| > 0 {
      ReservedAlone(query[0], columns);
      hide Reserved, FilterOf, OrsOf;
      assert forall i :: 0 <= i < |query[1..]| ==> query[1..][i] == query[i + 1];
      ReservedEntries(query[1..], columns);
    }
  }

  lemma LatestOf(fs: seq<SentFilter>, columns: set<Text>)
    requires forall i :: 0 <= i < |fs| ==> Filterable(fs[i].field, columns)
    ensures FieldsDistinct(Latest([], fs)) && forall i :: 0 <= i < |Latest([], fs)| ==> Filterable(Latest([], fs)[i].field, columns)
    ensures forall f :: f in Latest([], fs) <==> LastOn(fs, f)
  {
    hide Latest, Filterable, LastOn;
    LatestFilterable([], fs, columns);
    forall f ensures f in Latest([], fs) <==> LastOn(fs, f) { LatestFacts([], fs, f); }
    assert FieldsDistinct(Latest([], fs)) by { LatestFacts([], fs, SentFilter([], Eq, Scalar([]))); }
  }

  /** What the server parses out of the object a function's select call fills: of each field the last filter. */
  lemma {:induction false} RpcQueryReaches(filters: seq<SentFilter>, selected: Text, limit: Option<nat>, order: Option<Sort>, columns: set<Text>)
    requires forall i :: 0 <= i < |filters| ==> Filterable(filters[i].field, columns)
    requires order.Some? ==> Sortable(order.value.field) && Lower(order.value.field) in columns
    ensures var r := ParseQuery(RpcQuery(filters, selected, limit, order), columns);
      && r.filters == RpcReceivedAll(Latest([], filters)) && (forall f :: f in Latest([], filters) <==> LastOn(filters, f))
      && r.orFilters == [] && r.sorts == (if order.Some? then [order.value] else [])
      && r.limit == Clamped(limit) && r.offset == 0
  {
    if order.Some? { assert order.value.field != []; }
    assert Clamped(Some(0)) == Clamped(None) && RpcHead(selected, Some(0), order) == RpcHead(selected, None, order);
    assert RpcQuery(filters, selected, limit, order) == AssignFilters(RpcHead(selected, limit, order), filters);
    ReservedWords();
    hide *;
    var h, last := RpcHead(selected, limit, order), Latest([], filters);
    RpcHeadFacts(selected, limit, order, columns);
    NoEntries();
    assert h + [] == h;
    FiltersAssigned(h, [], filters, columns);
    LatestOf(filters, columns);
    RpcFiltersParse(last, columns);
    var q := h + RpcEntries(last);
    ReservedEntries(h, columns);
    ParseConcat(h, RpcEntries(last), columns);
    assert [] + RpcReceivedAll(last) == RpcReceivedAll(last);
    LookupConcat(h, RpcEntries(last), T("limit"));
    LookupConcat(h, RpcEntries(last), T("offset"));
    LookupConcat(h, RpcEntries(last), T("order"));
    if order.Some? { SortReaches(order.value, columns); }
    ParsedIs(q, columns);
    var sent := if limit == Some(0) then None else limit;
    LimitReads(sent);
    OffsetReads(None);
    ClampedZero();
    ShownIs(Lookup(q, T("limit")));
    ShownIs(Lookup(q, T("offset")));
  }

  lemma ClampedZero()
    ensures Clamped(Some(0)) == Clamped(None) && GetOr<nat>(None, 0) == 0
  {
  }

  /** All filters of a function's select call arrive exactly when no two of them are on one field. */
  lemma RpcFiltersArriveExactlyWhen(filters: seq<SentFilter>, selected: Text, limit: Option<nat>, order: Option<Sort>, columns: set<Text>)
    requires forall i :: 0 <= i < |filters| ==> Filterable(filters[i].field, columns)
    requires order.Some? ==> Sortable(order.value.field) && Lower(order.value.field) in columns
    ensures ParseQuery(RpcQuery(filters, selected, limit, order), columns).filters == RpcReceivedAll(filters) <==>
      FieldsDistinct(filters)
  {
    hide ParseQuery, RpcQuery, ValueOf, RpcText, Latest, LastOn, Filterable, Sortable, Lower;
    RpcQueryReaches(filters, selected, limit, order, columns);
    var last := Latest([], filters);
    LatestOf(filters, columns);
    if FieldsDistinct(filters) {
      assert [] + filters == filters;
      LatestKeeps([], filters);
    }
    if RpcReceivedAll(last) == RpcReceivedAll(filters) {
      assert |last| == |RpcReceivedAll(last)| == |filters|;
      forall i | 0 <= i < |filters| ensures filters[i].field == last[i].field {
        assert RpcReceivedAll(filters)[i] == RpcReceivedAll(last)[i];
      }
    }
  }

  /** A range on one field: the query string loses both its ends, the object of a function keeps the second. */
  lemma RangesAreLost(field: Text, low: Text, high: Text)
    ensures var range := [SentFilter(field, Gte, Scalar(low)), SentFilter(field, Lte, Scalar(high))];
      AloneIn(range, range) == [] && Latest([], range) == [range[1]]
  {
    var range := [SentFilter(field, Gte, Scalar(low)), SentFilter(field, Lte, Scalar(high))];
    assert range[1..] == [range[1]] && range[1..][1..] == [];
    assert FieldCount(range[1..], field) == 1;
    assert FieldCount(range, field) == 2;
    assert AloneIn(range[1..], range) == AloneIn([], range) == [];
    assert Replace([], range[0]) == [range[0]];
    assert Replace([range[0]], range[1]) == [range[1]] + [range[0]][1..] == [range[1]];
    assert Latest([], range) == Latest([range[0]], range[1..]) == Latest([range[1]], []);
  }

  // ---------------------------------------------------------- select lists

  /** Commas inside parentheses do not separate. */
  function SelectParts(raw: Text, i: nat, depth: int, current: Text): seq<Text>
    requires i <= |raw|
    decreases |raw| - i
  {
    if i == |raw| then Kept(current)
    else
      var c := raw[i];
      var d := if c == OPEN then depth + 1 else if c == CLOSE then depth - 1 else depth;
      if c == COMMA && d == 0 then Kept(current) + SelectParts(raw, i + 1, d, [])
      else SelectParts(raw, i + 1, d, current + [c])
  }

  function Kept(current: Text): seq<Text> { if Trim(current) == [] then [] else [Trim(current)] }

  method ParseSelectString(raw: Text) returns (results: seq<Text>)
    ensures results == SelectParts(raw, 0, 0, [])
  {
    hide Trim;
    results := [];
    var depth, current: Text := 0, [];
    for i := 0 to |raw|
      invariant results + SelectParts(raw, i, depth, current) == SelectParts(raw, 0, 0, [])
    {
      var c := raw[i];
      if c == OPEN { depth := depth + 1; }
      if c == CLOSE { depth := depth - 1; }
      if c == COMMA && depth == 0 {
        if Trim(current) != [] { results := results + [Trim(current)]; }
        current := [];
      } else {
        current := current + [c];
      }
    }
    if Trim(current) != [] { results := results + [Trim(current)]; }
  }

  /** The depth after a part, or None if a comma stands at depth zero inside it. */
  function DepthAfter(t: Text, depth: int): Option<int> {
    if |t| == 0 then Some(depth)
    else
      var d := if t[0] == OPEN then depth + 1 else if t[0] == CLOSE then depth - 1 else depth;
      if t[0] == COMMA && d == 0 then None else DepthAfter(t[1..], d)
  }

  predicate SelectPart(t: Text) { t != [] && Trim(t) == t && DepthAfter(t, 0) == Some(0) }

  lemma {:induction false} PartAccumulates(raw: Text, i: nat, t: Text, depth: int, current: Text)
    requires OnAt(raw, i, t) && DepthAfter(t, depth).Some?
    ensures SelectParts(raw, i, depth, current) == SelectParts(raw, i + |t|, DepthAfter(t, depth).value, current + t)
    decreases |t|
  {
    hide Kept;
    if |t| == 0 {
      assert current + t == current;
    } else {
      assert raw[i] == t[0];
      var d := if t[0] == OPEN then depth + 1 else if t[0] == CLOSE then depth - 1 else depth;
      PartAccumulates(raw, i + 1, t[1..], d, current + [t[0]]);
      assert current + [t[0]] + t[1..] == current + t;
    }
  }

  /** A select list of balanced parts is taken apart into exactly those parts. */
  lemma {:induction false} SelectRecovered(raw: Text, i: nat, parts: seq<Text>)
    requires |parts| > 0 && (forall k :: 0 <= k < |parts| ==> SelectPart(parts[k]))
    requires OnAt(raw, i, Join(parts, COMMA)) && i + |Join(parts, COMMA)| == |raw|
    ensures SelectParts(raw, i, 0, []) == parts
    decreases |parts|
  {
    hide Trim, OnAt;
    assert SelectPart(parts[0]);
    assert [] + parts[0] == parts[0];
    if |parts| == 1 {
      PartAccumulates(raw, i, parts[0], 0, []);
    } else {
      var rest := Join(parts[1..], COMMA);
      OnAtSplit(raw, i, parts[0], [COMMA] + rest);
      OnAtSplit(raw, i + |parts[0]|, [COMMA], rest);
      CommaAt(raw, i + |parts[0]|);
      PartAccumulates(raw, i, parts[0], 0, []);
      SelectRecovered(raw, i + |parts[0]| + 1, parts[1..]);
    }
  }

  lemma CommaAt(raw: Text, i: nat)
    requires OnAt(raw, i, [COMMA])
    ensures i < |raw| && raw[i] == COMMA
  {
  }
}
