/**
 * Printing and parsing undo each other: every printable document is read back
 * from any layout of its tokens, and everything the parser accepts is printable.
 */
module GraphqlRoundTrip {
  import opened Outcome
  import opened JsText
  import opened GraphqlLexer
  import opened GraphqlParser
  import opened GraphqlSyntax

  // ------------------------------------------------ parsing printed values

  lemma Single(ts: seq<Token>, i: nat, t: Token, rest: seq<Token>)
    requires OnAt(ts, i, [t] + rest)
    ensures i < |ts| && ts[i] == t && OnAt(ts, i + 1, rest)
  {
    OnAtSplit(ts, i, [t], rest);
    assert OnAt(ts, i, [t]);
  }

  lemma LiteralTexts()
    ensures T("true") != T("false") && T("true") != T("null") && T("false") != T("null")
    ensures T("$") != T("[") && T("$") != T("{") && T("[") != T("{") && T("]") != T("$") && T("]") != T("[") && T("]") != T("{")
    ensures T("query") != T("mutation") && T("query") != T("subscription") && T("mutation") != T("subscription")
    ensures T("}") != T(":") && T("(") != T(":") && T("(") != T("@") && T("{") != T(":") && T("{") != T("@") && T("{") != T("(")
    ensures T(")") != T("(") && T("}") != T("(") && T("}") != T("@") && T("}") != T("{") && T(")") != T("@")
  {
    assert T("true")[0] != T("null")[0];
    assert T("$")[0] != T("[")[0] && T("$")[0] != T("{")[0] && T("[")[0] != T("{")[0];
    assert T("]")[0] != T("$")[0] && T("]")[0] != T("[")[0] && T("]")[0] != T("{")[0];
    assert T("}")[0] != T(":")[0] && T("(")[0] != T(":")[0] && T("(")[0] != T("@")[0] && T("{")[0] != T(":")[0];
    assert T("{")[0] != T("@")[0] && T("{")[0] != T("(")[0] && T(")")[0] != T("(")[0] && T("}")[0] != T("(")[0];
    assert T("}")[0] != T("@")[0] && T("}")[0] != T("{")[0] && T(")")[0] != T("@")[0];
  }

  /** No name and no number reads as punctuation. */
  lemma WordsAreNotPunctuation(t: Text, c: char)
    requires IsPunct(U(c)) && (IsName(t) || IsNumber(t))
    ensures t != T([c])
  {
    if IsNumber(t) { NumberParts(t); }
    assert T([c])[0] == U(c);
  }

  lemma ScalarTokenText(s: Scalar, c: char)
    requires ScalarOk(s) && IsPunct(U(c)) && (s.Str? ==> s.text != T([c]))
    ensures ScalarToken(s).value != T([c])
  {
    if s.Int? { IntRoundTrip(s.value); }
    if s.Bool? { assert IsName(T("true")) && IsName(T("false")); }
    if s.Null? { assert IsName(T("null")); }
    if !s.Str? { WordsAreNotPunctuation(ScalarToken(s).value, c); }
  }

  lemma ScalarTokenReads(s: Scalar)
    requires ScalarOk(s)
    ensures ScalarOf(ScalarToken(s)) == Ok(s)
  {
    LiteralTexts();
    if s.Int? { IntRoundTrip(s.value); }
  }

  lemma ScalarReads(ts: seq<Token>, i: nat, s: Scalar, depth: nat)
    requires PrintableValue(Scalar(s), depth) && OnAt(ts, i, [ScalarToken(s)])
    ensures i <= |ts| && ParseValue(ts, i, depth) == Ok((Scalar(s), i + 1))
  {
    assert ts[i] == ScalarToken(s);
    ScalarTokenText(s, '$');
    ScalarTokenText(s, '[');
    ScalarTokenText(s, '{');
    assert T(['$']) == T("$") && T(['[']) == T("[") && T(['{']) == T("{");
    ScalarTokenReads(s);
  }

  lemma VariableReads(ts: seq<Token>, i: nat, name: Text, depth: nat)
    requires depth <= MAX_VALUE_DEPTH && OnAt(ts, i, [P("$"), N(name)])
    ensures i <= |ts| && ParseValue(ts, i, depth) == Ok((Variable(name), i + 2))
  {
    assert ts[i] == P("$") && ts[i + 1] == N(name);
  }

  lemma ListOpens(ts: seq<Token>, i: nat, depth: nat)
    requires i < |ts| && ts[i] == P("[") && depth <= MAX_VALUE_DEPTH
    ensures ParseValue(ts, i, depth) == ParseItems(ts, i + 1, depth, [])
  {
    LiteralTexts();
  }

  lemma ObjectOpens(ts: seq<Token>, i: nat, depth: nat)
    requires i < |ts| && ts[i] == P("{") && depth <= MAX_VALUE_DEPTH
    ensures ParseValue(ts, i, depth) == ParseMembers(ts, i + 1, depth, [])
  {
    LiteralTexts();
  }

  lemma FirstToken(v: Value, depth: nat)
    requires PrintableValue(v, depth) && !ClosesList(v)
    ensures |ValueTokens(v)| > 0 && ValueTokens(v)[0].value != T("]")
  {
    LiteralTexts();
    if v.Scalar? {
      ScalarTokenText(v.scalar, ']');
      assert T([']']) == T("]");
    }
  }

  lemma ItemsClose(ts: seq<Token>, i: nat, depth: nat, values: seq<Value>)
    requires i < |ts| && ts[i] == P("]")
    ensures ParseItems(ts, i, depth, values) == Ok((List(values), i + 1))
  {
  }

  lemma ItemsStep(ts: seq<Token>, i: nat, depth: nat, values: seq<Value>, v: Value, j: nat)
    requires i < |ts| && ts[i].value != T("]") && ParseValue(ts, i, depth + 1) == Ok((v, j))
    ensures ParseItems(ts, i, depth, values) == ParseItems(ts, j, depth, values + [v])
  {
  }

  lemma MembersClose(ts: seq<Token>, i: nat, depth: nat, members: Members)
    requires i < |ts| && ts[i] == P("}")
    ensures ParseMembers(ts, i, depth, members) == Ok((Object(members), i + 1))
  {
  }

  lemma NotProto(name: Text, c: char)
    requires IsName(name) && IsPunct(U(c))
    ensures name != T([c])
  {
    WordsAreNotPunctuation(name, c);
  }

  lemma MembersStep(ts: seq<Token>, i: nat, depth: nat, members: Members, key: Text, v: Value, j: nat)
    requires i + 2 <= |ts| && ts[i] == N(key) && ts[i + 1] == P(":") && IsName(key)
    requires ParseValue(ts, i + 2, depth + 1) == Ok((v, j))
    ensures ParseMembers(ts, i, depth, members) == ParseMembers(ts, j, depth, SetMember(members, key, v))
  {
    NotProto(key, '}');
    assert T(['}']) == T("}");
  }

  lemma {:induction false} SetNewMember(ms: Members, key: Text, v: Value)
    requires key != T("__proto__") && !HasKey(ms, key)
    ensures SetMember(ms, key, v) == ms + [Member(key, v)]
  {
    if |ms| > 0 {
      assert ms[0].key != key;
      assert forall k :: 0 <= k < |ms[1..]| ==> ms[1..][k] == ms[k + 1];
      SetNewMember(ms[1..], key, v);
      assert [ms[0]] + (ms[1..] + [Member(key, v)]) == ms + [Member(key, v)];
    }
  }

  lemma ItemsUnfold(values: seq<Value>, depth: nat)
    requires forall x <- values :: !ClosesList(x) && PrintableValue(x, depth)
    ensures |values| == 0 ==> ItemsTokens(values) == []
    ensures |values| > 0 ==>
      && ItemsTokens(values) == ValueTokens(values[0]) + ItemsTokens(values[1..])
      && !ClosesList(values[0]) && PrintableValue(values[0], depth)
      && forall x <- values[1..] :: !ClosesList(x) && PrintableValue(x, depth)
  {
  }

  ghost predicate MembersOk(ms: Members, depth: nat) {
    DistinctKeys(ms) && forall m <- ms :: IsName(m.key) && m.key != T("__proto__") && PrintableValue(m.value, depth)
  }

  lemma MembersUnfold(ms: Members, depth: nat)
    requires MembersOk(ms, depth)
    ensures |ms| == 0 ==> MembersTokens(ms) == []
    ensures |ms| > 0 ==>
      && MembersTokens(ms) == [N(ms[0].key), P(":")] + (ValueTokens(ms[0].value) + MembersTokens(ms[1..]))
      && IsName(ms[0].key) && ms[0].key != T("__proto__") && PrintableValue(ms[0].value, depth) && MembersOk(ms[1..], depth)
  {
  }

  lemma KeysStayDistinct(done: Members, ms: Members)
    requires |ms| > 0 && DistinctKeys(done + ms)
    ensures !HasKey(done, ms[0].key) && DistinctKeys(done + [ms[0]] + ms[1..]) && done + [ms[0]] + ms[1..] == done + ms
  {
    assert done + [ms[0]] + ms[1..] == done + ms;
    forall k | 0 <= k < |done| ensures done[k].key != ms[0].key {
      assert (done + ms)[k] == done[k] && (done + ms)[|done|] == ms[0];
    }
  }

  lemma ValueKinds(v: Value, depth: nat)
    requires PrintableValue(v, depth)
    ensures depth <= MAX_VALUE_DEPTH
    ensures v.Variable? ==> ValueTokens(v) == [P("$"), N(v.name)]
    ensures v.Scalar? ==> ValueTokens(v) == [ScalarToken(v.scalar)]
    ensures v.List? ==> ValueTokens(v) == [P("[")] + (ItemsTokens(v.values) + [P("]")])
    ensures v.List? ==> forall x <- v.values :: !ClosesList(x) && PrintableValue(x, depth + 1)
    ensures v.Object? ==> ValueTokens(v) == [P("{")] + (MembersTokens(v.members) + [P("}")]) && MembersOk(v.members, depth + 1)
  {
  }

  lemma {:induction false} ValueReads(ts: seq<Token>, i: nat, v: Value, depth: nat)
    requires PrintableValue(v, depth) && OnAt(ts, i, ValueTokens(v))
    ensures i <= |ts| && ParseValue(ts, i, depth) == Ok((v, i + |ValueTokens(v)|))
    decreases v, 0
  {
    hide *;
    ValueKinds(v, depth);
    match v
    case Variable(name) => VariableReads(ts, i, name, depth);
    case Scalar(s) => ScalarReads(ts, i, s, depth);
    case List(values) =>
      Single(ts, i, P("["), ItemsTokens(values) + [P("]")]);
      ItemsRead(ts, i + 1, [], values, depth);
      ListOpens(ts, i, depth);
      assert [] + values == values;
    case Object(members) =>
      Single(ts, i, P("{"), MembersTokens(members) + [P("}")]);
      NoKeysYet(members, depth + 1);
      MembersRead(ts, i + 1, [], members, depth);
      ObjectOpens(ts, i, depth);
      assert [] + members == members;
  }

  lemma NoKeysYet(members: Members, depth: nat)
    requires MembersOk(members, depth)
    ensures DistinctKeys([] + members)
  {
    assert [] + members == members;
  }

  lemma {:induction false} ItemsRead(ts: seq<Token>, i: nat, done: seq<Value>, values: seq<Value>, depth: nat)
    requires forall x <- values :: !ClosesList(x) && PrintableValue(x, depth + 1)
    requires OnAt(ts, i, ItemsTokens(values) + [P("]")])
    ensures i <= |ts| && ParseItems(ts, i, depth, done) == Ok((List(done + values), i + |ItemsTokens(values)| + 1))
    decreases values, 1
  {
    hide *;
    ItemsUnfold(values, depth + 1);
    if |values| == 0 {
      Single(ts, i, P("]"), []) by { assert [] + [P("]")] == [P("]")] + []; }
      ItemsClose(ts, i, depth, done);
      assert done + values == done;
    } else {
      var first, rest := ValueTokens(values[0]), ItemsTokens(values[1..]) + [P("]")];
      AppendAssoc(first, ItemsTokens(values[1..]), [P("]")]);
      OnAtSplit(ts, i, first, rest);
      ValueReads(ts, i, values[0], depth + 1);
      FirstToken(values[0], depth + 1);
      FirstAt(ts, i, first);
      ItemsRead(ts, i + |first|, done + [values[0]], values[1..], depth);
      ItemsStep(ts, i, depth, done, values[0], i + |first|);
      assert done + [values[0]] + values[1..] == done + values;
    }
  }

  lemma FirstAt(ts: seq<Token>, i: nat, part: seq<Token>)
    requires |part| > 0 && OnAt(ts, i, part)
    ensures i < |ts| && ts[i] == part[0]
  {
  }

  lemma PairAt(ts: seq<Token>, i: nat, a: Token, b: Token, rest: seq<Token>)
    requires OnAt(ts, i, [a, b] + rest)
    ensures i + 2 <= |ts| && ts[i] == a && ts[i + 1] == b && OnAt(ts, i + 2, rest)
  {
    OnAtSplit(ts, i, [a, b], rest);
    assert OnAt(ts, i, [a, b]);
  }

  lemma {:induction false} MembersRead(ts: seq<Token>, i: nat, done: Members, ms: Members, depth: nat)
    requires MembersOk(ms, depth + 1) && DistinctKeys(done + ms)
    requires OnAt(ts, i, MembersTokens(ms) + [P("}")])
    ensures i <= |ts| && ParseMembers(ts, i, depth, done) == Ok((Object(done + ms), i + |MembersTokens(ms)| + 1))
    decreases ms, 1
  {
    hide *;
    MembersUnfold(ms, depth + 1);
    if |ms| == 0 {
      Single(ts, i, P("}"), []) by { assert [] + [P("}")] == [P("}")] + []; }
      MembersClose(ts, i, depth, done);
      assert done + ms == done;
    } else {
      var value, rest := ValueTokens(ms[0].value), MembersTokens(ms[1..]);
      MemberLayout([N(ms[0].key), P(":")], value, rest, [P("}")]);
      PairAt(ts, i, N(ms[0].key), P(":"), value + (rest + [P("}")]));
      OnAtSplit(ts, i + 2, value, rest + [P("}")]);
      assert ms[0].value < ms[0];
      ValueReads(ts, i + 2, ms[0].value, depth + 1);
      MembersStep(ts, i, depth, done, ms[0].key, ms[0].value, i + 2 + |value|);
      KeysStayDistinct(done, ms);
      SetNewMember(done, ms[0].key, ms[0].value);
      MembersRead(ts, i + 2 + |value|, done + [ms[0]], ms[1..], depth);
    }
  }

  lemma MemberLayout<A>(a: seq<A>, b: seq<A>, c: seq<A>, d: seq<A>)
    ensures a + (b + c) + d == a + (b + (c + d))
  {
  }

  // --------------------------------------------- parsing printed documents

  lemma ArgumentsClose(ts: seq<Token>, i: nat, done: Members)
    requires i < |ts| && ts[i] == P(")")
    ensures ParseArgumentList(ts, i, done) == Ok((done, i + 1))
  {
  }

  lemma ArgumentsStep(ts: seq<Token>, i: nat, done: Members, key: Text, v: Value, j: nat)
    requires i + 2 <= |ts| && ts[i] == N(key) && ts[i + 1] == P(":") && IsName(key)
    requires !HasKey(done, key) && !Inherited(key)
    requires ParseValue(ts, i + 2, 0) == Ok((v, j))
    ensures ParseArgumentList(ts, i, done) == ParseArgumentList(ts, j, done + [Member(key, v)])
  {
    WordsAreNotPunctuation(key, ')');
    assert T([')']) == T(")");
  }

  lemma MembersTokensUnfold(ms: Members)
    ensures |ms| == 0 ==> MembersTokens(ms) == []
    ensures |ms| > 0 ==> MembersTokens(ms) == [N(ms[0].key), P(":")] + (ValueTokens(ms[0].value) + MembersTokens(ms[1..]))
  {
    hide T, N, P, ValueTokens;
  }

  lemma ArgumentsUnfold(ms: Members)
    requires PrintableArguments(ms) && |ms| > 0
    ensures IsName(ms[0].key) && !Inherited(ms[0].key) && PrintableValue(ms[0].value, 0) && PrintableArguments(ms[1..])
    ensures ms[0] == Member(ms[0].key, ms[0].value)
  {
    hide Inherited, IsName, PrintableValue;
  }

  lemma {:induction false} ArgumentListReads(ts: seq<Token>, i: nat, done: Members, ms: Members)
    requires PrintableArguments(ms) && DistinctKeys(done + ms)
    requires OnAt(ts, i, MembersTokens(ms) + [P(")")])
    ensures i <= |ts| && ParseArgumentList(ts, i, done) == Ok((done + ms, i + |MembersTokens(ms)| + 1))
    decreases |ms|
  {
    hide *;
    MembersTokensUnfold(ms);
    if |ms| == 0 {
      Single(ts, i, P(")"), []) by { assert [] + [P(")")] == [P(")")] + []; }
      ArgumentsClose(ts, i, done);
      assert done + ms == done;
    } else {
      var value, rest := ValueTokens(ms[0].value), MembersTokens(ms[1..]);
      ArgumentsUnfold(ms);
      MemberLayout([N(ms[0].key), P(":")], value, rest, [P(")")]);
      PairAt(ts, i, N(ms[0].key), P(":"), value + (rest + [P(")")]));
      OnAtSplit(ts, i + 2, value, rest + [P(")")]);
      ValueReads(ts, i + 2, ms[0].value, 0);
      KeysStayDistinct(done, ms);
      ArgumentsStep(ts, i, done, ms[0].key, ms[0].value, i + 2 + |value|);
      ArgumentListReads(ts, i + 2 + |value|, done + [ms[0]], ms[1..]);
    }
  }

  lemma ArgumentsOpen(ts: seq<Token>, i: nat)
    requires i < |ts| && ts[i] == P("(")
    ensures ParseArguments(ts, i) == ParseArgumentList(ts, i + 1, [])
  {
  }

  lemma OptionalArguments(ts: seq<Token>, i: nat)
    requires i <= |ts|
    ensures ParseOptionalArguments(ts, i) == if At(ts, i, T("(")) then ParseArguments(ts, i) else Ok(([], i))
  {
  }

  lemma ParensMean(arguments: Option<Members>)
    requires ArgumentsOk(arguments)
    ensures arguments.None? ==> ParenTokens(arguments) == [] && GivenArguments(arguments) == []
    ensures arguments.Some? ==>
      && ParenTokens(arguments) == [P("(")] + (MembersTokens(arguments.value) + [P(")")])
      && GivenArguments(arguments) == arguments.value == [] + arguments.value
      && PrintableArguments(arguments.value) && DistinctKeys([] + arguments.value)
  {
    hide Inherited, T, IsName, PrintableValue;
    if arguments.Some? { assert [] + arguments.value == arguments.value; }
  }

  lemma ParensRead(ts: seq<Token>, i: nat, arguments: Option<Members>)
    requires arguments.Some? && ArgumentsOk(arguments) && OnAt(ts, i, ParenTokens(arguments))
    ensures i < |ts| && ts[i] == P("(")
    ensures ParseArguments(ts, i) == Ok((GivenArguments(arguments), i + |ParenTokens(arguments)|))
  {
    hide *;
    ParensMean(arguments);
    Single(ts, i, P("("), MembersTokens(arguments.value) + [P(")")]);
    ArgumentListReads(ts, i + 1, [], arguments.value);
    ArgumentsOpen(ts, i);
  }

  lemma AtPunct(ts: seq<Token>, i: nat, punct: string)
    requires i < |ts| && ts[i] == P(punct)
    ensures At(ts, i, T(punct))
  {
  }

  lemma ArgumentsRead(ts: seq<Token>, i: nat, arguments: Option<Members>)
    requires i <= |ts| && ArgumentsOk(arguments) && OnAt(ts, i, ParenTokens(arguments))
    requires arguments.None? ==> !At(ts, i, T("("))
    ensures ParseOptionalArguments(ts, i) == Ok((GivenArguments(arguments), i + |ParenTokens(arguments)|))
  {
    hide *;
    ParensMean(arguments);
    OptionalArguments(ts, i);
    if arguments.Some? {
      ParensRead(ts, i, arguments);
      AtPunct(ts, i, "(");
    }
  }

  // ------------------------------------------------------------ directives

  lemma DirectiveIs(ts: seq<Token>, i: nat, name: Text)
    requires i + 2 <= |ts| && ts[i] == P("@") && ts[i + 1] == N(name)
    ensures !At(ts, i + 2, T("(")) ==> SkipDirective(ts, i) == Ok(i + 2)
    ensures At(ts, i + 2, T("(")) && ParseArguments(ts, i + 2).Ok? ==> SkipDirective(ts, i) == Ok(ParseArguments(ts, i + 2).value.1)
  {
  }

  lemma DirectiveReads(ts: seq<Token>, i: nat, d: Directive)
    requires ArgumentsOk(d.arguments) && OnAt(ts, i, DirectiveTokens(d))
    requires !At(ts, i + |DirectiveTokens(d)|, T("("))
    ensures i < |ts| && ts[i] == P("@") && SkipDirective(ts, i) == Ok(i + |DirectiveTokens(d)|)
  {
    hide *;
    DirectiveMeans(d);
    PairAt(ts, i, P("@"), N(d.name), ParenTokens(d.arguments));
    ParensMean(d.arguments);
    if d.arguments.Some? {
      ParensRead(ts, i + 2, d.arguments);
      AtPunct(ts, i + 2, "(");
    }
    DirectiveIs(ts, i, d.name);
  }

  lemma DirectiveMeans(d: Directive)
    ensures DirectiveTokens(d) == [P("@"), N(d.name)] + ParenTokens(d.arguments)
  {
  }

  lemma DirectivesUnfold(ds: seq<Directive>)
    requires DirectivesOk(ds)
    ensures |ds| == 0 ==> DirectivesTokens(ds) == []
    ensures |ds| > 0 ==>
      && DirectivesTokens(ds) == DirectiveTokens(ds[0]) + DirectivesTokens(ds[1..])
      && IsName(ds[0].name) && ArgumentsOk(ds[0].arguments) && DirectivesOk(ds[1..])
  {
    hide ArgumentsOk, DirectiveTokens, IsName;
  }

  /** Directives end where neither another one nor arguments of the last one begin. */
  predicate Beyond(ts: seq<Token>, i: nat) { !At(ts, i, T("@")) && !At(ts, i, T("(")) }

  lemma SkipStep(ts: seq<Token>, i: nat, j: nat)
    requires i < |ts| && ts[i] == P("@") && SkipDirective(ts, i) == Ok(j)
    ensures j <= |ts| && SkipDirectives(ts, i) == SkipDirectives(ts, j)
  {
  }

  lemma SkipNone(ts: seq<Token>, i: nat)
    requires i <= |ts| && Beyond(ts, i)
    ensures SkipDirectives(ts, i) == Ok(i) && !At(ts, i, T("("))
  {
  }

  lemma FirstOf(ts: seq<Token>, i: nat, a: Token, b: Token, rest: seq<Token>)
    requires OnAt(ts, i, [a, b] + rest)
    ensures i < |ts| && ts[i] == a
  {
    assert ts[i] == ([a, b] + rest)[0];
  }

  // The first directive is followed by another or by what comes after all of them.
  lemma NoParenAfter(ts: seq<Token>, i: nat, ds: seq<Directive>)
    requires DirectivesOk(ds) && OnAt(ts, i, DirectivesTokens(ds)) && Beyond(ts, i + |DirectivesTokens(ds)|)
    ensures !At(ts, i, T("("))
  {
    LiteralTexts();
    DirectivesUnfold(ds);
    if |ds| > 0 {
      OnAtSplit(ts, i, DirectiveTokens(ds[0]), DirectivesTokens(ds[1..]));
      FirstOf(ts, i, P("@"), N(ds[0].name), ParenTokens(ds[0].arguments));
    }
    hide DirectivesOk, T;
  }

  lemma {:induction false} DirectivesRead(ts: seq<Token>, i: nat, ds: seq<Directive>)
    requires DirectivesOk(ds) && OnAt(ts, i, DirectivesTokens(ds)) && Beyond(ts, i + |DirectivesTokens(ds)|)
    ensures i <= |ts| && SkipDirectives(ts, i) == Ok(i + |DirectivesTokens(ds)|)
    decreases |ds|
  {
    hide *;
    DirectivesUnfold(ds);
    if |ds| == 0 {
      Fits(ts, i, DirectivesTokens(ds));
      SkipNone(ts, i);
    } else {
      var first, rest := DirectiveTokens(ds[0]), DirectivesTokens(ds[1..]);
      OnAtSplit(ts, i, first, rest);
      NoParenAfter(ts, i + |first|, ds[1..]);
      DirectiveReads(ts, i, ds[0]);
      DirectivesRead(ts, i + |first|, ds[1..]);
      SkipStep(ts, i, i + |first|);
    }
  }

  lemma Fits(ts: seq<Token>, i: nat, part: seq<Token>)
    requires OnAt(ts, i, part)
    ensures i + |part| <= |ts|
  {
  }

  // ------------------------------------------------- variable definitions

  lemma BangReads(ts: seq<Token>, k: nat, required: bool)
    requires OnAt(ts, k, BangTokens(required)) && (!required ==> !At(ts, k, T("!")))
    ensures k + |BangTokens(required)| == if At(ts, k, T("!")) then k + 1 else k
  {
    if required { assert ts[k] == BangTokens(required)[0]; }
  }

  lemma NamedTypeIs(ts: seq<Token>, i: nat, name: Text)
    requires i < |ts| && ts[i] == N(name) && IsName(name)
    ensures SkipType(ts, i) == Ok(if At(ts, i + 1, T("!")) then i + 2 else i + 1)
  {
    WordsAreNotPunctuation(name, '[');
    assert T(['[']) == T("[");
  }

  lemma ListTypeIs(ts: seq<Token>, i: nat, j: nat)
    requires i < |ts| && ts[i] == P("[") && SkipType(ts, i + 1) == Ok(j) && j < |ts| && ts[j] == P("]")
    ensures SkipType(ts, i) == Ok(if At(ts, j + 1, T("!")) then j + 2 else j + 1)
  {
  }

  lemma TypeMeans(t: TypeReference)
    requires TypeOk(t)
    ensures t.Named? ==> TypeTokens(t) == [N(t.name)] + BangTokens(t.required) && IsName(t.name)
    ensures t.ListOf? ==>
      TypeTokens(t) == [P("[")] + (TypeTokens(t.items) + ([P("]")] + BangTokens(t.required))) && TypeOk(t.items)
  {
  }

  lemma BracketIsNoBang(ts: seq<Token>, i: nat)
    requires i < |ts| && ts[i] == P("]")
    ensures !At(ts, i, T("!"))
  {
    assert T("]")[0] != T("!")[0];
  }

  /** A type is skipped with its exclamation mark, at every level of brackets. */
  lemma {:induction false} TypeReads(ts: seq<Token>, i: nat, t: TypeReference)
    requires TypeOk(t) && OnAt(ts, i, TypeTokens(t)) && !At(ts, i + |TypeTokens(t)|, T("!"))
    ensures i <= |ts| && SkipType(ts, i) == Ok(i + |TypeTokens(t)|)
    decreases t
  {
    hide *;
    TypeMeans(t);
    match t
    case Named(name, required) =>
      Single(ts, i, N(name), BangTokens(required));
      BangCount(required);
      BangReads(ts, i + 1, required);
      NamedTypeIs(ts, i, name);
    case ListOf(items, required) =>
      var inner, close := TypeTokens(items), [P("]")] + BangTokens(required);
      var j := i + 1 + |inner|;
      Single(ts, i, P("["), inner + close);
      OnAtSplit(ts, i + 1, inner, close);
      Single(ts, j, P("]"), BangTokens(required));
      BracketIsNoBang(ts, j);
      TypeReads(ts, i + 1, items);
      BangCount(required);
      BangReads(ts, j + 1, required);
      ListTypeIs(ts, i, j);
  }

  lemma BangCount(required: bool)
    ensures |BangTokens(required)| == if required then 1 else 0
  {
  }

  lemma DefaultIs(ts: seq<Token>, i: nat)
    requires i <= |ts|
    ensures !At(ts, i, T("=")) ==> SkipDefault(ts, i) == Ok(i)
    ensures At(ts, i, T("=")) && ParseValue(ts, i + 1, 0).Ok? ==> SkipDefault(ts, i) == Ok(ParseValue(ts, i + 1, 0).value.1)
  {
  }

  lemma DefaultMeans(default: Option<Value>)
    ensures default.None? ==> DefaultTokens(default) == []
    ensures default.Some? ==> DefaultTokens(default) == [P("=")] + ValueTokens(default.value)
  {
  }

  lemma DefaultReads(ts: seq<Token>, i: nat, default: Option<Value>)
    requires i <= |ts| && (default.Some? ==> PrintableValue(default.value, 0)) && OnAt(ts, i, DefaultTokens(default))
    requires default.None? ==> !At(ts, i, T("="))
    ensures SkipDefault(ts, i) == Ok(i + |DefaultTokens(default)|)
  {
    hide *;
    DefaultMeans(default);
    DefaultIs(ts, i);
    if default.Some? {
      Single(ts, i, P("="), ValueTokens(default.value));
      AtPunct(ts, i, "=");
      ValueReads(ts, i + 1, default.value, 0);
    }
  }

  lemma DefinitionIs(ts: seq<Token>, i: nat, name: Text, n: nat, o: nat, end: nat)
    requires i + 3 <= |ts| && ts[i] == P("$") && ts[i + 1] == N(name) && ts[i + 2] == P(":")
    requires SkipType(ts, i + 3) == Ok(n) && n <= |ts| && SkipDefault(ts, n) == Ok(o) && o <= |ts|
    requires SkipDirectives(ts, o) == Ok(end)
    ensures SkipDefinition(ts, i) == Ok(end)
  {
  }

  /** What can come after a variable definition. */
  predicate EndsDefinition(t: Token) { t == P("$") || t == P(")") }

  lemma EndsDefinitionIsPlain(ts: seq<Token>, i: nat)
    requires i < |ts|
    ensures EndsDefinition(ts[i]) ==> !At(ts, i, T("!")) && !At(ts, i, T("=")) && Beyond(ts, i)
    ensures ts[i] == P("@") ==> !At(ts, i, T("!")) && !At(ts, i, T("="))
    ensures ts[i] == P("=") ==> !At(ts, i, T("!"))
  {
    assert T("$")[0] != T("!")[0] && T(")")[0] != T("!")[0] && T("@")[0] != T("!")[0] && T("=")[0] != T("!")[0];
    assert T("$")[0] != T("(")[0] && T(")")[0] != T("(")[0];
    assert T("$")[0] != T("=")[0] && T(")")[0] != T("=")[0] && T("@")[0] != T("=")[0];
    assert T("$")[0] != T("@")[0] && T(")")[0] != T("@")[0];
  }

  lemma DirectivesBegin(ts: seq<Token>, i: nat, ds: seq<Directive>)
    requires DirectivesOk(ds) && OnAt(ts, i, DirectivesTokens(ds))
    ensures |ds| > 0 ==> i < |ts| && ts[i] == P("@")
    ensures |ds| == 0 ==> |DirectivesTokens(ds)| == 0
  {
    hide *;
    DirectivesUnfold(ds);
    if |ds| > 0 {
      OnAtSplit(ts, i, DirectiveTokens(ds[0]), DirectivesTokens(ds[1..]));
      DirectiveMeans(ds[0]);
      FirstOf(ts, i, P("@"), N(ds[0].name), ParenTokens(ds[0].arguments));
    }
  }

  // The tokens behind the type and behind the default.
  lemma AfterType(ts: seq<Token>, n: nat, default: Option<Value>, ds: seq<Directive>)
    requires DirectivesOk(ds) && OnAt(ts, n, DefaultTokens(default) + DirectivesTokens(ds))
    requires var end := n + |DefaultTokens(default) + DirectivesTokens(ds)|; end < |ts| && EndsDefinition(ts[end])
    ensures var o := n + |DefaultTokens(default)|;
      && OnAt(ts, n, DefaultTokens(default)) && OnAt(ts, o, DirectivesTokens(ds))
      && !At(ts, n, T("!")) && (default.None? ==> !At(ts, n, T("="))) && Beyond(ts, o + |DirectivesTokens(ds)|)
  {
    hide *;
    DefaultMeans(default);
    var o := n + |DefaultTokens(default)|;
    var end := o + |DirectivesTokens(ds)|;
    OnAtSplit(ts, n, DefaultTokens(default), DirectivesTokens(ds));
    DirectivesBegin(ts, o, ds);
    if default.Some? { Single(ts, n, P("="), ValueTokens(default.value)); }
    EndsDefinitionIsPlain(ts, end);
    Fits(ts, n, DefaultTokens(default));
    EndsDefinitionIsPlain(ts, n);
  }

  lemma DefinitionMeans(d: VariableDefinition)
    requires DefinitionOk(d)
    ensures DefinitionTokens(d) ==
      [P("$"), N(d.name)] + ([P(":")] + (TypeTokens(d.declared) + (DefaultTokens(d.default) + DirectivesTokens(d.directives))))
    ensures IsName(d.name) && TypeOk(d.declared) && (d.default.Some? ==> PrintableValue(d.default.value, 0))
    ensures DirectivesOk(d.directives)
  {
  }

  lemma DefinitionReads(ts: seq<Token>, i: nat, d: VariableDefinition)
    requires DefinitionOk(d) && OnAt(ts, i, DefinitionTokens(d))
    requires var end := i + |DefinitionTokens(d)|; end < |ts| && EndsDefinition(ts[end])
    ensures i < |ts| && ts[i] == P("$") && SkipDefinition(ts, i) == Ok(i + |DefinitionTokens(d)|)
  {
    hide *;
    DefinitionMeans(d);
    var behind := DefaultTokens(d.default) + DirectivesTokens(d.directives);
    var t := TypeTokens(d.declared);
    PairAt(ts, i, P("$"), N(d.name), [P(":")] + (t + behind));
    Single(ts, i + 2, P(":"), t + behind);
    OnAtSplit(ts, i + 3, t, behind);
    var n := i + 3 + |t|;
    AfterType(ts, n, d.default, d.directives);
    Fits(ts, n, DefaultTokens(d.default));
    TypeReads(ts, i + 3, d.declared);
    DefaultReads(ts, n, d.default);
    var o := n + |DefaultTokens(d.default)|;
    DirectivesRead(ts, o, d.directives);
    DefinitionIs(ts, i, d.name, n, o, o + |DirectivesTokens(d.directives)|);
  }

  lemma DefinitionsUnfold(ds: seq<VariableDefinition>)
    requires forall d <- ds :: DefinitionOk(d)
    ensures |ds| == 0 ==> DefinitionsTokens(ds) == []
    ensures |ds| > 0 ==>
      && DefinitionsTokens(ds) == DefinitionTokens(ds[0]) + DefinitionsTokens(ds[1..])
      && DefinitionOk(ds[0]) && forall d <- ds[1..] :: DefinitionOk(d)
  {
    hide DefinitionOk, DefinitionTokens;
  }

  lemma DefinitionsClose(ts: seq<Token>, i: nat)
    requires i < |ts| && ts[i] == P(")")
    ensures SkipDefinitions(ts, i) == Ok(i + 1) && EndsDefinition(ts[i])
  {
  }

  lemma DefinitionsStep(ts: seq<Token>, i: nat, j: nat)
    requires i < |ts| && ts[i] == P("$") && SkipDefinition(ts, i) == Ok(j)
    ensures j <= |ts| && SkipDefinitions(ts, i) == SkipDefinitions(ts, j)
  {
    assert T("$")[0] != T(")")[0];
  }

  lemma NextDefinition(ts: seq<Token>, i: nat, ds: seq<VariableDefinition>)
    requires (forall d <- ds :: DefinitionOk(d)) && OnAt(ts, i, DefinitionsTokens(ds) + [P(")")])
    ensures i < |ts| && EndsDefinition(ts[i])
  {
    DefinitionsUnfold(ds);
    hide DefinitionOk, T;
    if |ds| > 0 { DefinitionBegins(ds[0]); }
    assert ts[i] == (DefinitionsTokens(ds) + [P(")")])[0];
  }

  lemma DefinitionBegins(d: VariableDefinition)
    ensures |DefinitionTokens(d)| > 0 && DefinitionTokens(d)[0] == P("$")
  {
  }

  lemma {:induction false} DefinitionsRead(ts: seq<Token>, i: nat, ds: seq<VariableDefinition>)
    requires (forall d <- ds :: DefinitionOk(d)) && OnAt(ts, i, DefinitionsTokens(ds) + [P(")")])
    ensures i <= |ts| && SkipDefinitions(ts, i) == Ok(i + |DefinitionsTokens(ds)| + 1)
    decreases |ds|
  {
    hide *;
    DefinitionsUnfold(ds);
    if |ds| == 0 {
      Single(ts, i, P(")"), []) by { assert [] + [P(")")] == [P(")")] + []; }
      DefinitionsClose(ts, i);
    } else {
      var first, rest := DefinitionTokens(ds[0]), DefinitionsTokens(ds[1..]) + [P(")")];
      AppendAssoc(first, DefinitionsTokens(ds[1..]), [P(")")]);
      OnAtSplit(ts, i, first, rest);
      NextDefinition(ts, i + |first|, ds[1..]);
      DefinitionReads(ts, i, ds[0]);
      DefinitionsRead(ts, i + |first|, ds[1..]);
      DefinitionsStep(ts, i, i + |first|);
    }
  }

  lemma VariablesOpen(ts: seq<Token>, i: nat)
    requires i < |ts| && ts[i] == P("(")
    ensures SkipVariableDefinitions(ts, i) == SkipDefinitions(ts, i + 1)
  {
  }

  lemma VariablesRead(ts: seq<Token>, i: nat, ds: seq<VariableDefinition>)
    requires (forall d <- ds :: DefinitionOk(d)) && OnAt(ts, i, [P("(")] + (DefinitionsTokens(ds) + [P(")")]))
    ensures i < |ts| && ts[i] == P("(")
    ensures SkipVariableDefinitions(ts, i) == Ok(i + |[P("(")] + (DefinitionsTokens(ds) + [P(")")])|)
  {
    hide *;
    Single(ts, i, P("("), DefinitionsTokens(ds) + [P(")")]);
    DefinitionsRead(ts, i + 1, ds);
    VariablesOpen(ts, i);
  }

  // ------------------------------------------------ fields and operations

  /** What can come after a field inside a selection set. */
  predicate Follows(t: Token) {
    t == P("}") || (t.kind == Name && IsName(t.value))
  }

  lemma FollowsIsPlain(t: Token)
    requires Follows(t)
    ensures t.value != T(":") && t.value != T("(") && t.value != T("@") && t.value != T("{")
  {
    LiteralTexts();
    if t != P("}") {
      WordsAreNotPunctuation(t.value, ':');
      WordsAreNotPunctuation(t.value, '(');
      WordsAreNotPunctuation(t.value, '@');
      WordsAreNotPunctuation(t.value, '{');
      assert T([':']) == T(":") && T(['(']) == T("(") && T(['@']) == T("@") && T(['{']) == T("{");
    }
  }

  lemma HeadReads(ts: seq<Token>, i: nat, name: Text, alias: Option<Text>)
    requires OnAt(ts, i, HeadTokens(name, alias)) && !At(ts, i + |HeadTokens(name, alias)|, T(":"))
    ensures i <= |ts| && ParseAlias(ts, i) == Ok(((name, alias), i + |HeadTokens(name, alias)|))
  {
    assert ts[i] == HeadTokens(name, alias)[0];
    if alias.Some? {
      assert ts[i + 1] == HeadTokens(name, alias)[1] && ts[i + 2] == HeadTokens(name, alias)[2];
    }
  }

  lemma FieldIs(ts: seq<Token>, i: nat, depth: nat, f: Field, j: nat, k: nat, m: nat)
    requires i <= |ts| && ParseAlias(ts, i) == Ok(((f.name, f.alias), j))
    requires ParseOptionalArguments(ts, j) == Ok((f.arguments, k)) && SkipDirectives(ts, k) == Ok(m)
    ensures m <= |ts|
    ensures !At(ts, m, T("{")) && f.selections == [] ==> ParseField(ts, i, depth) == Ok((f, m))
    ensures At(ts, m, T("{")) && ParseSelectionSet(ts, m, depth).Ok? && f.selections == ParseSelectionSet(ts, m, depth).value.0 ==>
      ParseField(ts, i, depth) == Ok((f, ParseSelectionSet(ts, m, depth).value.1))
  {
  }

  lemma NodeMeans(n: FieldNode, depth: nat)
    requires NodeOk(n, depth)
    ensures NodeTokens(n) ==
      HeadTokens(n.name, n.alias) + (ParenTokens(n.arguments) + (DirectivesTokens(n.directives) + SetTokens(n.selections)))
    ensures ArgumentsOk(n.arguments) && DirectivesOk(n.directives)
    ensures n.selections.Leaf? ==> SetTokens(n.selections) == []
    ensures n.selections.Nested? ==>
      && SetTokens(n.selections) == SelectionTokens(n.selections.fields)
      && depth <= MAX_SELECTION_DEPTH && |n.selections.fields| <= MAX_FIELDS
      && forall g <- n.selections.fields :: NodeOk(g, depth + 1)
    ensures FieldOf(n) ==
      Field(n.name, n.alias, GivenArguments(n.arguments), if n.selections.Leaf? then [] else FieldsOf(n.selections.fields))
  {
  }

  lemma SelectionBegins(ts: seq<Token>, m: nat, fs: seq<FieldNode>)
    requires OnAt(ts, m, SelectionTokens(fs))
    ensures m < |ts| && ts[m] == P("{")
  {
    assert ts[m] == SelectionTokens(fs)[0];
  }

  lemma PlainPuncts(ts: seq<Token>, i: nat)
    requires i < |ts|
    ensures ts[i] == P("@") ==> !At(ts, i, T("(")) && !At(ts, i, T(":")) && ts[i].kind == Punct
    ensures ts[i] == P("(") ==> !At(ts, i, T(":")) && ts[i].kind == Punct
    ensures ts[i] == P("{") ==>
      Beyond(ts, i) && !At(ts, i, T("(")) && !At(ts, i, T(":")) && At(ts, i, T("{")) && ts[i].kind == Punct
  {
    LiteralTexts();
    assert T("@")[0] != T("(")[0] && T("@")[0] != T(":")[0];
  }

  lemma FollowersArePlain(ts: seq<Token>, i: nat)
    requires i < |ts| && Follows(ts[i])
    ensures Beyond(ts, i) && !At(ts, i, T("(")) && !At(ts, i, T(":")) && !At(ts, i, T("{"))
  {
    FollowsIsPlain(ts[i]);
  }

  lemma SetMeans(s: Selections)
    ensures s.Leaf? ==> SetTokens(s) == []
    ensures s.Nested? ==> SetTokens(s) == SelectionTokens(s.fields)
  {
  }

  // The token in front of the selection set, or the one that follows a field without one.
  lemma AfterDirectives(ts: seq<Token>, m: nat, s: Selections)
    requires OnAt(ts, m, SetTokens(s)) && m + |SetTokens(s)| < |ts| && Follows(ts[m + |SetTokens(s)|])
    ensures m < |ts| && Beyond(ts, m) && !At(ts, m, T(":")) && !At(ts, m, T("(")) && (s.Nested? <==> At(ts, m, T("{")))
  {
    hide *;
    SetMeans(s);
    if s.Nested? {
      SelectionBegins(ts, m, s.fields);
      PlainPuncts(ts, m);
    } else {
      FollowersArePlain(ts, m);
    }
  }

  // The token behind the arguments.
  lemma AfterParens(ts: seq<Token>, k: nat, ds: seq<Directive>, s: Selections)
    requires DirectivesOk(ds) && OnAt(ts, k, DirectivesTokens(ds) + SetTokens(s))
    requires var end := k + |DirectivesTokens(ds) + SetTokens(s)|; end < |ts| && Follows(ts[end])
    ensures var m := k + |DirectivesTokens(ds)|;
      && OnAt(ts, k, DirectivesTokens(ds)) && OnAt(ts, m, SetTokens(s)) && k <= m < |ts|
      && !At(ts, k, T("(")) && !At(ts, k, T(":")) && Beyond(ts, m) && (s.Nested? <==> At(ts, m, T("{")))
  {
    hide *;
    OnAtSplit(ts, k, DirectivesTokens(ds), SetTokens(s));
    DirectivesBegin(ts, k, ds);
    AfterDirectives(ts, k + |DirectivesTokens(ds)|, s);
    PlainPuncts(ts, k);
  }

  // The token behind the head.
  lemma AfterHead(ts: seq<Token>, j: nat, arguments: Option<Members>, ds: seq<Directive>, s: Selections)
    requires ArgumentsOk(arguments) && DirectivesOk(ds)
    requires OnAt(ts, j, ParenTokens(arguments) + (DirectivesTokens(ds) + SetTokens(s)))
    requires var end := j + |ParenTokens(arguments) + (DirectivesTokens(ds) + SetTokens(s))|; end < |ts| && Follows(ts[end])
    ensures var k := j + |ParenTokens(arguments)|;
      && OnAt(ts, j, ParenTokens(arguments)) && OnAt(ts, k, DirectivesTokens(ds) + SetTokens(s))
      && j <= |ts| && !At(ts, j, T(":")) && (arguments.None? ==> !At(ts, j, T("(")))
  {
    hide *;
    ParensMean(arguments);
    OnAtSplit(ts, j, ParenTokens(arguments), DirectivesTokens(ds) + SetTokens(s));
    AfterParens(ts, j + |ParenTokens(arguments)|, ds, s);
    if arguments.Some? {
      Single(ts, j, P("("), MembersTokens(arguments.value) + [P(")")]);
      PlainPuncts(ts, j);
    }
  }

  lemma {:induction false} FieldReads(ts: seq<Token>, i: nat, n: FieldNode, depth: nat)
    requires NodeOk(n, depth) && OnAt(ts, i, NodeTokens(n))
    requires var end := i + |NodeTokens(n)|; end < |ts| && Follows(ts[end])
    ensures i <= |ts| && ParseField(ts, i, depth) == Ok((FieldOf(n), i + |NodeTokens(n)|))
    decreases n, 0
  {
    hide *;
    NodeMeans(n, depth);
    var head, args, directives := HeadTokens(n.name, n.alias), ParenTokens(n.arguments), DirectivesTokens(n.directives);
    var j := i + |head|;
    var k := j + |args|;
    var m := k + |directives|;
    OnAtSplit(ts, i, head, args + (directives + SetTokens(n.selections)));
    AfterHead(ts, j, n.arguments, n.directives, n.selections);
    AfterParens(ts, k, n.directives, n.selections);
    HeadReads(ts, i, n.name, n.alias);
    ArgumentsRead(ts, j, n.arguments);
    DirectivesRead(ts, k, n.directives);
    FieldIs(ts, i, depth, FieldOf(n), j, k, m);
    if n.selections.Nested? { SelectionSetReads(ts, m, n.selections.fields, depth); }
  }

  lemma SelectionOpens(ts: seq<Token>, i: nat, depth: nat)
    requires i < |ts| && ts[i] == P("{") && depth <= MAX_SELECTION_DEPTH
    ensures ParseSelectionSet(ts, i, depth) == ParseSelections(ts, i + 1, depth, [])
  {
  }

  lemma SelectionLayout(fs: seq<FieldNode>)
    ensures SelectionTokens(fs) == [P("{")] + (NodesTokens(fs) + [P("}")])
  {
  }

  lemma {:induction false} SelectionSetReads(ts: seq<Token>, i: nat, fs: seq<FieldNode>, depth: nat)
    requires depth <= MAX_SELECTION_DEPTH && |fs| <= MAX_FIELDS && forall f <- fs :: NodeOk(f, depth + 1)
    requires OnAt(ts, i, SelectionTokens(fs))
    ensures i < |ts| && ts[i] == P("{") && ParseSelectionSet(ts, i, depth) == Ok((FieldsOf(fs), i + |SelectionTokens(fs)|))
    decreases fs, 2
  {
    hide *;
    SelectionLayout(fs);
    Single(ts, i, P("{"), NodesTokens(fs) + [P("}")]);
    SelectionOpens(ts, i, depth);
    SelectionsRead(ts, i + 1, [], fs, depth);
    assert [] + FieldsOf(fs) == FieldsOf(fs);
  }

  lemma SelectionsClose(ts: seq<Token>, i: nat, depth: nat, done: seq<Field>)
    requires i < |ts| && ts[i] == P("}")
    ensures ParseSelections(ts, i, depth, done) == Ok((done, i + 1))
  {
  }

  lemma SelectionsStep(ts: seq<Token>, i: nat, depth: nat, done: seq<Field>, f: Field, j: nat)
    requires i < |ts| && ts[i].kind == Name && IsName(ts[i].value) && |done| < MAX_FIELDS
    requires ParseField(ts, i, depth + 1) == Ok((f, j))
    ensures ParseSelections(ts, i, depth, done) == ParseSelections(ts, j, depth, done + [f])
  {
    WordsAreNotPunctuation(ts[i].value, '}');
    assert T(['}']) == T("}");
  }

  lemma NodesUnfold(fs: seq<FieldNode>, depth: nat)
    requires forall f <- fs :: NodeOk(f, depth)
    ensures |fs| == 0 ==> NodesTokens(fs) == [] && FieldsOf(fs) == []
    ensures |fs| > 0 ==>
      && NodesTokens(fs) == NodeTokens(fs[0]) + NodesTokens(fs[1..])
      && FieldsOf(fs) == [FieldOf(fs[0])] + FieldsOf(fs[1..])
      && NodeOk(fs[0], depth) && (forall f <- fs[1..] :: NodeOk(f, depth))
  {
    hide NodeOk, NodeTokens, FieldOf;
  }

  lemma {:induction false} FieldCount(fs: seq<FieldNode>)
    ensures |FieldsOf(fs)| == |fs|
  {
    hide FieldOf;
    if |fs| > 0 { FieldCount(fs[1..]); }
  }

  /** A field starts with a name. */
  lemma FieldStarts(n: FieldNode, depth: nat)
    requires NodeOk(n, depth)
    ensures |NodeTokens(n)| > 0 && NodeTokens(n)[0].kind == Name && IsName(NodeTokens(n)[0].value)
  {
    hide ArgumentsOk, DirectivesOk, ParenTokens, DirectivesTokens, SetTokens;
    assert NodeTokens(n)[0] == HeadTokens(n.name, n.alias)[0];
  }

  lemma NextFollows(ts: seq<Token>, i: nat, fs: seq<FieldNode>, depth: nat)
    requires (forall f <- fs :: NodeOk(f, depth)) && OnAt(ts, i, NodesTokens(fs) + [P("}")])
    ensures i < |ts| && Follows(ts[i])
  {
    NodesUnfold(fs, depth);
    hide NodeOk, NodesTokens, NodeTokens, FieldsOf;
    var part := NodesTokens(fs) + [P("}")];
    assert ts[i] == part[0];
    if |fs| > 0 { FieldStarts(fs[0], depth); }
  }

  lemma {:induction false} SelectionsRead(ts: seq<Token>, i: nat, done: seq<Field>, fs: seq<FieldNode>, depth: nat)
    requires |done| + |fs| <= MAX_FIELDS && forall f <- fs :: NodeOk(f, depth + 1)
    requires OnAt(ts, i, NodesTokens(fs) + [P("}")])
    ensures i <= |ts| && ParseSelections(ts, i, depth, done) == Ok((done + FieldsOf(fs), i + |NodesTokens(fs)| + 1))
    decreases fs, 1
  {
    hide *;
    NodesUnfold(fs, depth + 1);
    if |fs| == 0 {
      Single(ts, i, P("}"), []) by { assert [] + [P("}")] == [P("}")] + []; }
      SelectionsClose(ts, i, depth, done);
      assert done + [] == done;
    } else {
      var first, rest, f := NodeTokens(fs[0]), NodesTokens(fs[1..]) + [P("}")], FieldOf(fs[0]);
      AppendAssoc(first, NodesTokens(fs[1..]), [P("}")]);
      OnAtSplit(ts, i, first, rest);
      NextFollows(ts, i + |first|, fs[1..], depth + 1);
      FieldReads(ts, i, fs[0], depth + 1);
      FieldStarts(fs[0], depth + 1);
      FirstAt(ts, i, first);
      SelectionsRead(ts, i + |first|, done + [f], fs[1..], depth);
      SelectionsStep(ts, i, depth, done, f, i + |first|);
      assert done + [f] + FieldsOf(fs[1..]) == done + ([f] + FieldsOf(fs[1..]));
    }
  }

  lemma HeaderReads(ts: seq<Token>, i: nat, kind: OperationType, name: Option<Text>)
    requires OnAt(ts, i, HeaderTokens(kind, name))
    requires var j := i + |HeaderTokens(kind, name)|; j < |ts| && ts[j].kind == Punct
    ensures i < |ts| && !At(ts, i, T("{")) && ParseHeader(ts, i) == Ok(((kind, name), i + |HeaderTokens(kind, name)|))
  {
    LiteralTexts();
    assert ts[i] == HeaderTokens(kind, name)[0];
    assert T("query")[0] != T("{")[0] && T("mutation")[0] != T("{")[0];
    if name.Some? { assert ts[i + 1] == HeaderTokens(kind, name)[1]; }
  }

  lemma OperationIs(ts: seq<Token>, i: nat, op: Operation, j: nat, k: nat, m: nat, n: nat)
    requires i <= |ts| && !At(ts, i, T("{")) && ParseHeader(ts, i) == Ok(((op.kind, op.name), j))
    requires (if At(ts, j, T("(")) then SkipVariableDefinitions(ts, j) else Ok(j)) == Ok(k)
    requires SkipDirectives(ts, k) == Ok(m) && ParseSelectionSet(ts, m, 0) == Ok((op.selections, n))
    ensures ParseOperation(ts, i) == Ok((op, n))
  {
  }

  lemma ShorthandIs(ts: seq<Token>, i: nat, fs: seq<Field>, n: nat)
    requires i < |ts| && ts[i] == P("{") && ParseSelectionSet(ts, i, 0) == Ok((fs, n))
    ensures ParseOperation(ts, i) == Ok((Operation(Query, None, fs), n))
  {
  }

  lemma OperationMeans(op: OperationNode)
    requires OperationOk(op)
    ensures |op.fields| <= MAX_FIELDS && 0 <= MAX_SELECTION_DEPTH && forall f <- op.fields :: NodeOk(f, 0 + 1)
    ensures op.Shorthand? ==>
      OperationTokens(op) == SelectionTokens(op.fields) && OperationOf(op) == Operation(Query, None, FieldsOf(op.fields))
    ensures op.Headed? ==>
      && OperationTokens(op) ==
           HeaderTokens(op.kind, op.name)
           + (VariablesTokens(op.definitions) + (DirectivesTokens(op.directives) + SelectionTokens(op.fields)))
      && OperationOf(op) == Operation(op.kind, op.name, FieldsOf(op.fields))
      && DirectivesOk(op.directives)
    ensures op.Headed? && op.definitions.None? ==> VariablesTokens(op.definitions) == []
    ensures op.Headed? && op.definitions.Some? ==>
      && VariablesTokens(op.definitions) == [P("(")] + (DefinitionsTokens(op.definitions.value) + [P(")")])
      && forall d <- op.definitions.value :: DefinitionOk(d)
  {
    hide NodeOk, DefinitionOk, DirectivesOk, SelectionTokens, DefinitionsTokens, DirectivesTokens, FieldsOf;
  }

  // The tokens behind the header and behind the variables.
  lemma AfterVariables(ts: seq<Token>, k: nat, ds: seq<Directive>, fs: seq<FieldNode>)
    requires DirectivesOk(ds) && OnAt(ts, k, DirectivesTokens(ds) + SelectionTokens(fs))
    ensures var m := k + |DirectivesTokens(ds)|;
      && OnAt(ts, k, DirectivesTokens(ds)) && OnAt(ts, m, SelectionTokens(fs)) && k <= m < |ts| && ts[m] == P("{")
      && Beyond(ts, m) && !At(ts, k, T("(")) && ts[k].kind == Punct
  {
    hide *;
    OnAtSplit(ts, k, DirectivesTokens(ds), SelectionTokens(fs));
    DirectivesBegin(ts, k, ds);
    SelectionBegins(ts, k + |DirectivesTokens(ds)|, fs);
    PlainPuncts(ts, k);
    PlainPuncts(ts, k + |DirectivesTokens(ds)|);
  }

  lemma VariablesSkipped(ts: seq<Token>, j: nat, op: OperationNode)
    requires OperationOk(op) && op.Headed?
    requires OnAt(ts, j, VariablesTokens(op.definitions) + (DirectivesTokens(op.directives) + SelectionTokens(op.fields)))
    ensures var k := j + |VariablesTokens(op.definitions)|;
      && OnAt(ts, k, DirectivesTokens(op.directives) + SelectionTokens(op.fields))
      && j < |ts| && ts[j].kind == Punct
      && (if At(ts, j, T("(")) then SkipVariableDefinitions(ts, j) else Ok(j)) == Ok(k)
  {
    hide *;
    OperationMeans(op);
    var k := j + |VariablesTokens(op.definitions)|;
    OnAtSplit(ts, j, VariablesTokens(op.definitions), DirectivesTokens(op.directives) + SelectionTokens(op.fields));
    AfterVariables(ts, k, op.directives, op.fields);
    if op.definitions.Some? {
      VariablesRead(ts, j, op.definitions.value);
      AtPunct(ts, j, "(");
      PunctKind("(");
    }
  }

  lemma PunctKind(punct: string)
    ensures P(punct).kind == Punct
  {
  }

  lemma OperationReads(ts: seq<Token>, i: nat, op: OperationNode)
    requires OperationOk(op) && OnAt(ts, i, OperationTokens(op))
    ensures i < |ts| && ParseOperation(ts, i) == Ok((OperationOf(op), i + |OperationTokens(op)|))
  {
    hide *;
    OperationMeans(op);
    if op.Shorthand? {
      SelectionSetReads(ts, i, op.fields, 0);
      ShorthandIs(ts, i, FieldsOf(op.fields), i + |SelectionTokens(op.fields)|);
    } else {
      var header := HeaderTokens(op.kind, op.name);
      var behind := VariablesTokens(op.definitions) + (DirectivesTokens(op.directives) + SelectionTokens(op.fields));
      var j := i + |header|;
      var k := j + |VariablesTokens(op.definitions)|;
      var m := k + |DirectivesTokens(op.directives)|;
      OnAtSplit(ts, i, header, behind);
      VariablesSkipped(ts, j, op);
      AfterVariables(ts, k, op.directives, op.fields);
      HeaderReads(ts, i, op.kind, op.name);
      DirectivesRead(ts, k, op.directives);
      SelectionSetReads(ts, m, op.fields, 0);
      OperationIs(ts, i, OperationOf(op), j, k, m, m + |SelectionTokens(op.fields)|);
    }
  }

  lemma SyntaxUnfolds(doc: seq<OperationNode>)
    ensures |doc| == 0 ==> SyntaxTokens(doc) == [] && OperationsOf(doc) == []
    ensures |doc| > 0 ==>
      && SyntaxTokens(doc) == OperationTokens(doc[0]) + SyntaxTokens(doc[1..])
      && OperationsOf(doc) == [OperationOf(doc[0])] + OperationsOf(doc[1..])
  {
    hide OperationTokens, OperationOf;
  }

  lemma OperationsStep(ts: seq<Token>, i: nat, done: seq<Operation>, op: Operation, j: nat)
    requires i < |ts| && ParseOperation(ts, i) == Ok((op, j))
    ensures ParseOperations(ts, i, done) == ParseOperations(ts, j, done + [op])
  {
  }

  lemma OperationsEnd(ts: seq<Token>, done: seq<Operation>)
    requires |done| > 0
    ensures ParseOperations(ts, |ts|, done) == Ok(done)
  {
  }

  lemma {:induction false} OperationsRead(ts: seq<Token>, i: nat, done: seq<Operation>, doc: seq<OperationNode>)
    requires (forall op <- doc :: OperationOk(op)) && |done| + |doc| > 0
    requires OnAt(ts, i, SyntaxTokens(doc)) && i + |SyntaxTokens(doc)| == |ts|
    ensures ParseOperations(ts, i, done) == Ok(done + OperationsOf(doc))
    decreases |doc|
  {
    hide *;
    SyntaxUnfolds(doc);
    if |doc| == 0 {
      OperationsEnd(ts, done);
      assert done + [] == done;
    } else {
      OnAtSplit(ts, i, OperationTokens(doc[0]), SyntaxTokens(doc[1..]));
      OperationReads(ts, i, doc[0]);
      var j, op := i + |OperationTokens(doc[0])|, OperationOf(doc[0]);
      OperationsRead(ts, j, done + [op], doc[1..]);
      OperationsStep(ts, i, done, op, j);
      assert done + [op] + OperationsOf(doc[1..]) == done + ([op] + OperationsOf(doc[1..]));
    }
  }

  lemma OnWhole(ts: seq<Token>)
    ensures OnAt(ts, 0, ts)
  {
  }

  // ----------------------------------------------- printed tokens are lexical

  lemma {:induction false} TokensAppend(a: seq<Token>, b: seq<Token>)
    requires TokensOk(a) && TokensOk(b)
    ensures TokensOk(a + b)
  {
  }

  lemma PunctsAreTokens()
    ensures forall c :: IsPunct(U(c)) ==> TokenOk(Token(Punct, T([c])))
    ensures TokensOk([P("$")]) && TokensOk([P("[")]) && TokensOk([P("]")]) && TokensOk([P("{")]) && TokensOk([P("}")])
    ensures TokensOk([P("(")]) && TokensOk([P(")")]) && TokensOk([P(":")])
    ensures TokensOk([P("!")]) && TokensOk([P("=")]) && TokensOk([P("@")])
  {
  }

  lemma ScalarTokenOk(s: Scalar)
    requires ScalarOk(s)
    ensures TokensOk([ScalarToken(s)])
  {
    if s.Int? { IntRoundTrip(s.value); }
    assert IsName(T("true")) && IsName(T("false")) && IsName(T("null"));
  }

  lemma {:induction false} ValueTokensOk(v: Value, depth: nat)
    requires PrintableValue(v, depth)
    ensures TokensOk(ValueTokens(v))
    decreases v, 0
  {
    PunctsAreTokens();
    ValueKinds(v, depth);
    match v
    case Variable(name) =>
    case Scalar(s) => ScalarTokenOk(s);
    case List(values) => ItemsTokensOk(values, depth + 1);
    case Object(members) => MembersTokensOk(members, depth + 1);
  }

  lemma {:induction false} ItemsTokensOk(values: seq<Value>, depth: nat)
    requires forall x <- values :: !ClosesList(x) && PrintableValue(x, depth)
    ensures TokensOk(ItemsTokens(values))
    decreases values, 1
  {
    if |values| > 0 {
      ValueTokensOk(values[0], depth);
      ItemsTokensOk(values[1..], depth);
    }
  }

  lemma {:induction false} MembersTokensOk(ms: Members, depth: nat)
    requires forall m <- ms :: IsName(m.key) && PrintableValue(m.value, depth)
    ensures TokensOk(MembersTokens(ms))
    decreases ms, 1
  {
    PunctsAreTokens();
    if |ms| > 0 {
      assert ms[0].value < ms[0];
      ValueTokensOk(ms[0].value, depth);
      MembersTokensOk(ms[1..], depth);
      TokensAppend(ValueTokens(ms[0].value), MembersTokens(ms[1..]));
    }
  }

  lemma NameTokensOk(name: Text)
    requires IsName(name)
    ensures TokensOk([N(name)])
  {
  }

  lemma NoTokensOk(ts: seq<Token>)
    requires |ts| == 0
    ensures TokensOk(ts)
  {
  }

  lemma PairOk(a: Token, b: Token)
    requires TokensOk([a]) && TokensOk([b])
    ensures TokensOk([a, b])
  {
    TokensAppend([a], [b]);
    assert [a] + [b] == [a, b];
  }

  lemma HeadTokensOk(name: Text, alias: Option<Text>)
    requires IsName(name) && (alias.Some? ==> IsName(alias.value))
    ensures TokensOk(HeadTokens(name, alias))
  {
    PunctsAreTokens();
  }

  lemma ArgumentsMembers(ms: Members)
    requires PrintableArguments(ms)
    ensures forall m <- ms :: IsName(m.key) && PrintableValue(m.value, 0)
  {
    hide Inherited, IsName, PrintableValue;
  }

  lemma ParenTokensOk(arguments: Option<Members>)
    requires ArgumentsOk(arguments)
    ensures TokensOk(ParenTokens(arguments))
  {
    hide *;
    PunctsAreTokens();
    ParensMean(arguments);
    if arguments.Some? {
      ArgumentsMembers(arguments.value);
      MembersTokensOk(arguments.value, 0);
      TokensAppend(MembersTokens(arguments.value), [P(")")]);
      TokensAppend([P("(")], MembersTokens(arguments.value) + [P(")")]);
    } else {
      NoTokensOk(ParenTokens(arguments));
    }
  }

  lemma BangTokensOk(required: bool)
    ensures TokensOk(BangTokens(required))
  {
    PunctsAreTokens();
  }

  lemma {:induction false} TypeTokensOk(t: TypeReference)
    requires TypeOk(t)
    ensures TokensOk(TypeTokens(t))
    decreases t
  {
    hide *;
    PunctsAreTokens();
    TypeMeans(t);
    BangTokensOk(t.required);
    if t.Named? {
      NameTokensOk(t.name);
      TokensAppend([N(t.name)], BangTokens(t.required));
    } else {
      TypeTokensOk(t.items);
      TokensAppend([P("]")], BangTokens(t.required));
      TokensAppend(TypeTokens(t.items), [P("]")] + BangTokens(t.required));
      TokensAppend([P("[")], TypeTokens(t.items) + ([P("]")] + BangTokens(t.required)));
    }
  }

  lemma {:induction false} DirectivesTokensOk(ds: seq<Directive>)
    requires DirectivesOk(ds)
    ensures TokensOk(DirectivesTokens(ds))
    decreases |ds|
  {
    hide *;
    DirectivesUnfold(ds);
    if |ds| > 0 {
      PunctsAreTokens();
      NameTokensOk(ds[0].name);
      PairOk(P("@"), N(ds[0].name));
      ParenTokensOk(ds[0].arguments);
      DirectiveMeans(ds[0]);
      TokensAppend([P("@"), N(ds[0].name)], ParenTokens(ds[0].arguments));
      DirectivesTokensOk(ds[1..]);
      TokensAppend(DirectiveTokens(ds[0]), DirectivesTokens(ds[1..]));
    } else {
      NoTokensOk(DirectivesTokens(ds));
    }
  }

  lemma DefinitionTokensOk(d: VariableDefinition)
    requires DefinitionOk(d)
    ensures TokensOk(DefinitionTokens(d))
  {
    hide *;
    DefinitionMeans(d);
    PunctsAreTokens();
    NameTokensOk(d.name);
    PairOk(P("$"), N(d.name));
    TypeTokensOk(d.declared);
    DefaultMeans(d.default);
    if d.default.Some? {
      ValueTokensOk(d.default.value, 0);
      TokensAppend([P("=")], ValueTokens(d.default.value));
    } else {
      NoTokensOk(DefaultTokens(d.default));
    }
    DirectivesTokensOk(d.directives);
    var behind := DefaultTokens(d.default) + DirectivesTokens(d.directives);
    TokensAppend(DefaultTokens(d.default), DirectivesTokens(d.directives));
    TokensAppend(TypeTokens(d.declared), behind);
    TokensAppend([P(":")], TypeTokens(d.declared) + behind);
    TokensAppend([P("$"), N(d.name)], [P(":")] + (TypeTokens(d.declared) + behind));
  }

  lemma {:induction false} DefinitionsTokensOk(ds: seq<VariableDefinition>)
    requires forall d <- ds :: DefinitionOk(d)
    ensures TokensOk(DefinitionsTokens(ds))
    decreases |ds|
  {
    hide *;
    DefinitionsUnfold(ds);
    if |ds| > 0 {
      DefinitionTokensOk(ds[0]);
      DefinitionsTokensOk(ds[1..]);
      TokensAppend(DefinitionTokens(ds[0]), DefinitionsTokens(ds[1..]));
    } else {
      NoTokensOk(DefinitionsTokens(ds));
    }
  }

  lemma NodeNames(n: FieldNode, depth: nat)
    requires NodeOk(n, depth)
    ensures IsName(n.name) && (n.alias.Some? ==> IsName(n.alias.value))
  {
  }

  lemma {:induction false} NodeTokensOk(n: FieldNode, depth: nat)
    requires NodeOk(n, depth)
    ensures TokensOk(NodeTokens(n))
    decreases n, 0
  {
    hide *;
    NodeMeans(n, depth);
    NodeNames(n, depth);
    HeadTokensOk(n.name, n.alias);
    ParenTokensOk(n.arguments);
    DirectivesTokensOk(n.directives);
    if n.selections.Nested? {
      NodesTokensOk(n.selections.fields, depth + 1);
      SelectionTokensOk(n.selections.fields);
    } else {
      NoTokensOk(SetTokens(n.selections));
    }
    TokensAppend(DirectivesTokens(n.directives), SetTokens(n.selections));
    TokensAppend(ParenTokens(n.arguments), DirectivesTokens(n.directives) + SetTokens(n.selections));
    TokensAppend(HeadTokens(n.name, n.alias), ParenTokens(n.arguments) + (DirectivesTokens(n.directives) + SetTokens(n.selections)));
  }

  lemma SelectionTokensOk(fs: seq<FieldNode>)
    requires TokensOk(NodesTokens(fs))
    ensures TokensOk(SelectionTokens(fs))
  {
    hide *;
    PunctsAreTokens();
    SelectionLayout(fs);
    TokensAppend(NodesTokens(fs), [P("}")]);
    TokensAppend([P("{")], NodesTokens(fs) + [P("}")]);
  }

  lemma {:induction false} NodesTokensOk(fs: seq<FieldNode>, depth: nat)
    requires forall f <- fs :: NodeOk(f, depth)
    ensures TokensOk(NodesTokens(fs))
    decreases fs, 1
  {
    hide *;
    NodesUnfold(fs, depth);
    if |fs| > 0 {
      NodeTokensOk(fs[0], depth);
      NodesTokensOk(fs[1..], depth);
      TokensAppend(NodeTokens(fs[0]), NodesTokens(fs[1..]));
    } else {
      NoTokensOk(NodesTokens(fs));
    }
  }

  lemma HeaderTokensOk(kind: OperationType, name: Option<Text>)
    requires name.Some? ==> IsName(name.value)
    ensures TokensOk(HeaderTokens(kind, name))
  {
    assert IsName(T("query")) && IsName(T("mutation"));
  }

  lemma OperationName(op: OperationNode)
    requires OperationOk(op) && op.Headed? && op.name.Some?
    ensures IsName(op.name.value)
  {
  }

  lemma OperationTokensOk(op: OperationNode)
    requires OperationOk(op)
    ensures TokensOk(OperationTokens(op))
  {
    hide *;
    OperationMeans(op);
    PunctsAreTokens();
    NodesTokensOk(op.fields, 0 + 1);
    SelectionTokensOk(op.fields);
    if op.Headed? {
      if op.name.Some? { OperationName(op); }
      HeaderTokensOk(op.kind, op.name);
      if op.definitions.Some? {
        var ds := op.definitions.value;
        DefinitionsTokensOk(ds);
        TokensAppend(DefinitionsTokens(ds), [P(")")]);
        TokensAppend([P("(")], DefinitionsTokens(ds) + [P(")")]);
      } else {
        NoTokensOk(VariablesTokens(op.definitions));
      }
      DirectivesTokensOk(op.directives);
      var behind := DirectivesTokens(op.directives) + SelectionTokens(op.fields);
      TokensAppend(DirectivesTokens(op.directives), SelectionTokens(op.fields));
      TokensAppend(VariablesTokens(op.definitions), behind);
      TokensAppend(HeaderTokens(op.kind, op.name), VariablesTokens(op.definitions) + behind);
    }
  }

  lemma {:induction false} SyntaxTokensOk(doc: seq<OperationNode>)
    requires forall op <- doc :: OperationOk(op)
    ensures TokensOk(SyntaxTokens(doc))
    decreases |doc|
  {
    hide *;
    SyntaxUnfolds(doc);
    if |doc| > 0 {
      OperationTokensOk(doc[0]);
      SyntaxTokensOk(doc[1..]);
      TokensAppend(OperationTokens(doc[0]), SyntaxTokens(doc[1..]));
    } else {
      NoTokensOk(SyntaxTokens(doc));
    }
  }

  // ------------------------------------------------------------- main results

  /**
   * Every document in the syntax of the parser, with any variable definitions
   * behind its headers and any directives at their places, in any layout that
   * keeps its tokens apart and fits the size limit, parses to its operations.
   */
  lemma SyntaxParses(doc: seq<OperationNode>, layout: Layout)
    requires SyntaxOk(doc) && LayoutOk(SyntaxTokens(doc), layout) && Utf8Length(Render(SyntaxTokens(doc), layout)) <= MAX_BYTES
    ensures ParseGraphql(Render(SyntaxTokens(doc), layout)) == Ok(OperationsOf(doc))
  {
    hide SyntaxOk, OperationOk, SyntaxTokens, Tokenize, ParseGraphql, ParseOperations, OnAt, TokensOk, Utf8Length, Render, OperationsOf;
    SyntaxMeans(doc);
    var ts := SyntaxTokens(doc);
    SyntaxTokensOk(doc);
    TokenizeUndoesRenderExactlyWhen(ts, layout);
    OnWhole(ts);
    OperationsRead(ts, 0, [], doc);
    assert [] + OperationsOf(doc) == OperationsOf(doc);
    ParseIs(Render(ts, layout), ts);
  }

  lemma SyntaxMeans(doc: seq<OperationNode>)
    requires SyntaxOk(doc)
    ensures |doc| > 0 && forall op <- doc :: OperationOk(op)
  {
  }

  lemma ParseIs(source: Text, ts: seq<Token>)
    requires Tokenize(source) == Ok(ts)
    ensures ParseGraphql(source) == ParseOperations(ts, 0, [])
  {
  }

  lemma {:induction false} PlainFieldIs(f: Field, depth: nat)
    requires PrintableField(f, depth)
    ensures NodeOk(PlainField(f), depth) && FieldOf(PlainField(f)) == f
    decreases f, 0
  {
    hide PrintableArguments, IsName;
    if |f.selections| > 0 { PlainFieldsAre(f.selections, depth + 1); }
  }

  lemma {:induction false} PlainFieldsAre(fs: seq<Field>, depth: nat)
    requires forall f <- fs :: PrintableField(f, depth)
    ensures |PlainFields(fs)| == |fs| && FieldsOf(PlainFields(fs)) == fs && forall n <- PlainFields(fs) :: NodeOk(n, depth)
    decreases fs, 1
  {
    hide PrintableField, NodeOk, FieldOf, PlainField;
    if |fs| > 0 {
      PlainFieldIs(fs[0], depth);
      PlainFieldsAre(fs[1..], depth);
      assert PlainFields(fs)[0] == PlainField(fs[0]) && PlainFields(fs)[1..] == PlainFields(fs[1..]);
      assert fs == [fs[0]] + fs[1..];
    }
  }

  lemma PlainOperationIs(op: Operation)
    requires PrintableOperation(op)
    ensures OperationOk(PlainOperation(op)) && OperationOf(PlainOperation(op)) == op
  {
    PlainFieldsAre(op.selections, 1);
    hide PrintableField, NodeOk, FieldsOf, PlainFields, IsName;
  }

  lemma {:induction false} PlainDocumentIs(ops: seq<Operation>)
    requires forall op <- ops :: PrintableOperation(op)
    ensures |PlainDocument(ops)| == |ops| && OperationsOf(PlainDocument(ops)) == ops
    ensures forall op <- PlainDocument(ops) :: OperationOk(op)
    decreases |ops|
  {
    hide PrintableOperation, OperationOk, OperationOf, PlainOperation;
    if |ops| > 0 {
      PlainOperationIs(ops[0]);
      PlainDocumentIs(ops[1..]);
      assert PlainDocument(ops)[0] == PlainOperation(ops[0]) && PlainDocument(ops)[1..] == PlainDocument(ops[1..]);
      assert ops == [ops[0]] + ops[1..];
    }
  }

  /** Every printable document, in any layout that keeps its tokens apart and fits the size limit, parses to itself. */
  lemma ParseUndoesPrint(ops: seq<Operation>, layout: Layout)
    requires Printable(ops) && LayoutOk(DocumentTokens(ops), layout)
    requires Utf8Length(Render(DocumentTokens(ops), layout)) <= MAX_BYTES
    ensures ParseGraphql(Render(DocumentTokens(ops), layout)) == Ok(ops)
  {
    hide PrintableOperation, SyntaxTokens, ParseGraphql, Utf8Length, Render, OperationOk, OperationsOf, PlainDocument, LayoutOk;
    PlainDocumentIs(ops);
    SyntaxParses(PlainDocument(ops), layout);
  }
}
