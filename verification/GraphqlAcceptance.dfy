/**
 * Everything the parser accepts is printable: names are names, keys are
 * distinct, the field and depth limits hold, and no string is left that the
 * parser would take for syntax.  Printing is therefore a normal form.
 */
module GraphqlAcceptance {
  import opened Outcome
  import opened JsText
  import opened GraphqlLexer
  import opened GraphqlParser
  import opened GraphqlSyntax
  import opened GraphqlRoundTrip

  lemma NameIsName(ts: seq<Token>, i: nat)
    requires TokensOk(ts) && TakeName(ts, i).Ok?
    ensures IsName(TakeName(ts, i).value.0)
  {
    assert TokenOk(ts[i]);
  }

  lemma ScalarIsPrintable(t: Token, depth: nat)
    requires TokenOk(t) && ScalarOf(t).Ok? && depth <= MAX_VALUE_DEPTH
    requires t.value != T("$") && t.value != T("[") && t.value != T("{")
    ensures PrintableValue(Scalar(ScalarOf(t).value), depth)
    ensures t.value != T("]") ==> !ClosesList(Scalar(ScalarOf(t).value))
  {
  }

  /** What one call of value() returns, by the text of its first token. */
  lemma ValueCases(ts: seq<Token>, i: nat, depth: nat)
    requires i <= |ts| && ParseValue(ts, i, depth).Ok?
    ensures depth <= MAX_VALUE_DEPTH && i < |ts|
    ensures var text := ts[i].value; var r := ParseValue(ts, i, depth);
      if text == T("$") then TakeName(ts, i + 1).Ok? && r.value.0 == Variable(TakeName(ts, i + 1).value.0)
      else if text == T("[") then r == ParseItems(ts, i + 1, depth, [])
      else if text == T("{") then r == ParseMembers(ts, i + 1, depth, [])
      else ScalarOf(ts[i]).Ok? && r == Ok((Scalar(ScalarOf(ts[i]).value), i + 1))
  {
    hide T;
  }

  lemma ItemsCases(ts: seq<Token>, i: nat, depth: nat, values: seq<Value>)
    requires i <= |ts| && ParseItems(ts, i, depth, values).Ok?
    ensures At(ts, i, T("]")) ==> ParseItems(ts, i, depth, values).value.0 == List(values)
    ensures !At(ts, i, T("]")) ==>
      && ParseValue(ts, i, depth + 1).Ok?
      && var (v, j) := ParseValue(ts, i, depth + 1).value;
      i < j <= |ts| && ParseItems(ts, i, depth, values) == ParseItems(ts, j, depth, values + [v])
  {
    hide T, ParseValue;
  }

  lemma MembersCases(ts: seq<Token>, i: nat, depth: nat, members: Members)
    requires i <= |ts| && ParseMembers(ts, i, depth, members).Ok?
    ensures At(ts, i, T("}")) ==> ParseMembers(ts, i, depth, members).value.0 == Object(members)
    ensures !At(ts, i, T("}")) ==>
      && TakeName(ts, i).Ok? && i + 2 <= |ts| && ParseValue(ts, i + 2, depth + 1).Ok?
      && var (v, j) := ParseValue(ts, i + 2, depth + 1).value;
      && i < j <= |ts|
      && ParseMembers(ts, i, depth, members) == ParseMembers(ts, j, depth, SetMember(members, TakeName(ts, i).value.0, v))
  {
    hide T, ParseValue, SetMember;
  }

  lemma {:induction false} SetMemberFrom(ms: Members, key: Text, v: Value)
    ensures forall m <- SetMember(ms, key, v) :: m in ms || (m == Member(key, v) && key != T("__proto__"))
  {
    hide T;
    if |ms| > 0 { SetMemberFrom(ms[1..], key, v); }
  }

  lemma {:induction false} SetMemberDistinct(ms: Members, key: Text, v: Value)
    requires DistinctKeys(ms)
    ensures DistinctKeys(SetMember(ms, key, v))
  {
    hide T;
    if key != T("__proto__") && |ms| > 0 && ms[0].key != key {
      SetMemberDistinct(ms[1..], key, v);
      SetMemberFrom(ms[1..], key, v);
      var rest := SetMember(ms[1..], key, v);
      forall k | 0 <= k < |rest| ensures rest[k].key != ms[0].key {
        assert rest[k] in rest;
      }
    }
  }

  lemma SetMemberKeys(ms: Members, key: Text, v: Value, depth: nat)
    requires MembersOk(ms, depth) && IsName(key) && PrintableValue(v, depth)
    ensures MembersOk(SetMember(ms, key, v), depth)
  {
    hide IsName, PrintableValue, T, SetMember, DistinctKeys;
    SetMemberFrom(ms, key, v);
    SetMemberDistinct(ms, key, v);
  }

  lemma ListIsPrintable(values: seq<Value>, depth: nat)
    requires depth <= MAX_VALUE_DEPTH && forall x <- values :: !ClosesList(x) && PrintableValue(x, depth + 1)
    ensures PrintableValue(List(values), depth) && !ClosesList(List(values))
  {
  }

  lemma ObjectIsPrintable(members: Members, depth: nat)
    requires depth <= MAX_VALUE_DEPTH && MembersOk(members, depth + 1)
    ensures PrintableValue(Object(members), depth) && !ClosesList(Object(members))
  {
  }

  lemma VariableIsPrintable(name: Text, depth: nat)
    requires depth <= MAX_VALUE_DEPTH && IsName(name)
    ensures PrintableValue(Variable(name), depth) && !ClosesList(Variable(name))
  {
  }

  lemma NoMembersYet(depth: nat)
    ensures MembersOk([], depth)
  {
  }

  lemma TokenAt(ts: seq<Token>, i: nat)
    requires TokensOk(ts) && i < |ts|
    ensures TokenOk(ts[i]) && (At(ts, i, T("]")) <==> ts[i].value == T("]"))
  {
    hide T, TokenOk;
  }

  lemma {:induction false} ValueAccepted(ts: seq<Token>, i: nat, depth: nat)
    requires TokensOk(ts) && i <= |ts| && ParseValue(ts, i, depth).Ok?
    ensures PrintableValue(ParseValue(ts, i, depth).value.0, depth)
    ensures !At(ts, i, T("]")) ==> !ClosesList(ParseValue(ts, i, depth).value.0)
    decreases |ts| - i, 0
  {
    hide *;
    ValueCases(ts, i, depth);
    TokenAt(ts, i);
    var text := ts[i].value;
    if text == T("$") {
      NameIsName(ts, i + 1);
      VariableIsPrintable(TakeName(ts, i + 1).value.0, depth);
    } else if text == T("[") {
      ItemsAccepted(ts, i + 1, depth, []);
    } else if text == T("{") {
      NoMembersYet(depth + 1);
      MembersAccepted(ts, i + 1, depth, []);
    } else {
      ScalarIsPrintable(ts[i], depth);
    }
  }

  lemma {:induction false} ItemsAccepted(ts: seq<Token>, i: nat, depth: nat, values: seq<Value>)
    requires TokensOk(ts) && i <= |ts| && depth <= MAX_VALUE_DEPTH && ParseItems(ts, i, depth, values).Ok?
    requires forall x <- values :: !ClosesList(x) && PrintableValue(x, depth + 1)
    ensures PrintableValue(ParseItems(ts, i, depth, values).value.0, depth)
    ensures !ClosesList(ParseItems(ts, i, depth, values).value.0)
    decreases |ts| - i, 1
  {
    hide *;
    ItemsCases(ts, i, depth, values);
    if At(ts, i, T("]")) {
      ListIsPrintable(values, depth);
    } else {
      ValueAccepted(ts, i, depth + 1);
      var (v, j) := ParseValue(ts, i, depth + 1).value;
      ItemsAccepted(ts, j, depth, values + [v]);
    }
  }

  lemma {:induction false} MembersAccepted(ts: seq<Token>, i: nat, depth: nat, members: Members)
    requires TokensOk(ts) && i <= |ts| && depth <= MAX_VALUE_DEPTH && ParseMembers(ts, i, depth, members).Ok?
    requires MembersOk(members, depth + 1)
    ensures PrintableValue(ParseMembers(ts, i, depth, members).value.0, depth)
    ensures !ClosesList(ParseMembers(ts, i, depth, members).value.0)
    decreases |ts| - i, 1
  {
    hide *;
    MembersCases(ts, i, depth, members);
    if At(ts, i, T("}")) {
      ObjectIsPrintable(members, depth);
    } else {
      NameIsName(ts, i);
      ValueAccepted(ts, i + 2, depth + 1);
      var (v, j) := ParseValue(ts, i + 2, depth + 1).value;
      SetMemberKeys(members, TakeName(ts, i).value.0, v, depth + 1);
      MembersAccepted(ts, j, depth, SetMember(members, TakeName(ts, i).value.0, v));
    }
  }

  lemma ArgumentListCases(ts: seq<Token>, i: nat, arguments: Members)
    requires i <= |ts| && ParseArgumentList(ts, i, arguments).Ok?
    ensures At(ts, i, T(")")) ==> ParseArgumentList(ts, i, arguments).value.0 == arguments
    ensures !At(ts, i, T(")")) ==>
      && TakeName(ts, i).Ok? && i + 2 <= |ts| && ParseValue(ts, i + 2, 0).Ok?
      && var key := TakeName(ts, i).value.0;
      var (v, j) := ParseValue(ts, i + 2, 0).value;
      && i < j <= |ts| && !HasKey(arguments, key) && !Inherited(key)
      && ParseArgumentList(ts, i, arguments) == ParseArgumentList(ts, j, arguments + [Member(key, v)])
  {
    hide T, ParseValue, Inherited, HasKey;
  }

  lemma ArgumentIsPrintable(arguments: Members, key: Text, v: Value)
    requires PrintableArguments(arguments) && !HasKey(arguments, key)
    requires IsName(key) && !Inherited(key) && PrintableValue(v, 0)
    ensures PrintableArguments(arguments + [Member(key, v)])
  {
    hide Inherited, IsName, PrintableValue;
  }

  lemma {:induction false} ArgumentListAccepted(ts: seq<Token>, i: nat, arguments: Members)
    requires TokensOk(ts) && i <= |ts| && ParseArgumentList(ts, i, arguments).Ok? && PrintableArguments(arguments)
    ensures PrintableArguments(ParseArgumentList(ts, i, arguments).value.0)
    decreases |ts| - i
  {
    hide *;
    ArgumentListCases(ts, i, arguments);
    if !At(ts, i, T(")")) {
      NameIsName(ts, i);
      ValueAccepted(ts, i + 2, 0);
      var key := TakeName(ts, i).value.0;
      var (v, j) := ParseValue(ts, i + 2, 0).value;
      ArgumentIsPrintable(arguments, key, v);
      ArgumentListAccepted(ts, j, arguments + [Member(key, v)]);
    }
  }

  lemma ArgumentsAccepted(ts: seq<Token>, i: nat)
    requires TokensOk(ts) && i <= |ts| && ParseOptionalArguments(ts, i).Ok?
    ensures PrintableArguments(ParseOptionalArguments(ts, i).value.0)
  {
    hide T, Inherited, TokensOk, ParseArgumentList;
    assert PrintableArguments([]);
    if At(ts, i, T("(")) {
      ArgumentListAccepted(ts, i + 1, []);
    }
  }

  lemma AliasAccepted(ts: seq<Token>, i: nat)
    requires TokensOk(ts) && i <= |ts| && ParseAlias(ts, i).Ok?
    ensures var (name, alias) := ParseAlias(ts, i).value.0;
            IsName(name) && (alias.Some? ==> IsName(alias.value))
  {
    hide T, IsName, TokensOk;
    NameIsName(ts, i);
    if At(ts, i + 1, T(":")) { NameIsName(ts, i + 2); }
  }

  lemma FieldCases(ts: seq<Token>, i: nat, depth: nat)
    requires i <= |ts| && ParseField(ts, i, depth).Ok?
    ensures ParseAlias(ts, i).Ok?
    ensures var ((name, alias), j) := ParseAlias(ts, i).value;
      && i < j <= |ts| && ParseOptionalArguments(ts, j).Ok?
      && var (arguments, k) := ParseOptionalArguments(ts, j).value;
      && j <= k <= |ts| && SkipDirectives(ts, k).Ok?
      && var m := SkipDirectives(ts, k).value;
      && k <= m <= |ts|
      && var f := ParseField(ts, i, depth).value.0;
      && f.name == name && f.alias == alias && f.arguments == arguments
      && if At(ts, m, T("{")) then ParseSelectionSet(ts, m, depth).Ok? && f.selections == ParseSelectionSet(ts, m, depth).value.0
         else f.selections == []
  {
    hide T, ParseAlias, ParseOptionalArguments, SkipDirectives, ParseSelectionSet;
  }

  lemma FieldIsPrintable(f: Field, depth: nat)
    requires IsName(f.name) && (f.alias.Some? ==> IsName(f.alias.value)) && PrintableArguments(f.arguments)
    requires |f.selections| <= MAX_FIELDS && (|f.selections| > 0 ==> depth <= MAX_SELECTION_DEPTH)
    requires forall g <- f.selections :: PrintableField(g, depth + 1)
    ensures PrintableField(f, depth)
  {
  }

  lemma SelectionSetCases(ts: seq<Token>, i: nat, depth: nat)
    requires i <= |ts| && ParseSelectionSet(ts, i, depth).Ok?
    ensures depth <= MAX_SELECTION_DEPTH && i < |ts| && ParseSelectionSet(ts, i, depth) == ParseSelections(ts, i + 1, depth, [])
  {
    hide T, ParseSelections;
  }

  lemma SelectionsCases(ts: seq<Token>, i: nat, depth: nat, fields: seq<Field>)
    requires i <= |ts| && ParseSelections(ts, i, depth, fields).Ok?
    ensures At(ts, i, T("}")) ==> ParseSelections(ts, i, depth, fields).value.0 == fields
    ensures !At(ts, i, T("}")) ==>
      && |fields| < MAX_FIELDS && ParseField(ts, i, depth + 1).Ok?
      && var (f, j) := ParseField(ts, i, depth + 1).value;
      i < j <= |ts| && ParseSelections(ts, i, depth, fields) == ParseSelections(ts, j, depth, fields + [f])
  {
    hide T, ParseField;
  }

  lemma FieldLimits()
    ensures 0 <= MAX_FIELDS && 0 <= MAX_SELECTION_DEPTH
  {
  }

  lemma {:induction false} FieldAccepted(ts: seq<Token>, i: nat, depth: nat)
    requires TokensOk(ts) && i <= |ts| && ParseField(ts, i, depth).Ok?
    ensures PrintableField(ParseField(ts, i, depth).value.0, depth)
    decreases |ts| - i, 0
  {
    hide *;
    FieldCases(ts, i, depth);
    FieldLimits();
    var f := ParseField(ts, i, depth).value.0;
    var j := ParseAlias(ts, i).value.1;
    AliasAccepted(ts, i);
    ArgumentsAccepted(ts, j);
    var m := SkipDirectives(ts, ParseOptionalArguments(ts, j).value.1).value;
    if At(ts, m, T("{")) { SelectionSetAccepted(ts, m, depth); }
    FieldIsPrintable(f, depth);
  }

  lemma {:induction false} SelectionSetAccepted(ts: seq<Token>, i: nat, depth: nat)
    requires TokensOk(ts) && i <= |ts| && ParseSelectionSet(ts, i, depth).Ok?
    ensures depth <= MAX_SELECTION_DEPTH && |ParseSelectionSet(ts, i, depth).value.0| <= MAX_FIELDS
    ensures forall f <- ParseSelectionSet(ts, i, depth).value.0 :: PrintableField(f, depth + 1)
    decreases |ts| - i, 2
  {
    hide *;
    FieldLimits();
    SelectionSetCases(ts, i, depth);
    SelectionsAccepted(ts, i + 1, depth, []);
  }

  lemma {:induction false} SelectionsAccepted(ts: seq<Token>, i: nat, depth: nat, fields: seq<Field>)
    requires TokensOk(ts) && i <= |ts| && ParseSelections(ts, i, depth, fields).Ok?
    requires |fields| <= MAX_FIELDS && forall f <- fields :: PrintableField(f, depth + 1)
    ensures |ParseSelections(ts, i, depth, fields).value.0| <= MAX_FIELDS
    ensures forall f <- ParseSelections(ts, i, depth, fields).value.0 :: PrintableField(f, depth + 1)
    decreases |ts| - i, 1
  {
    hide *;
    SelectionsCases(ts, i, depth, fields);
    if !At(ts, i, T("}")) {
      FieldAccepted(ts, i, depth + 1);
      var (f, j) := ParseField(ts, i, depth + 1).value;
      SelectionsAccepted(ts, j, depth, fields + [f]);
    }
  }

  lemma HeaderAccepted(ts: seq<Token>, i: nat)
    requires TokensOk(ts) && i <= |ts| && ParseHeader(ts, i).Ok?
    ensures var name := ParseHeader(ts, i).value.0.1; name.Some? ==> IsName(name.value)
  {
    hide T, IsName;
    NameIsName(ts, i);
    if i + 1 < |ts| && ts[i + 1].kind == Name { NameIsName(ts, i + 1); }
  }

  lemma OperationCases(ts: seq<Token>, i: nat)
    requires i <= |ts| && ParseOperation(ts, i).Ok?
    ensures var op := ParseOperation(ts, i).value.0;
      exists m: nat :: m <= |ts| && ParseSelectionSet(ts, m, 0).Ok? && op.selections == ParseSelectionSet(ts, m, 0).value.0
    ensures var op := ParseOperation(ts, i).value.0;
      op.name.Some? ==> ParseHeader(ts, i).Ok? && op.name == ParseHeader(ts, i).value.0.1
  {
    hide T, ParseSelectionSet, ParseHeader, SkipVariableDefinitions, SkipDirectives;
    if At(ts, i, T("{")) {
      assert ParseSelectionSet(ts, i, 0).Ok?;
    } else {
      var j := ParseHeader(ts, i).value.1;
      var k := if At(ts, j, T("(")) then SkipVariableDefinitions(ts, j).value else j;
      var m := SkipDirectives(ts, k).value;
      assert ParseSelectionSet(ts, m, 0).Ok?;
    }
  }

  lemma OperationAccepted(ts: seq<Token>, i: nat)
    requires TokensOk(ts) && i <= |ts| && ParseOperation(ts, i).Ok?
    ensures PrintableOperation(ParseOperation(ts, i).value.0)
  {
    hide TokensOk, ParseOperation, ParseSelectionSet, ParseHeader, PrintableField, IsName;
    OperationCases(ts, i);
    var op := ParseOperation(ts, i).value.0;
    if op.name.Some? { HeaderAccepted(ts, i); }
    var m: nat :| m <= |ts| && ParseSelectionSet(ts, m, 0).Ok? && op.selections == ParseSelectionSet(ts, m, 0).value.0;
    SelectionSetAccepted(ts, m, 0);
  }

  lemma {:induction false} OperationsAccepted(ts: seq<Token>, i: nat, done: seq<Operation>)
    requires TokensOk(ts) && i <= |ts| && ParseOperations(ts, i, done).Ok? && forall op <- done :: PrintableOperation(op)
    ensures Printable(ParseOperations(ts, i, done).value)
    decreases |ts| - i
  {
    hide TokensOk, ParseOperation, PrintableOperation;
    if i < |ts| {
      OperationAccepted(ts, i);
      var (op, j) := ParseOperation(ts, i).value;
      OperationsAccepted(ts, j, done + [op]);
    }
  }

  /** Accepted documents are printable; in particular they keep every limit. */
  lemma AcceptedIsPrintable(source: Text)
    requires ParseGraphql(source).Ok?
    ensures Printable(ParseGraphql(source).value)
  {
    LexYieldsTokens(source, 0, []);
    OperationsAccepted(Tokenize(source).value, 0, []);
  }

  /** Printing an accepted document, in any layout that fits, and parsing it again changes nothing. */
  lemma PrintingIsANormalForm(source: Text, layout: Layout)
    requires ParseGraphql(source).Ok?
    requires var ts := DocumentTokens(ParseGraphql(source).value);
             LayoutOk(ts, layout) && Utf8Length(Render(ts, layout)) <= MAX_BYTES
    ensures ParseGraphql(Render(DocumentTokens(ParseGraphql(source).value), layout)) == ParseGraphql(source)
  {
    AcceptedIsPrintable(source);
    ParseUndoesPrint(ParseGraphql(source).value, layout);
  }

  /**
   * The round trip holds exactly on printable documents: when the printed text
   * fits, it parses to the document printed if and only if that is printable.
   */
  lemma RoundTripsExactlyWhenPrintable(ops: seq<Operation>, layout: Layout)
    requires LayoutOk(DocumentTokens(ops), layout) && Utf8Length(Render(DocumentTokens(ops), layout)) <= MAX_BYTES
    ensures ParseGraphql(Render(DocumentTokens(ops), layout)) == Ok(ops) <==> Printable(ops)
  {
    if Printable(ops) {
      ParseUndoesPrint(ops, layout);
    } else if ParseGraphql(Render(DocumentTokens(ops), layout)) == Ok(ops) {
      AcceptedIsPrintable(Render(DocumentTokens(ops), layout));
    }
  }

  // ----------------------------------------------------- the limits, exactly

  const A: Text := [U('a')]

  function Leaves(n: nat): seq<Field> { seq(n, _ => Field(A, None, [], [])) }

  /** n selection sets, each in the only field of the one around it. */
  function Nest(n: nat): seq<Field> { if n == 0 then [] else [Field(A, None, [], Nest(n - 1))] }

  /** n lists, each the only item of the one around it, around an empty list. */
  function Lists(n: nat): Value { List(if n == 0 then [] else [Lists(n - 1)]) }

  function QueryOf(fields: seq<Field>): seq<Operation> { [Operation(Query, None, fields)] }

  lemma OneOperation(fields: seq<Field>)
    ensures Printable(QueryOf(fields)) <==> |fields| <= 100 && forall f <- fields :: PrintableField(f, 1)
  {
    hide PrintableField;
    var op := Operation(Query, None, fields);
    assert QueryOf(fields) == [op];
    assert Printable([op]) <==> PrintableOperation(op);
  }

  lemma LetterIsName()
    ensures IsName(A) && !Inherited(A)
  {
  }

  lemma LeafIsPrintable(depth: nat)
    ensures PrintableField(Field(A, None, [], []), depth)
  {
    LetterIsName();
  }

  /** A selection set holds up to 100 fields. */
  lemma WidthIsLimitedExactly(n: nat, layout: Layout)
    requires var ts := DocumentTokens(QueryOf(Leaves(n)));
             LayoutOk(ts, layout) && Utf8Length(Render(ts, layout)) <= MAX_BYTES
    ensures ParseGraphql(Render(DocumentTokens(QueryOf(Leaves(n))), layout)) == Ok(QueryOf(Leaves(n))) <==> n <= 100
  {
    hide PrintableField, ParseGraphql, Render, DocumentTokens, Printable, LayoutOk, Utf8Length;
    RoundTripsExactlyWhenPrintable(QueryOf(Leaves(n)), layout);
    LeafIsPrintable(1);
    OneOperation(Leaves(n));
  }

  lemma {:induction false} NestIsPrintable(n: nat, depth: nat)
    requires n > 0
    ensures PrintableField(Nest(n)[0], depth) <==> n == 1 || depth + n - 2 <= 8
  {
    LetterIsName();
    if n > 1 {
      NestIsPrintable(n - 1, depth + 1);
      assert Nest(n - 1)[0] in Nest(n - 1);
    }
    hide IsName, Inherited;
  }

  /** Selection sets nest up to nine deep: the outermost at depth 0, the innermost at depth 8. */
  lemma NestingIsLimitedExactly(n: nat, layout: Layout)
    requires n > 0
    requires var ts := DocumentTokens(QueryOf(Nest(n)));
             LayoutOk(ts, layout) && Utf8Length(Render(ts, layout)) <= MAX_BYTES
    ensures ParseGraphql(Render(DocumentTokens(QueryOf(Nest(n))), layout)) == Ok(QueryOf(Nest(n))) <==> n <= 9
  {
    hide PrintableField, ParseGraphql, Render, DocumentTokens, Printable, LayoutOk, Utf8Length;
    RoundTripsExactlyWhenPrintable(QueryOf(Nest(n)), layout);
    NestIsPrintable(n, 1);
    assert |Nest(n)| == 1 && Nest(n)[0] in Nest(n);
    OneOperation(Nest(n));
  }

  lemma {:induction false} ListsArePrintable(n: nat, depth: nat)
    ensures PrintableValue(Lists(n), depth) <==> depth + n <= 16
  {
    if n > 0 {
      ListsArePrintable(n - 1, depth + 1);
      assert Lists(n).values == [Lists(n - 1)] && Lists(n - 1) in Lists(n).values;
    }
  }

  function Argument(v: Value): seq<Field> { [Field(A, None, [Member(A, v)], [])] }

  lemma OneArgumentIsPrintable(v: Value)
    ensures PrintableField(Argument(v)[0], 1) <==> PrintableValue(v, 0)
  {
    LetterIsName();
    hide IsName, Inherited, PrintableValue;
    assert Member(A, v) in Argument(v)[0].arguments;
  }

  /** Sixteen lists may stand around an empty one. */
  lemma ValueDepthIsLimitedExactly(n: nat, layout: Layout)
    requires var ts := DocumentTokens(QueryOf(Argument(Lists(n))));
             LayoutOk(ts, layout) && Utf8Length(Render(ts, layout)) <= MAX_BYTES
    ensures ParseGraphql(Render(DocumentTokens(QueryOf(Argument(Lists(n)))), layout)) == Ok(QueryOf(Argument(Lists(n)))) <==> n <= 16
  {
    hide PrintableField, PrintableValue, ParseGraphql, Render, DocumentTokens, Printable, LayoutOk, Utf8Length, Lists;
    RoundTripsExactlyWhenPrintable(QueryOf(Argument(Lists(n))), layout);
    ListsArePrintable(n, 0);
    OneArgumentIsPrintable(Lists(n));
    assert Argument(Lists(n))[0] in Argument(Lists(n));
    OneOperation(Argument(Lists(n)));
  }
}
