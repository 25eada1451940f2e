/**
 * The recursive-descent GraphQL parser: what each production returns, written
 * as functions of the token sequence and a position.
 */
module GraphqlParser {
  import opened Outcome
  import opened JsText
  import opened GraphqlLexer

  datatype Scalar = Str(text: Text) | Int(value: int) | Float(literal: Text) | Bool(b: bool) | Null

  type Members = seq<Member>

  datatype Member = Member(key: Text, value: Value)

  /** Objects keep their members in insertion order, as JavaScript does. */
  datatype Value =
    | Variable(name: Text)
    | Scalar(scalar: Scalar)
    | List(values: seq<Value>)
    | Object(members: Members)

  datatype Field = Field(name: Text, alias: Option<Text>, arguments: Members, selections: seq<Field>)

  datatype OperationType = Query | Mutation

  datatype Operation = Operation(kind: OperationType, name: Option<Text>, selections: seq<Field>)

  const MAX_SELECTION_DEPTH := 8
  const MAX_FIELDS := 100
  const MAX_VALUE_DEPTH := 16

  /** Names every object literal inherits: reading one as an argument finds a value already there. */
  predicate Inherited(key: Text) {
    || key == T("__proto__") || key == T("constructor") || key == T("hasOwnProperty") || key == T("isPrototypeOf")
    || key == T("propertyIsEnumerable") || key == T("toLocaleString") || key == T("toString") || key == T("valueOf")
    || key == T("__defineGetter__") || key == T("__defineSetter__")
    || key == T("__lookupGetter__") || key == T("__lookupSetter__")
  }

  /** Among names in lower-case letters and digits only `constructor` is inherited. */
  lemma OrdinaryKeysAreNew(key: Text)
    requires forall c <- key :: U('a') <= c <= U('z') || IsDigit(c)
    ensures Inherited(key) <==> key == T("constructor")
  {
    CapitalOrUnderscore("__proto__", 0);
    CapitalOrUnderscore("hasOwnProperty", 3);
    CapitalOrUnderscore("isPrototypeOf", 2);
    CapitalOrUnderscore("propertyIsEnumerable", 8);
    CapitalOrUnderscore("toLocaleString", 2);
    CapitalOrUnderscore("toString", 2);
    CapitalOrUnderscore("valueOf", 5);
    CapitalOrUnderscore("__defineGetter__", 0);
    CapitalOrUnderscore("__defineSetter__", 0);
    CapitalOrUnderscore("__lookupGetter__", 0);
    CapitalOrUnderscore("__lookupSetter__", 0);
    hide T;
  }

  lemma CapitalOrUnderscore(name: string, i: nat)
    requires i < |name| && (name[i] == '_' || 'A' <= name[i] <= 'Z')
    ensures exists c <- T(name) :: !(U('a') <= c <= U('z')) && !IsDigit(c)
  {
    assert T(name)[i] in T(name);
  }

  // -------------------------------------------------- position primitives

  type Parsed<T> = Result<(T, nat), Error>

  /** peek(text): tokens are compared by text alone, whatever their kind. */
  predicate At(ts: seq<Token>, i: nat, text: Text) {
    i < |ts| && ts[i].value == text
  }

  function TakeText(ts: seq<Token>, i: nat, text: Text): (r: Result<nat, Error>)
    ensures r.Ok? ==> At(ts, i, text) && r.value == i + 1
  {
    if i >= |ts| then Err(UnexpectedEnd)
    else if ts[i].value != text then Err(Expected(text))
    else Ok(i + 1)
  }

  function TakeName(ts: seq<Token>, i: nat): (r: Parsed<Text>)
    ensures r.Ok? ==> i < |ts| && ts[i] == Token(Name, r.value.0) && r.value.1 == i + 1
  {
    if i >= |ts| then Err(UnexpectedEnd)
    else if ts[i].kind != Name then Err(ExpectedName)
    else Ok((ts[i].value, i + 1))
  }

  // --------------------------------------------------------------- values

  predicate HasKey(ms: Members, key: Text) {
    exists k :: 0 <= k < |ms| && ms[k].key == key
  }

  /** Assignment to a property of an object literal; `__proto__` sets the prototype instead. */
  function SetMember(ms: Members, key: Text, v: Value): Members {
    if key == T("__proto__") then ms
    else if |ms| == 0 then [Member(key, v)]
    else if ms[0].key == key then [Member(key, v)] + ms[1..]
    else [ms[0]] + SetMember(ms[1..], key, v)
  }

  function ScalarOf(t: Token): Result<Scalar, Error> {
    match t.kind
    case String => Ok(Str(t.value))
    case Number => Ok(if IsFloat(t.value) then Float(t.value) else Int(IntValue(t.value)))
    case Name =>
      if t.value == T("true") then Ok(Bool(true))
      else if t.value == T("false") then Ok(Bool(false))
      else if t.value == T("null") then Ok(Null)
      else Ok(Str(t.value))
    case Punct => Err(InvalidValue)
  }

  function ParseValue(ts: seq<Token>, i: nat, depth: nat): (r: Parsed<Value>)
    requires i <= |ts|
    ensures r.Ok? ==> i < r.value.1 <= |ts|
    decreases |ts| - i, 0
  {
    if depth > MAX_VALUE_DEPTH then Err(ValueTooDeep)
    else if i >= |ts| then Err(ExpectedValue)
    else if ts[i].value == T("$") then
      var (name, j) :- TakeName(ts, i + 1);
      Ok((Variable(name), j))
    else if ts[i].value == T("[") then ParseItems(ts, i + 1, depth, [])
    else if ts[i].value == T("{") then ParseMembers(ts, i + 1, depth, [])
    else
      var scalar :- ScalarOf(ts[i]);
      Ok((Scalar(scalar), i + 1))
  }

  function ParseItems(ts: seq<Token>, i: nat, depth: nat, values: seq<Value>): (r: Parsed<Value>)
    requires i <= |ts|
    ensures r.Ok? ==> i < r.value.1 <= |ts|
    decreases |ts| - i, 1
  {
    if At(ts, i, T("]")) then Ok((List(values), i + 1))
    else
      var (v, j) :- ParseValue(ts, i, depth + 1);
      ParseItems(ts, j, depth, values + [v])
  }

  function ParseMembers(ts: seq<Token>, i: nat, depth: nat, members: Members): (r: Parsed<Value>)
    requires i <= |ts|
    ensures r.Ok? ==> i < r.value.1 <= |ts|
    decreases |ts| - i, 1
  {
    if At(ts, i, T("}")) then Ok((Object(members), i + 1))
    else
      var (key, j) :- TakeName(ts, i);
      var k :- TakeText(ts, j, T(":"));
      var (v, m) :- ParseValue(ts, k, depth + 1);
      ParseMembers(ts, m, depth, SetMember(members, key, v))
  }

  function ParseArgumentList(ts: seq<Token>, i: nat, arguments: Members): (r: Parsed<Members>)
    requires i <= |ts|
    ensures r.Ok? ==> i < r.value.1 <= |ts|
    decreases |ts| - i
  {
    if At(ts, i, T(")")) then Ok((arguments, i + 1))
    else
      var (key, j) :- TakeName(ts, i);
      var k :- TakeText(ts, j, T(":"));
      if HasKey(arguments, key) || Inherited(key) then Err(DuplicateArgument)
      else
        var (v, m) :- ParseValue(ts, k, 0);
        ParseArgumentList(ts, m, arguments + [Member(key, v)])
  }

  function ParseArguments(ts: seq<Token>, i: nat): (r: Parsed<Members>)
    requires i <= |ts|
    ensures r.Ok? ==> i < r.value.1 <= |ts|
  {
    var j :- TakeText(ts, i, T("("));
    ParseArgumentList(ts, j, [])
  }

  // --------------------------------- directives and variable definitions

  function SkipDirective(ts: seq<Token>, i: nat): (r: Result<nat, Error>)
    requires i <= |ts|
    ensures r.Ok? ==> i < r.value <= |ts|
  {
    var j :- TakeText(ts, i, T("@"));
    var (_, k) :- TakeName(ts, j);
    if At(ts, k, T("(")) then
      var (_, m) :- ParseArguments(ts, k);
      Ok(m)
    else Ok(k)
  }

  function SkipDirectives(ts: seq<Token>, i: nat): (r: Result<nat, Error>)
    requires i <= |ts|
    ensures r.Ok? ==> i <= r.value <= |ts|
    decreases |ts| - i
  {
    if At(ts, i, T("@")) then
      var j :- SkipDirective(ts, i);
      SkipDirectives(ts, j)
    else Ok(i)
  }

  function SkipType(ts: seq<Token>, i: nat): (r: Result<nat, Error>)
    requires i <= |ts|
    ensures r.Ok? ==> i < r.value <= |ts|
    decreases |ts| - i
  {
    if At(ts, i, T("[")) then
      var j :- SkipType(ts, i + 1);
      var k :- TakeText(ts, j, T("]"));
      Ok(if At(ts, k, T("!")) then k + 1 else k)
    else
      var (_, k) :- TakeName(ts, i);
      Ok(if At(ts, k, T("!")) then k + 1 else k)
  }

  function SkipDefault(ts: seq<Token>, i: nat): (r: Result<nat, Error>)
    requires i <= |ts|
    ensures r.Ok? ==> i <= r.value <= |ts|
  {
    if At(ts, i, T("=")) then
      var (_, j) :- ParseValue(ts, i + 1, 0);
      Ok(j)
    else Ok(i)
  }

  function SkipDefinition(ts: seq<Token>, i: nat): (r: Result<nat, Error>)
    requires i <= |ts|
    ensures r.Ok? ==> i < r.value <= |ts|
  {
    var j :- TakeText(ts, i, T("$"));
    var (_, k) :- TakeName(ts, j);
    var m :- TakeText(ts, k, T(":"));
    var n :- SkipType(ts, m);
    var o :- SkipDefault(ts, n);
    SkipDirectives(ts, o)
  }

  function SkipDefinitions(ts: seq<Token>, i: nat): (r: Result<nat, Error>)
    requires i <= |ts|
    ensures r.Ok? ==> i < r.value <= |ts|
    decreases |ts| - i
  {
    if At(ts, i, T(")")) then Ok(i + 1)
    else
      var j :- SkipDefinition(ts, i);
      SkipDefinitions(ts, j)
  }

  function SkipVariableDefinitions(ts: seq<Token>, i: nat): (r: Result<nat, Error>)
    requires i <= |ts|
    ensures r.Ok? ==> i < r.value <= |ts|
  {
    var j :- TakeText(ts, i, T("("));
    SkipDefinitions(ts, j)
  }

  // ------------------------------------------------ fields and operations

  function ParseAlias(ts: seq<Token>, i: nat): (r: Parsed<(Text, Option<Text>)>)
    requires i <= |ts|
    ensures r.Ok? ==> i < r.value.1 <= |ts|
  {
    var (first, j) :- TakeName(ts, i);
    if At(ts, j, T(":")) then
      var (name, k) :- TakeName(ts, j + 1);
      Ok(((name, Some(first)), k))
    else Ok(((first, None), j))
  }

  function ParseOptionalArguments(ts: seq<Token>, i: nat): (r: Parsed<Members>)
    requires i <= |ts|
    ensures r.Ok? ==> i <= r.value.1 <= |ts|
  {
    if At(ts, i, T("(")) then ParseArguments(ts, i) else Ok(([], i))
  }

  function ParseSelectionSet(ts: seq<Token>, i: nat, depth: nat): (r: Parsed<seq<Field>>)
    requires i <= |ts|
    ensures r.Ok? ==> i < r.value.1 <= |ts|
    decreases |ts| - i, 2
  {
    if depth > MAX_SELECTION_DEPTH then Err(SelectionTooDeep)
    else
      var j :- TakeText(ts, i, T("{"));
      ParseSelections(ts, j, depth, [])
  }

  function ParseSelections(ts: seq<Token>, i: nat, depth: nat, fields: seq<Field>): (r: Parsed<seq<Field>>)
    requires i <= |ts|
    ensures r.Ok? ==> i < r.value.1 <= |ts|
    decreases |ts| - i, 1
  {
    if At(ts, i, T("}")) then Ok((fields, i + 1))
    else if |fields| >= MAX_FIELDS then Err(TooManyFields)
    else
      var (f, j) :- ParseField(ts, i, depth + 1);
      ParseSelections(ts, j, depth, fields + [f])
  }

  function ParseField(ts: seq<Token>, i: nat, depth: nat): (r: Parsed<Field>)
    requires i <= |ts|
    ensures r.Ok? ==> i < r.value.1 <= |ts|
    decreases |ts| - i, 0
  {
    var ((name, alias), j) :- ParseAlias(ts, i);
    var (arguments, k) :- ParseOptionalArguments(ts, j);
    var m :- SkipDirectives(ts, k);
    if At(ts, m, T("{")) then
      var (selections, n) :- ParseSelectionSet(ts, m, depth);
      Ok((Field(name, alias, arguments, selections), n))
    else Ok((Field(name, alias, arguments, []), m))
  }

  /** query or mutation, and an optional operation name. */
  function ParseHeader(ts: seq<Token>, i: nat): (r: Parsed<(OperationType, Option<Text>)>)
    requires i <= |ts|
    ensures r.Ok? ==> i < r.value.1 <= |ts|
  {
    var (word, j) :- TakeName(ts, i);
    if word == T("subscription") then Err(Subscription)
    else if word != T("query") && word != T("mutation") then Err(UnsupportedOperation)
    else
      var kind := if word == T("query") then Query else Mutation;
      if j < |ts| && ts[j].kind == Name then Ok(((kind, Some(ts[j].value)), j + 1)) else Ok(((kind, None), j))
  }

  function ParseOperation(ts: seq<Token>, i: nat): (r: Parsed<Operation>)
    requires i <= |ts|
    ensures r.Ok? ==> i < r.value.1 <= |ts|
  {
    if At(ts, i, T("{")) then
      var (selections, j) :- ParseSelectionSet(ts, i, 0);
      Ok((Operation(Query, None, selections), j))
    else
      var ((kind, name), j) :- ParseHeader(ts, i);
      var k :- if At(ts, j, T("(")) then SkipVariableDefinitions(ts, j) else Ok(j);
      var m :- SkipDirectives(ts, k);
      var (selections, n) :- ParseSelectionSet(ts, m, 0);
      Ok((Operation(kind, name, selections), n))
  }

  function ParseOperations(ts: seq<Token>, i: nat, operations: seq<Operation>): Result<seq<Operation>, Error>
    requires i <= |ts|
    decreases |ts| - i
  {
    if i == |ts| then (if |operations| == 0 then Err(EmptyDocument) else Ok(operations))
    else
      var (op, j) :- ParseOperation(ts, i);
      ParseOperations(ts, j, operations + [op])
  }

  function ParseGraphql(source: Text): Result<seq<Operation>, Error> {
    var tokens :- Tokenize(source);
    ParseOperations(tokens, 0, [])
  }
}
