/**
 * The parser object: a token list and an index that every production moves.
 * Each method returns what the corresponding function of the token sequence
 * returns, and leaves the index where that function says.
 */
module GraphqlEngine {
  import opened Outcome
  import opened JsText
  import opened GraphqlLexer
  import opened GraphqlParser

  /** An error stops parsing; the index matters only after success. */
  ghost predicate Agrees<T>(r: Result<T, Error>, index: nat, spec: Parsed<T>) {
    if r.Ok? then spec == Ok((r.value, index)) else spec == Err(r.error)
  }

  ghost predicate AgreesSkip(r: Result<(), Error>, index: nat, spec: Result<nat, Error>) {
    if r.Ok? then spec == Ok(index) else spec == Err(r.error)
  }

  class Parser {
    const tokens: seq<Token>
    var index: nat

    constructor (tokens: seq<Token>)
      ensures this.tokens == tokens && index == 0
    {
      this.tokens := tokens;
      index := 0;
    }

    predicate Peek(text: Text)
      reads this
    {
      index < |tokens| && tokens[index].value == text
    }

    method Take(text: Text) returns (r: Result<(), Error>)
      requires index <= |tokens|
      modifies this
      ensures index <= |tokens| && AgreesSkip(r, index, TakeText(tokens, old(index), text))
    {
      if index >= |tokens| { return Err(UnexpectedEnd); }
      if tokens[index].value != text { return Err(Expected(text)); }
      index := index + 1;
      return Ok(());
    }

    method TakeName() returns (r: Result<Text, Error>)
      requires index <= |tokens|
      modifies this
      ensures index <= |tokens| && Agrees(r, index, GraphqlParser.TakeName(tokens, old(index)))
    {
      if index >= |tokens| { return Err(UnexpectedEnd); }
      var token := tokens[index];
      index := index + 1;
      if token.kind != Name { return Err(ExpectedName); }
      return Ok(token.value);
    }

    method Value(depth: nat) returns (r: Result<GraphqlParser.Value, Error>)
      requires index <= |tokens|
      modifies this
      ensures index <= |tokens| && Agrees(r, index, ParseValue(tokens, old(index), depth))
      decreases |tokens| - index, 0
    {
      if depth > MAX_VALUE_DEPTH { return Err(ValueTooDeep); }
      if index >= |tokens| { return Err(ExpectedValue); }
      var token := tokens[index];
      if token.value == T("$") {
        index := index + 1;
        var name :- TakeName();
        return Ok(Variable(name));
      }
      if token.value == T("[") {
        index := index + 1;
        r := Items(depth);
        return;
      }
      if token.value == T("{") {
        index := index + 1;
        r := ObjectMembers(depth);
        return;
      }
      index := index + 1;
      var scalar :- ScalarOf(token);
      return Ok(Scalar(scalar));
    }

    /** The elements of a list value, up to and including the closing bracket. */
    method Items(depth: nat) returns (r: Result<GraphqlParser.Value, Error>)
      requires index <= |tokens|
      modifies this
      ensures index <= |tokens| && Agrees(r, index, ParseItems(tokens, old(index), depth, []))
      decreases |tokens| - index, 1
    {
      hide ParseValue, T;
      ghost var start := index;
      var values: seq<GraphqlParser.Value> := [];
      while !Peek(T("]"))
        invariant start <= index <= |tokens|
        invariant ParseItems(tokens, start, depth, []) == ParseItems(tokens, index, depth, values)
        decreases |tokens| - index
      {
        var v :- Value(depth + 1);
        values := values + [v];
      }
      index := index + 1;
      return Ok(List(values));
    }

    /** The members of an object value, up to and including the closing brace. */
    method ObjectMembers(depth: nat) returns (r: Result<GraphqlParser.Value, Error>)
      requires index <= |tokens|
      modifies this
      ensures index <= |tokens| && Agrees(r, index, ParseMembers(tokens, old(index), depth, []))
      decreases |tokens| - index, 1
    {
      hide ParseValue, SetMember, T;
      ghost var start := index;
      var members: Members := [];
      while !Peek(T("}"))
        invariant start <= index <= |tokens|
        invariant ParseMembers(tokens, start, depth, []) == ParseMembers(tokens, index, depth, members)
        decreases |tokens| - index
      {
        var key :- TakeName();
        var _ :- Take(T(":"));
        var v :- Value(depth + 1);
        members := SetMember(members, key, v);
      }
      index := index + 1;
      return Ok(Object(members));
    }

    method Arguments() returns (r: Result<Members, Error>)
      requires index <= |tokens|
      modifies this
      ensures index <= |tokens| && Agrees(r, index, ParseArguments(tokens, old(index)))
    {
      ghost var start := index;
      var _ :- Take(T("("));
      var arguments: Members := [];
      while !Peek(T(")"))
        invariant start < index <= |tokens|
        invariant ParseArguments(tokens, start) == ParseArgumentList(tokens, index, arguments)
        decreases |tokens| - index
      {
        hide *;
        arguments :- Argument(arguments);
      }
      index := index + 1;
      return Ok(arguments);
    }

    /** One round of the argument loop. */
    method Argument(arguments: Members) returns (r: Result<Members, Error>)
      requires index <= |tokens| && !Peek(T(")"))
      modifies this
      ensures index <= |tokens|
      ensures r.Ok? ==> old(index) < index
      ensures r.Ok? ==> ParseArgumentList(tokens, old(index), arguments) == ParseArgumentList(tokens, index, r.value)
      ensures r.Err? ==> ParseArgumentList(tokens, old(index), arguments) == Err(r.error)
    {
      var key :- TakeName();
      var _ :- Take(T(":"));
      if HasKey(arguments, key) || Inherited(key) { return Err(DuplicateArgument); }
      var v :- Value(0);
      return Ok(arguments + [Member(key, v)]);
    }

    method Directive() returns (r: Result<(), Error>)
      requires index <= |tokens|
      modifies this
      ensures index <= |tokens| && AgreesSkip(r, index, SkipDirective(tokens, old(index)))
    {
      var _ :- Take(T("@"));
      var _ :- TakeName();
      if Peek(T("(")) { var _ :- Arguments(); }
      return Ok(());
    }

    method Directives() returns (r: Result<(), Error>)
      requires index <= |tokens|
      modifies this
      ensures index <= |tokens| && AgreesSkip(r, index, SkipDirectives(tokens, old(index)))
    {
      ghost var start := index;
      while Peek(T("@"))
        invariant start <= index <= |tokens|
        invariant SkipDirectives(tokens, start) == SkipDirectives(tokens, index)
        decreases |tokens| - index
      {
        var _ :- Directive();
      }
      return Ok(());
    }

    method TypeReference() returns (r: Result<(), Error>)
      requires index <= |tokens|
      modifies this
      ensures index <= |tokens| && AgreesSkip(r, index, SkipType(tokens, old(index)))
      decreases |tokens| - index
    {
      if Peek(T("[")) {
        index := index + 1;
        var _ :- TypeReference();
        var _ :- Take(T("]"));
      } else {
        var _ :- TakeName();
      }
      if Peek(T("!")) { index := index + 1; }
      return Ok(());
    }

    method VariableDefinition() returns (r: Result<(), Error>)
      requires index <= |tokens|
      modifies this
      ensures index <= |tokens| && AgreesSkip(r, index, SkipDefinition(tokens, old(index)))
    {
      var _ :- Take(T("$"));
      var _ :- TakeName();
      var _ :- Take(T(":"));
      var _ :- TypeReference();
      if Peek(T("=")) {
        index := index + 1;
        var _ :- Value(0);
      }
      r := Directives();
    }

    method VariableDefinitions() returns (r: Result<(), Error>)
      requires index <= |tokens|
      modifies this
      ensures index <= |tokens| && AgreesSkip(r, index, SkipVariableDefinitions(tokens, old(index)))
    {
      ghost var start := index;
      var _ :- Take(T("("));
      while !Peek(T(")"))
        invariant start < index <= |tokens|
        invariant SkipVariableDefinitions(tokens, start) == SkipDefinitions(tokens, index)
        decreases |tokens| - index
      {
        var _ :- VariableDefinition();
      }
      index := index + 1;
      return Ok(());
    }

    method SelectionSet(depth: nat) returns (r: Result<seq<Field>, Error>)
      requires index <= |tokens|
      modifies this
      ensures index <= |tokens| && Agrees(r, index, ParseSelectionSet(tokens, old(index), depth))
      decreases |tokens| - index, 1
    {
      if depth > MAX_SELECTION_DEPTH { return Err(SelectionTooDeep); }
      ghost var start := index;
      var _ :- Take(T("{"));
      var fields: seq<Field> := [];
      while !Peek(T("}"))
        invariant start < index <= |tokens|
        invariant ParseSelectionSet(tokens, start, depth) == ParseSelections(tokens, index, depth, fields)
        decreases |tokens| - index
      {
        if |fields| >= MAX_FIELDS { return Err(TooManyFields); }
        ghost var here := index;
        var f :- ParseOneField(depth + 1);
        assert here < index;
        fields := fields + [f];
      }
      index := index + 1;
      return Ok(fields);
    }

    method ParseOneField(depth: nat) returns (r: Result<Field, Error>)
      requires index <= |tokens|
      modifies this
      ensures index <= |tokens| && Agrees(r, index, ParseField(tokens, old(index), depth))
      decreases |tokens| - index, 0
    {
      hide T, ParseArguments, SkipDirectives, ParseSelectionSet;
      ghost var start := index;
      var first :- TakeName();
      var name := first;
      var alias: Option<Text> := None;
      if Peek(T(":")) {
        index := index + 1;
        alias := Some(first);
        name :- TakeName();
      }
      assert ParseAlias(tokens, start) == Ok(((name, alias), index));
      var arguments: Members := [];
      if Peek(T("(")) { arguments :- Arguments(); }
      var _ :- Directives();
      var selections: seq<Field> := [];
      if Peek(T("{")) { selections :- SelectionSet(depth); }
      return Ok(Field(name, alias, arguments, selections));
    }

    method Operation() returns (r: Result<GraphqlParser.Operation, Error>)
      requires index <= |tokens|
      modifies this
      ensures index <= |tokens| && Agrees(r, index, ParseOperation(tokens, old(index)))
    {
      if Peek(T("{")) {
        var selections :- SelectionSet(0);
        return Ok(GraphqlParser.Operation(Query, None, selections));
      }
      ghost var start := index;
      var word :- TakeName();
      if word == T("subscription") { return Err(Subscription); }
      if word != T("query") && word != T("mutation") { return Err(UnsupportedOperation); }
      var kind := if word == T("query") then Query else Mutation;
      var name: Option<Text> := None;
      if index < |tokens| && tokens[index].kind == Name {
        var given :- TakeName();
        name := Some(given);
      }
      assert ParseHeader(tokens, start) == Ok(((kind, name), index));
      hide ParseHeader, ParseSelectionSet, SkipVariableDefinitions, SkipDirectives, T;
      if Peek(T("(")) { var _ :- VariableDefinitions(); }
      var _ :- Directives();
      var selections :- SelectionSet(0);
      return Ok(GraphqlParser.Operation(kind, name, selections));
    }

    method Document() returns (r: Result<seq<GraphqlParser.Operation>, Error>)
      requires index == 0
      modifies this
      ensures r == ParseOperations(tokens, 0, [])
    {
      var operations: seq<GraphqlParser.Operation> := [];
      while index < |tokens|
        invariant index <= |tokens|
        invariant ParseOperations(tokens, 0, []) == ParseOperations(tokens, index, operations)
        decreases |tokens| - index
      {
        var op :- Operation();
        operations := operations + [op];
      }
      if |operations| == 0 { return Err(EmptyDocument); }
      return Ok(operations);
    }
  }

  method ParseSource(source: Text) returns (r: Result<seq<GraphqlParser.Operation>, Error>)
    ensures r == ParseGraphql(source)
  {
    var tokens :- TokenizeSource(source);
    var parser := new Parser(tokens);
    r := parser.Document();
  }
}
