/**
 * The syntax of documents as trees: how they are spelled in tokens, what the
 * parser keeps of them, and which of them it can read.
 */
module GraphqlSyntax {
  import opened Outcome
  import opened JsText
  import opened GraphqlLexer
  import opened GraphqlParser

  // -------------------------------------------------------------- printer

  function N(name: Text): Token { Token(Name, name) }
  function P(punct: string): Token { Token(Punct, T(punct)) }

  function ScalarToken(s: Scalar): Token {
    match s
    case Str(text) => Token(String, text)
    case Int(value) => Token(Number, IntText(value))
    case Float(literal) => Token(Number, literal)
    case Bool(b) => N(if b then T("true") else T("false"))
    case Null => N(T("null"))
  }

  function ValueTokens(v: Value): seq<Token>
    decreases v, 0
  {
    match v
    case Variable(name) => [P("$"), N(name)]
    case Scalar(s) => [ScalarToken(s)]
    case List(values) => [P("[")] + (ItemsTokens(values) + [P("]")])
    case Object(members) => [P("{")] + (MembersTokens(members) + [P("}")])
  }

  function ItemsTokens(values: seq<Value>): seq<Token>
    decreases values, 1
  {
    if |values| == 0 then [] else ValueTokens(values[0]) + ItemsTokens(values[1..])
  }

  function MembersTokens(ms: Members): seq<Token>
    decreases ms, 1
  {
    if |ms| == 0 then [] else
      assert ms[0].value < ms[0];
      [N(ms[0].key), P(":")] + (ValueTokens(ms[0].value) + MembersTokens(ms[1..]))
  }

  // --------------------------------------------------------- syntax trees

  /** A type: a name or a bracketed type, each with or without an exclamation mark. */
  datatype TypeReference = Named(name: Text, required: bool) | ListOf(items: TypeReference, required: bool)

  /** `arguments` is None without parentheses; between them there may be nothing. */
  datatype Directive = Directive(name: Text, arguments: Option<Members>)

  datatype VariableDefinition =
    VariableDefinition(name: Text, declared: TypeReference, default: Option<Value>, directives: seq<Directive>)

  datatype FieldNode =
    FieldNode(name: Text, alias: Option<Text>, arguments: Option<Members>, directives: seq<Directive>, selections: Selections)

  datatype Selections = Leaf | Nested(fields: seq<FieldNode>)

  /** An operation as it is written: a bare selection set, or one behind a header. */
  datatype OperationNode =
    | Shorthand(fields: seq<FieldNode>)
    | Headed(kind: OperationType, name: Option<Text>, definitions: Option<seq<VariableDefinition>>,
             directives: seq<Directive>, fields: seq<FieldNode>)

  function ParenTokens(arguments: Option<Members>): seq<Token> {
    if arguments.None? then [] else [P("(")] + (MembersTokens(arguments.value) + [P(")")])
  }

  function BangTokens(required: bool): seq<Token> { if required then [P("!")] else [] }

  function TypeTokens(t: TypeReference): seq<Token> {
    match t
    case Named(name, required) => [N(name)] + BangTokens(required)
    case ListOf(items, required) => [P("[")] + (TypeTokens(items) + ([P("]")] + BangTokens(required)))
  }

  function DirectiveTokens(d: Directive): seq<Token> { [P("@"), N(d.name)] + ParenTokens(d.arguments) }

  function DirectivesTokens(ds: seq<Directive>): seq<Token> {
    if |ds| == 0 then [] else DirectiveTokens(ds[0]) + DirectivesTokens(ds[1..])
  }

  function DefaultTokens(default: Option<Value>): seq<Token> {
    if default.None? then [] else [P("=")] + ValueTokens(default.value)
  }

  function DefinitionTokens(d: VariableDefinition): seq<Token> {
    [P("$"), N(d.name)]
    + ([P(":")] + (TypeTokens(d.declared) + (DefaultTokens(d.default) + DirectivesTokens(d.directives))))
  }

  function DefinitionsTokens(ds: seq<VariableDefinition>): seq<Token> {
    if |ds| == 0 then [] else DefinitionTokens(ds[0]) + DefinitionsTokens(ds[1..])
  }

  function HeadTokens(name: Text, alias: Option<Text>): seq<Token> {
    if alias.Some? then [N(alias.value), P(":"), N(name)] else [N(name)]
  }

  function NodeTokens(n: FieldNode): seq<Token>
    decreases n, 0
  {
    HeadTokens(n.name, n.alias) + (ParenTokens(n.arguments) + (DirectivesTokens(n.directives) + SetTokens(n.selections)))
  }

  function SetTokens(s: Selections): seq<Token>
    decreases s, 3
  {
    if s.Leaf? then [] else SelectionTokens(s.fields)
  }

  function NodesTokens(fs: seq<FieldNode>): seq<Token>
    decreases fs, 1
  {
    if |fs| == 0 then [] else NodeTokens(fs[0]) + NodesTokens(fs[1..])
  }

  function SelectionTokens(fs: seq<FieldNode>): seq<Token>
    decreases fs, 2
  {
    [P("{")] + (NodesTokens(fs) + [P("}")])
  }

  function HeaderTokens(kind: OperationType, name: Option<Text>): seq<Token> {
    [N(if kind == Query then T("query") else T("mutation"))] + (if name.Some? then [N(name.value)] else [])
  }

  function VariablesTokens(definitions: Option<seq<VariableDefinition>>): seq<Token> {
    if definitions.None? then [] else [P("(")] + (DefinitionsTokens(definitions.value) + [P(")")])
  }

  function OperationTokens(op: OperationNode): seq<Token> {
    match op
    case Shorthand(fields) => SelectionTokens(fields)
    case Headed(kind, name, definitions, directives, fields) =>
      HeaderTokens(kind, name) + (VariablesTokens(definitions) + (DirectivesTokens(directives) + SelectionTokens(fields)))
  }

  function SyntaxTokens(doc: seq<OperationNode>): seq<Token> {
    if |doc| == 0 then [] else OperationTokens(doc[0]) + SyntaxTokens(doc[1..])
  }

  // ---------------------------------------------- what the parser keeps of it

  function GivenArguments(arguments: Option<Members>): Members { if arguments.Some? then arguments.value else [] }

  function FieldOf(n: FieldNode): Field
    decreases n, 0
  {
    Field(n.name, n.alias, GivenArguments(n.arguments), if n.selections.Leaf? then [] else FieldsOf(n.selections.fields))
  }

  function FieldsOf(fs: seq<FieldNode>): seq<Field>
    decreases fs, 1
  {
    if |fs| == 0 then [] else [FieldOf(fs[0])] + FieldsOf(fs[1..])
  }

  function OperationOf(op: OperationNode): Operation {
    match op
    case Shorthand(fields) => Operation(Query, None, FieldsOf(fields))
    case Headed(kind, name, _, _, fields) => Operation(kind, name, FieldsOf(fields))
  }

  function OperationsOf(doc: seq<OperationNode>): seq<Operation> {
    if |doc| == 0 then [] else [OperationOf(doc[0])] + OperationsOf(doc[1..])
  }

  // ------------------------------------------- documents without the rest

  /** A field written without directives and without empty parentheses or braces. */
  function PlainField(f: Field): FieldNode
    decreases f, 0
  {
    FieldNode(f.name, f.alias, if |f.arguments| == 0 then None else Some(f.arguments), [],
              if |f.selections| == 0 then Leaf else Nested(PlainFields(f.selections)))
  }

  function PlainFields(fs: seq<Field>): seq<FieldNode>
    decreases fs, 1
  {
    if |fs| == 0 then [] else [PlainField(fs[0])] + PlainFields(fs[1..])
  }

  function PlainOperation(op: Operation): OperationNode { Headed(op.kind, op.name, None, [], PlainFields(op.selections)) }

  function PlainDocument(ops: seq<Operation>): seq<OperationNode> {
    if |ops| == 0 then [] else [PlainOperation(ops[0])] + PlainDocument(ops[1..])
  }

  function DocumentTokens(ops: seq<Operation>): seq<Token> { SyntaxTokens(PlainDocument(ops)) }

  // ----------------------------------------------------- printable syntax

  /** Strings that the parser, comparing token text alone, would take for syntax. */
  predicate TakenForSyntax(v: Value) {
    v.Scalar? && v.scalar.Str? && (v.scalar.text == T("$") || v.scalar.text == T("[") || v.scalar.text == T("{"))
  }

  predicate ClosesList(v: Value) {
    v.Scalar? && v.scalar.Str? && v.scalar.text == T("]")
  }

  predicate DistinctKeys(ms: Members) {
    forall i, j :: 0 <= i < j < |ms| ==> ms[i].key != ms[j].key
  }

  predicate ScalarOk(s: Scalar) {
    s.Float? ==> IsNumber(s.literal) && IsFloat(s.literal)
  }

  predicate PrintableValue(v: Value, depth: nat)
    decreases v
  {
    && depth <= MAX_VALUE_DEPTH && !TakenForSyntax(v)
    && match v
       case Variable(name) => IsName(name)
       case Scalar(s) => ScalarOk(s)
       case List(values) => forall x <- values :: !ClosesList(x) && PrintableValue(x, depth + 1)
       case Object(members) =>
         DistinctKeys(members) &&
         forall m <- members :: IsName(m.key) && m.key != T("__proto__") && PrintableValue(m.value, depth + 1)
  }

  predicate PrintableArguments(ms: Members) {
    DistinctKeys(ms) && forall m <- ms :: IsName(m.key) && !Inherited(m.key) && PrintableValue(m.value, 0)
  }

  /** `depth` is the nesting depth of the selection set the field would open. */
  predicate PrintableField(f: Field, depth: nat)
    decreases f
  {
    && IsName(f.name) && (f.alias.Some? ==> IsName(f.alias.value)) && PrintableArguments(f.arguments)
    && |f.selections| <= MAX_FIELDS && (|f.selections| > 0 ==> depth <= MAX_SELECTION_DEPTH)
    && forall g <- f.selections :: PrintableField(g, depth + 1)
  }

  predicate PrintableOperation(op: Operation) {
    && (op.name.Some? ==> IsName(op.name.value)) && |op.selections| <= MAX_FIELDS
    && forall f <- op.selections :: PrintableField(f, 1)
  }

  predicate Printable(ops: seq<Operation>) {
    |ops| > 0 && forall op <- ops :: PrintableOperation(op)
  }

  predicate ArgumentsOk(arguments: Option<Members>) { arguments.Some? ==> PrintableArguments(arguments.value) }

  predicate TypeOk(t: TypeReference) {
    match t
    case Named(name, _) => IsName(name)
    case ListOf(items, _) => TypeOk(items)
  }

  predicate DirectivesOk(ds: seq<Directive>) { forall d <- ds :: IsName(d.name) && ArgumentsOk(d.arguments) }

  predicate DefinitionOk(d: VariableDefinition) {
    && IsName(d.name) && TypeOk(d.declared) && (d.default.Some? ==> PrintableValue(d.default.value, 0))
    && DirectivesOk(d.directives)
  }

  predicate NodeOk(n: FieldNode, depth: nat)
    decreases n
  {
    && IsName(n.name) && (n.alias.Some? ==> IsName(n.alias.value)) && ArgumentsOk(n.arguments) && DirectivesOk(n.directives)
    && (n.selections.Nested? ==>
          && depth <= MAX_SELECTION_DEPTH && |n.selections.fields| <= MAX_FIELDS
          && forall g <- n.selections.fields :: NodeOk(g, depth + 1))
  }

  predicate OperationOk(op: OperationNode) {
    && |op.fields| <= MAX_FIELDS && (forall f <- op.fields :: NodeOk(f, 1))
    && (op.Headed? ==>
          && (op.name.Some? ==> IsName(op.name.value)) && DirectivesOk(op.directives)
          && (op.definitions.Some? ==> forall d <- op.definitions.value :: DefinitionOk(d)))
  }

  /** A document of any operations the parser's limits allow, with definitions and directives at all their places. */
  predicate SyntaxOk(doc: seq<OperationNode>) { |doc| > 0 && forall op <- doc :: OperationOk(op) }
}
