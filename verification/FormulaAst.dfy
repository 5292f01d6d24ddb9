/** The formula language's vocabulary: tokens, nodes, the function table and its limits. */
module FormulaAst {
  import opened Util

  /** Deepest nesting the recursive-descent parser builds before it gives up. */
  const MAX_FORMULA_DEPTH: nat := 64

  /** Arguments past this many are parsed and forgotten. */
  const MAX_FORMULA_ARGS: nat := 8

  /** Largest `MA`/`NORM` window. */
  const MAX_FORMULA_WINDOW: int := 10_000

  /** Longest formula text. */
  const MAX_FORMULA_LENGTH: nat := 400

  datatype BinaryOp = Plus | Minus | Star | Slash

  datatype UnaryOp = Pos | Neg

  datatype FunctionName = RATIO | SPREAD | NORM | MA

  /** What is checked about a call before anything is evaluated. */
  datatype FunctionSpec = FunctionSpec(minArgs: nat, maxArgs: nat, seriesArgs: seq<nat>, windowArgs: seq<nat>)

  function SpecOf(name: FunctionName): FunctionSpec {
    match name
    case RATIO => FunctionSpec(2, 2, [], [])
    case SPREAD => FunctionSpec(2, 2, [], [])
    case NORM => FunctionSpec(1, 2, [0], [1])
    case MA => FunctionSpec(2, 2, [0], [1])
  }

  function NameText(name: FunctionName): string {
    match name
    case RATIO => "RATIO"
    case SPREAD => "SPREAD"
    case NORM => "NORM"
    case MA => "MA"
  }

  /** The function an upper-cased word names, if the language has it. */
  function LookupFunction(upper: string): (r: Option<FunctionName>)
    ensures r.Some? ==> NameText(r.value) == upper
    ensures r.None? ==> forall name: FunctionName :: NameText(name) != upper
  {
    if upper == "RATIO" then Some(RATIO)
    else if upper == "SPREAD" then Some(SPREAD)
    else if upper == "NORM" then Some(NORM)
    else if upper == "MA" then Some(MA)
    else None
  }

  /** Tokens as the parser dispatches on them; a word carries its upper-cased spelling. */
  datatype Token =
    | NumberToken(value: real)
    | WordToken(upper: string)
    | RefToken(canonical: string)
    | LParen
    | RParen
    | Comma
    | PlusToken
    | MinusToken
    | StarToken
    | SlashToken
    | ErrorToken
    | Eof

  /** Every node of the language. `ErrorNode` is the hole left where an operand should have been. */
  datatype Node =
    | Number(value: real)
    | Field(field: string)
    | Security(canonical: string)
    | Unary(uop: UnaryOp, operand: Node)
    | Binary(bop: BinaryOp, left: Node, right: Node)
    | Call(name: FunctionName, args: seq<Node>)
    | ErrorNode

  predicate IsSeriesNode(node: Node) {
    node.Field? || node.Security?
  }

  datatype ProblemCode =
    | NotAString | Empty | TooLong | UnexpectedChar | MissingOperand | UnbalancedParen | TrailingInput
    | TooDeep | BadSecurityRef | UnknownFunction | BadArity | NotASeries | BadWindow

  predicate HasErrorNode(node: Node) {
    match node
    case ErrorNode => true
    case Unary(_, operand) => HasErrorNode(operand)
    case Binary(_, left, right) => HasErrorNode(left) || HasErrorNode(right)
    case Call(_, args) => exists i :: 0 <= i < |args| && HasErrorNode(args[i])
    case _ => false
  }
}
