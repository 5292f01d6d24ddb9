/**
 * What the recursive-descent parser accepts, stated twice.
 *
 * First as a success-only descent (`ParseExpr` and friends): no abort flag, no holes, no problem
 * list, and a remaining depth budget instead of a counter. Second as the grammar itself: concrete
 * syntax trees whose `Yield` is the token text they stand for, whose `Ast` is the tree they mean and
 * whose `Depth` is the number of levels their nesting costs. The theorems say the two agree exactly.
 */
module FormulaGrammar {
  import opened Util
  import opened FormulaAst

  // ---------------------------------------------------------------- the success-only descent

  /** Past its end a token list reads as `Eof`. */
  function Peek(ts: seq<Token>, i: nat): Token {
    if i < |ts| then ts[i] else Eof
  }

  function AddOp(t: Token): Option<BinaryOp> {
    match t
    case PlusToken => Some(Plus)
    case MinusToken => Some(Minus)
    case _ => None
  }

  function MulOp(t: Token): Option<BinaryOp> {
    match t
    case StarToken => Some(Star)
    case SlashToken => Some(Slash)
    case _ => None
  }

  function SignOp(t: Token): Option<UnaryOp> {
    match t
    case PlusToken => Some(Pos)
    case MinusToken => Some(Neg)
    case _ => None
  }

  function ParseExpr(ts: seq<Token>, i: nat, b: nat): (r: Option<(Node, nat)>)
    ensures r.Some? ==> i < r.value.1 <= |ts|
    decreases if i <= |ts| then |ts| - i else 0, 5
  {
    if b == 0 then None else ParseSum(ts, i, b - 1)
  }

  /** `term (('+' | '-') term)*`, the level for the sum already paid. */
  function ParseSum(ts: seq<Token>, i: nat, b: nat): (r: Option<(Node, nat)>)
    ensures r.Some? ==> i < r.value.1 <= |ts|
    decreases if i <= |ts| then |ts| - i else 0, 4
  {
    match ParseTerm(ts, i, b)
    case None => None
    case Some((left, j)) => SumRest(ts, j, b, left)
  }

  function SumRest(ts: seq<Token>, i: nat, b: nat, left: Node): (r: Option<(Node, nat)>)
    requires i <= |ts|
    ensures r.Some? ==> i <= r.value.1 <= |ts|
    decreases |ts| - i, 0
  {
    match AddOp(Peek(ts, i))
    case None => Some((left, i))
    case Some(op) =>
      match ParseTerm(ts, i + 1, b)
      case None => None
      case Some((right, j)) => SumRest(ts, j, b, Binary(op, left, right))
  }

  function ParseTerm(ts: seq<Token>, i: nat, b: nat): (r: Option<(Node, nat)>)
    ensures r.Some? ==> i < r.value.1 <= |ts|
    decreases if i <= |ts| then |ts| - i else 0, 3
  {
    match ParseUnary(ts, i, b)
    case None => None
    case Some((left, j)) => TermRest(ts, j, b, left)
  }

  function TermRest(ts: seq<Token>, i: nat, b: nat, left: Node): (r: Option<(Node, nat)>)
    requires i <= |ts|
    ensures r.Some? ==> i <= r.value.1 <= |ts|
    decreases |ts| - i, 0
  {
    match MulOp(Peek(ts, i))
    case None => Some((left, i))
    case Some(op) =>
      match ParseUnary(ts, i + 1, b)
      case None => None
      case Some((right, j)) => TermRest(ts, j, b, Binary(op, left, right))
  }

  function ParseUnary(ts: seq<Token>, i: nat, b: nat): (r: Option<(Node, nat)>)
    ensures r.Some? ==> i < r.value.1 <= |ts|
    decreases if i <= |ts| then |ts| - i else 0, 2
  {
    match SignOp(Peek(ts, i))
    case Some(op) =>
      if b == 0 then None
      else (
        match ParseUnary(ts, i + 1, b - 1)
        case None => None
        case Some((operand, j)) => Some((Unary(op, operand), j)))
    case None => ParsePrimary(ts, i, b)
  }

  function ParsePrimary(ts: seq<Token>, i: nat, b: nat): (r: Option<(Node, nat)>)
    ensures r.Some? ==> i < r.value.1 <= |ts|
    decreases if i <= |ts| then |ts| - i else 0, 1
  {
    match Peek(ts, i)
    case NumberToken(value) => Some((Number(value), i + 1))
    case RefToken(canonical) => Some((Security(canonical), i + 1))
    case WordToken(upper) =>
      if Peek(ts, i + 1) == LParen then ParseCall(ts, i + 1, b, upper) else Some((Field(upper), i + 1))
    case LParen =>
      if b == 0 then None
      else (
        match ParseExpr(ts, i + 1, b - 1)
        case None => None
        case Some((inner, j)) => if Peek(ts, j) == RParen then Some((inner, j + 1)) else None)
    case _ => None
  }

  /** `'(' [expr (',' expr)*] ')'` of a call, from its open parenthesis. */
  function ParseCall(ts: seq<Token>, i: nat, b: nat, upper: string): (r: Option<(Node, nat)>)
    requires i < |ts|
    ensures r.Some? ==> i < r.value.1 <= |ts|
    decreases |ts| - i, 1
  {
    if b == 0 || LookupFunction(upper).None? then None
    else if Peek(ts, i + 1) == RParen then Some((Call(LookupFunction(upper).value, []), i + 2))
    else
      match ParseArgs(ts, i + 1, b - 1)
      case None => None
      case Some((args, j)) =>
        if Peek(ts, j) == RParen then Some((Call(LookupFunction(upper).value, FirstArgs(args)), j + 1)) else None
  }

  function ParseArgs(ts: seq<Token>, i: nat, b: nat): (r: Option<(seq<Node>, nat)>)
    ensures r.Some? ==> i < r.value.1 <= |ts|
    decreases if i <= |ts| then |ts| - i else 0, 6
  {
    match ParseExpr(ts, i, b)
    case None => None
    case Some((arg, j)) =>
      if Peek(ts, j) != Comma then Some(([arg], j))
      else
        match ParseArgs(ts, j + 1, b)
        case None => None
        case Some((rest, k)) => Some(([arg] + rest, k))
  }

  /** Only the first eight arguments are kept. */
  function FirstArgs(args: seq<Node>): seq<Node> {
    if |args| <= MAX_FORMULA_ARGS then args else args[..MAX_FORMULA_ARGS]
  }

  lemma EightAreKept(args: seq<Node>)
    ensures FirstArgs(args) <= args && |FirstArgs(args)| == if |args| < 8 then |args| else 8
  {
    assert args[..|FirstArgs(args)|] <= args;
  }

  /** A whole formula: an expression, then the end of the input. */
  function ParseWhole(ts: seq<Token>, b: nat): Option<Node> {
    match ParseExpr(ts, 0, b)
    case None => None
    case Some((node, j)) => if Peek(ts, j) == Eof then Some(node) else None
  }

  // ---------------------------------------------------------------- concrete syntax

  type SumOp = op: BinaryOp | op.Plus? || op.Minus? witness Plus
  type ProductOp = op: BinaryOp | op.Star? || op.Slash? witness Star

  datatype SumC = OneTerm(term: TermC) | AddC(op: SumOp, left: SumC, right: TermC)
  datatype TermC = OneUnary(unary: UnaryC) | MulC(op: ProductOp, left: TermC, right: UnaryC)
  datatype UnaryC = OnePrimary(primary: PrimaryC) | SignC(sign: UnaryOp, operand: UnaryC)
  datatype PrimaryC =
    | NumberC(value: real)
    | FieldC(field: string)
    | SecurityC(canonical: string)
    | ParenC(inner: SumC)
    | EmptyCallC(name: FunctionName)
    | CallC(name: FunctionName, args: ArgsC)
  datatype ArgsC = LastArg(arg: SumC) | MoreArgs(arg: SumC, rest: ArgsC)

  function OpToken(op: BinaryOp): Token {
    match op
    case Plus => PlusToken
    case Minus => MinusToken
    case Star => StarToken
    case Slash => SlashToken
  }

  function SignToken(sign: UnaryOp): Token {
    match sign
    case Pos => PlusToken
    case Neg => MinusToken
  }

  /** The tokens a concrete tree stands for. */
  function SumYield(e: SumC): (ys: seq<Token>)
    ensures |ys| > 0
  {
    match e
    case OneTerm(term) => TermYield(term)
    case AddC(op, left, right) => SumYield(left) + [OpToken(op)] + TermYield(right)
  }

  function TermYield(t: TermC): (ys: seq<Token>)
    ensures |ys| > 0
  {
    match t
    case OneUnary(unary) => UnaryYield(unary)
    case MulC(op, left, right) => TermYield(left) + [OpToken(op)] + UnaryYield(right)
  }

  function UnaryYield(u: UnaryC): (ys: seq<Token>)
    ensures |ys| > 0
  {
    match u
    case OnePrimary(primary) => PrimaryYield(primary)
    case SignC(sign, operand) => [SignToken(sign)] + UnaryYield(operand)
  }

  function PrimaryYield(p: PrimaryC): (ys: seq<Token>)
    ensures |ys| > 0
  {
    match p
    case NumberC(value) => [NumberToken(value)]
    case FieldC(field) => [WordToken(field)]
    case SecurityC(canonical) => [RefToken(canonical)]
    case ParenC(inner) => [LParen] + SumYield(inner) + [RParen]
    case EmptyCallC(name) => [WordToken(NameText(name)), LParen, RParen]
    case CallC(name, args) => [WordToken(NameText(name)), LParen] + ArgsYield(args) + [RParen]
  }

  function ArgsYield(a: ArgsC): (ys: seq<Token>)
    ensures |ys| > 0
  {
    match a
    case LastArg(arg) => SumYield(arg)
    case MoreArgs(arg, rest) => SumYield(arg) + [Comma] + ArgsYield(rest)
  }

  /** The tree a concrete tree means: operators associate to the left, parentheses vanish. */
  function SumAst(e: SumC): Node {
    match e
    case OneTerm(term) => TermAst(term)
    case AddC(op, left, right) => Binary(op, SumAst(left), TermAst(right))
  }

  function TermAst(t: TermC): Node {
    match t
    case OneUnary(unary) => UnaryAst(unary)
    case MulC(op, left, right) => Binary(op, TermAst(left), UnaryAst(right))
  }

  function UnaryAst(u: UnaryC): Node {
    match u
    case OnePrimary(primary) => PrimaryAst(primary)
    case SignC(sign, operand) => Unary(sign, UnaryAst(operand))
  }

  function PrimaryAst(p: PrimaryC): Node {
    match p
    case NumberC(value) => Number(value)
    case FieldC(field) => Field(field)
    case SecurityC(canonical) => Security(canonical)
    case ParenC(inner) => SumAst(inner)
    case EmptyCallC(name) => Call(name, [])
    case CallC(name, args) => Call(name, FirstArgs(ArgsAst(args)))
  }

  function ArgsAst(a: ArgsC): seq<Node> {
    match a
    case LastArg(arg) => [SumAst(arg)]
    case MoreArgs(arg, rest) => [SumAst(arg)] + ArgsAst(rest)
  }

  /** Depth levels the descent spends inside a sum whose own level is already paid. */
  function SumDepth(e: SumC): nat {
    match e
    case OneTerm(term) => TermDepth(term)
    case AddC(_, left, right) => Max(SumDepth(left), TermDepth(right))
  }

  function TermDepth(t: TermC): nat {
    match t
    case OneUnary(unary) => UnaryDepth(unary)
    case MulC(_, left, right) => Max(TermDepth(left), UnaryDepth(right))
  }

  function UnaryDepth(u: UnaryC): nat {
    match u
    case OnePrimary(primary) => PrimaryDepth(primary)
    case SignC(_, operand) => 1 + UnaryDepth(operand)
  }

  /** A parenthesis costs two levels: one for itself and one for the sum it opens. */
  function PrimaryDepth(p: PrimaryC): nat {
    match p
    case ParenC(inner) => 2 + SumDepth(inner)
    case EmptyCallC(_) => 1
    case CallC(_, args) => 1 + ArgsDepth(args)
    case _ => 0
  }

  function ArgsDepth(a: ArgsC): nat {
    match a
    case LastArg(arg) => 1 + SumDepth(arg)
    case MoreArgs(arg, rest) => Max(1 + SumDepth(arg), ArgsDepth(rest))
  }

  // ---------------------------------------------------------------- completeness

  predicate At(ts: seq<Token>, i: nat, ys: seq<Token>) {
    i + |ys| <= |ts| && ts[i..i + |ys|] == ys
  }

  lemma AtSplit(ts: seq<Token>, i: nat, xs: seq<Token>, ys: seq<Token>)
    requires At(ts, i, xs + ys)
    ensures At(ts, i, xs) && At(ts, i + |xs|, ys)
  {
    assert ts[i..i + |xs|] == (xs + ys)[..|xs|] == xs;
    assert ts[i + |xs|..i + |xs| + |ys|] == (xs + ys)[|xs|..] == ys;
  }

  /** An operand, an operator and an operand, each in its place. */
  lemma AtOperands(ts: seq<Token>, i: nat, xs: seq<Token>, t: Token, ys: seq<Token>)
    requires At(ts, i, xs + [t] + ys)
    ensures At(ts, i, xs) && Peek(ts, i + |xs|) == t && At(ts, i + |xs| + 1, ys)
  {
    AtSplit(ts, i, xs + [t], ys);
    AtSplit(ts, i, xs, [t]);
    assert ts[i + |xs|] == ts[i + |xs|..i + |xs| + 1][0];
  }

  lemma AtOperandsJoin(ts: seq<Token>, i: nat, xs: seq<Token>, t: Token, ys: seq<Token>)
    requires At(ts, i, xs) && i + |xs| < |ts| && ts[i + |xs|] == t && At(ts, i + |xs| + 1, ys)
    ensures At(ts, i, xs + [t] + ys)
  {
    AtHead(ts, i + |xs|, t);
    AtJoin(ts, i, xs, [t]);
    AtJoin(ts, i, xs + [t], ys);
  }

  lemma AtJoin(ts: seq<Token>, i: nat, xs: seq<Token>, ys: seq<Token>)
    requires At(ts, i, xs) && At(ts, i + |xs|, ys)
    ensures At(ts, i, xs + ys)
  {
    assert ts[i..i + |xs| + |ys|] == ts[i..i + |xs|] + ts[i + |xs|..i + |xs| + |ys|];
  }

  lemma AtHead(ts: seq<Token>, i: nat, t: Token)
    requires i < |ts| && ts[i] == t
    ensures At(ts, i, [t])
  {
  }

  /** The descent over the yield of a unary: its tree when the budget covers its depth, else nothing. */
  lemma {:induction false} UnaryComplete(ts: seq<Token>, i: nat, b: nat, u: UnaryC)
    requires At(ts, i, UnaryYield(u)) && Peek(ts, i + |UnaryYield(u)|) != LParen
    ensures ParseUnary(ts, i, b)
         == if UnaryDepth(u) <= b then Some((UnaryAst(u), i + |UnaryYield(u)|)) else None
    decreases u, 0
  {
    match u
    case OnePrimary(primary) =>
      assert Peek(ts, i) == UnaryYield(u)[0];
      assert SignOp(Peek(ts, i)).None?;
      PrimaryComplete(ts, i, b, primary);
    case SignC(sign, operand) =>
      AtSplit(ts, i, [SignToken(sign)], UnaryYield(operand));
      assert Peek(ts, i) == SignToken(sign);
      if b > 0 {
        UnaryComplete(ts, i + 1, b - 1, operand);
      }
  }

  lemma {:induction false} PrimaryComplete(ts: seq<Token>, i: nat, b: nat, p: PrimaryC)
    requires At(ts, i, PrimaryYield(p)) && Peek(ts, i + |PrimaryYield(p)|) != LParen
    ensures ParsePrimary(ts, i, b)
         == if PrimaryDepth(p) <= b then Some((PrimaryAst(p), i + |PrimaryYield(p)|)) else None
    decreases p, 0
  {
    assert Peek(ts, i) == PrimaryYield(p)[0];
    match p
    case ParenC(inner) =>
      AtSplit(ts, i, [LParen] + SumYield(inner), [RParen]);
      AtSplit(ts, i, [LParen], SumYield(inner));
      assert Peek(ts, i + 1 + |SumYield(inner)|) == RParen;
      if b > 0 {
        ExprComplete(ts, i + 1, b - 1, inner);
      }
    case EmptyCallC(name) =>
      AtSplit(ts, i, [WordToken(NameText(name))], [LParen, RParen]);
      assert ts[i + 1..i + 3] == [LParen, RParen];
      assert ts[i + 1] == LParen && ts[i + 2] == RParen;
      LookupName(name);
    case CallC(name, args) =>
      CallComplete(ts, i, b, name, args);
    case _ =>
  }

  lemma LookupName(name: FunctionName)
    ensures LookupFunction(NameText(name)) == Some(name)
  {
  }

  lemma {:induction false} CallComplete(ts: seq<Token>, i: nat, b: nat, name: FunctionName, args: ArgsC)
    requires At(ts, i, [WordToken(NameText(name)), LParen] + ArgsYield(args) + [RParen])
    ensures ParsePrimary(ts, i, b)
         == if 1 + ArgsDepth(args) <= b
            then Some((Call(name, FirstArgs(ArgsAst(args))), i + 3 + |ArgsYield(args)|))
            else None
    decreases args, 2
  {
    var word := WordToken(NameText(name));
    AtSplit(ts, i, [word, LParen] + ArgsYield(args), [RParen]);
    AtSplit(ts, i, [word, LParen], ArgsYield(args));
    assert ts[i..i + 2] == [word, LParen];
    assert ts[i] == word && ts[i + 1] == LParen;
    LookupName(name);
    ArgsStart(args);
    assert ts[i + 2] == ArgsYield(args)[0];
    assert Peek(ts, i + 2 + |ArgsYield(args)|) == RParen;
    if b > 0 {
      ArgsComplete(ts, i + 2, b - 1, args);
    }
    assert ParsePrimary(ts, i, b) == ParseCall(ts, i + 1, b, NameText(name));
  }

  /** No argument list starts with a closing parenthesis. */
  lemma {:induction false} ArgsStart(a: ArgsC)
    ensures ArgsYield(a)[0] != RParen
  {
    match a
    case LastArg(arg) => SumStart(arg);
    case MoreArgs(arg, rest) => SumStart(arg);
  }

  lemma {:induction false} SumStart(e: SumC)
    ensures SumYield(e)[0] != RParen
  {
    match e
    case OneTerm(term) => TermStart(term);
    case AddC(_, left, _) => SumStart(left);
  }

  lemma {:induction false} TermStart(t: TermC)
    ensures TermYield(t)[0] != RParen
  {
    match t
    case OneUnary(unary) => UnaryStart(unary);
    case MulC(_, left, _) => TermStart(left);
  }

  lemma UnaryStart(u: UnaryC)
    ensures UnaryYield(u)[0] != RParen
  {
    match u
    case OnePrimary(primary) => assert PrimaryYield(primary)[0] != RParen;
    case SignC(_, _) =>
  }

  lemma {:induction false} ArgsComplete(ts: seq<Token>, i: nat, b: nat, a: ArgsC)
    requires At(ts, i, ArgsYield(a)) && Peek(ts, i + |ArgsYield(a)|) == RParen
    ensures ParseArgs(ts, i, b)
         == if ArgsDepth(a) <= b then Some((ArgsAst(a), i + |ArgsYield(a)|)) else None
    decreases a, 1
  {
    match a
    case LastArg(arg) =>
      ExprComplete(ts, i, b, arg);
    case MoreArgs(arg, rest) =>
      AtSplit(ts, i, SumYield(arg) + [Comma], ArgsYield(rest));
      AtSplit(ts, i, SumYield(arg), [Comma]);
      assert Peek(ts, i + |SumYield(arg)|) == Comma;
      ExprComplete(ts, i, b, arg);
      ArgsComplete(ts, i + |SumYield(arg)| + 1, b, rest);
  }

  /** The rest of a product across one operator and its right operand. */
  lemma TermRestAcross(ts: seq<Token>, j: nat, b: nat, left: Node, op: ProductOp, right: UnaryC)
    requires j + 1 + |UnaryYield(right)| <= |ts| && MulOp(Peek(ts, j)) == Some(op)
    requires ParseUnary(ts, j + 1, b)
             == if UnaryDepth(right) <= b then Some((UnaryAst(right), j + 1 + |UnaryYield(right)|)) else None
    ensures TermRest(ts, j, b, left)
            == if UnaryDepth(right) <= b then TermRest(ts, j + 1 + |UnaryYield(right)|, b,
                Binary(op, left, UnaryAst(right))) else None
  {
  }

  /** A product, once its front and its last factor have been descended. */
  lemma ProductComplete(ts: seq<Token>, i: nat, b: nat, op: ProductOp, left: TermC, right: UnaryC)
    requires At(ts, i, TermYield(left)) && MulOp(Peek(ts, i + |TermYield(left)|)) == Some(op)
    requires i + |TermYield(left)| + 1 + |UnaryYield(right)| <= |ts|
    requires ParseTerm(ts, i, b) == if TermDepth(left) <= b then TermRest(ts, i + |TermYield(left)|, b, TermAst(left))
        else None
    requires ParseUnary(ts, i + |TermYield(left)| + 1, b)
             == if UnaryDepth(right) <= b then Some((UnaryAst(right), i + |TermYield(left)| + 1 + |UnaryYield(right)|))
                 else None
    ensures var t := MulC(op, left, right);
            ParseTerm(ts, i, b) == if TermDepth(t) <= b then TermRest(ts, i + |TermYield(t)|, b, TermAst(t)) else None
  {
    TermRestAcross(ts, i + |TermYield(left)|, b, TermAst(left), op, right);
  }

  /** The descent over a term leaves its loop exactly where the tree ends, whatever comes next. */
  lemma {:induction false} TermComplete(ts: seq<Token>, i: nat, b: nat, t: TermC)
    requires At(ts, i, TermYield(t)) && Peek(ts, i + |TermYield(t)|) != LParen
    ensures ParseTerm(ts, i, b)
         == if TermDepth(t) <= b then TermRest(ts, i + |TermYield(t)|, b, TermAst(t)) else None
    decreases t, 0
  {
    match t
    case OneUnary(unary) =>
      UnaryComplete(ts, i, b, unary);
    case MulC(op, left, right) =>
      AtOperands(ts, i, TermYield(left), OpToken(op), UnaryYield(right));
      TermComplete(ts, i, b, left);
      UnaryComplete(ts, i + |TermYield(left)| + 1, b, right);
      ProductComplete(ts, i, b, op, left, right);
  }

  /** Where no product goes on, the descent over a term stops with it. */
  lemma TermStops(ts: seq<Token>, i: nat, b: nat, t: TermC)
    requires At(ts, i, TermYield(t))
    requires Peek(ts, i + |TermYield(t)|) != LParen && MulOp(Peek(ts, i + |TermYield(t)|)).None?
    ensures ParseTerm(ts, i, b) == if TermDepth(t) <= b then Some((TermAst(t), i + |TermYield(t)|)) else None
    decreases t, 1
  {
    TermComplete(ts, i, b, t);
  }

  /** A sum, once its front and its last term have been descended. */
  lemma AdditionComplete(ts: seq<Token>, i: nat, b: nat, op: SumOp, left: SumC, right: TermC)
    requires At(ts, i, SumYield(left)) && AddOp(Peek(ts, i + |SumYield(left)|)) == Some(op)
    requires i + |SumYield(left)| + 1 + |TermYield(right)| <= |ts|
    requires ParseSum(ts, i, b) == if SumDepth(left) <= b then SumRest(ts, i + |SumYield(left)|, b, SumAst(left))
        else None
    requires ParseTerm(ts, i + |SumYield(left)| + 1, b)
             == if TermDepth(right) <= b then Some((TermAst(right), i + |SumYield(left)| + 1 + |TermYield(right)|))
                 else None
    ensures var e := AddC(op, left, right);
            ParseSum(ts, i, b) == if SumDepth(e) <= b then SumRest(ts, i + |SumYield(e)|, b, SumAst(e)) else None
  {
  }

  lemma {:induction false} SumComplete(ts: seq<Token>, i: nat, b: nat, e: SumC)
    requires At(ts, i, SumYield(e))
    requires Peek(ts, i + |SumYield(e)|) != LParen && MulOp(Peek(ts, i + |SumYield(e)|)).None?
    ensures ParseSum(ts, i, b)
         == if SumDepth(e) <= b then SumRest(ts, i + |SumYield(e)|, b, SumAst(e)) else None
    decreases e, 2
  {
    match e
    case OneTerm(term) =>
      TermStops(ts, i, b, term);
    case AddC(op, left, right) =>
      AtOperands(ts, i, SumYield(left), OpToken(op), TermYield(right));
      SumComplete(ts, i, b, left);
      TermStops(ts, i + |SumYield(left)| + 1, b, right);
      AdditionComplete(ts, i, b, op, left, right);
  }

  /** A token that ends an expression: no operator and no open parenthesis. */
  predicate Ends(t: Token) {
    t == Eof || t == RParen || t == Comma
  }

  lemma {:induction false} ExprComplete(ts: seq<Token>, i: nat, b: nat, e: SumC)
    requires At(ts, i, SumYield(e)) && Ends(Peek(ts, i + |SumYield(e)|))
    ensures ParseExpr(ts, i, b)
         == if 1 + SumDepth(e) <= b then Some((SumAst(e), i + |SumYield(e)|)) else None
    decreases e, 3
  {
    if b > 0 {
      SumComplete(ts, i, b - 1, e);
    }
  }

  // ---------------------------------------------------------------- soundness

  lemma {:induction false} UnarySound(ts: seq<Token>, i: nat, b: nat) returns (u: UnaryC)
    requires ParseUnary(ts, i, b).Some?
    ensures At(ts, i, UnaryYield(u))
    ensures ParseUnary(ts, i, b).value == (UnaryAst(u), i + |UnaryYield(u)|)
    decreases |ts| - i, 2
  {
    match SignOp(Peek(ts, i))
    case Some(op) =>
      var operand := UnarySound(ts, i + 1, b - 1);
      u := SignC(op, operand);
      AtHead(ts, i, SignToken(op));
      AtJoin(ts, i, [SignToken(op)], UnaryYield(operand));
    case None =>
      var p := PrimarySound(ts, i, b);
      u := OnePrimary(p);
  }

  lemma {:induction false} PrimarySound(ts: seq<Token>, i: nat, b: nat) returns (p: PrimaryC)
    requires ParsePrimary(ts, i, b).Some?
    ensures At(ts, i, PrimaryYield(p))
    ensures ParsePrimary(ts, i, b).value == (PrimaryAst(p), i + |PrimaryYield(p)|)
    decreases |ts| - i, 1
  {
    match Peek(ts, i)
    case NumberToken(value) => p := NumberC(value);
    case RefToken(canonical) => p := SecurityC(canonical);
    case WordToken(upper) =>
      if Peek(ts, i + 1) != LParen {
        p := FieldC(upper);
      } else {
        p := CallSound(ts, i, b, upper);
      }
    case LParen =>
      var inner := ExprSound(ts, i + 1, b - 1);
      p := ParenC(inner);
      AtHead(ts, i, LParen);
      AtJoin(ts, i, [LParen], SumYield(inner));
      AtHead(ts, i + 1 + |SumYield(inner)|, RParen);
      AtJoin(ts, i, [LParen] + SumYield(inner), [RParen]);
  }

  lemma {:induction false} CallSound(ts: seq<Token>, i: nat, b: nat, upper: string) returns (p: PrimaryC)
    requires Peek(ts, i) == WordToken(upper) && Peek(ts, i + 1) == LParen
    requires ParseCall(ts, i + 1, b, upper).Some?
    ensures At(ts, i, PrimaryYield(p))
    ensures ParseCall(ts, i + 1, b, upper).value == (PrimaryAst(p), i + |PrimaryYield(p)|)
    decreases |ts| - i, 0
  {
    var name := LookupFunction(upper).value;
    var head := [WordToken(NameText(name)), LParen];
    assert At(ts, i, head);
    if Peek(ts, i + 2) == RParen {
      p := EmptyCallC(name);
      AtHead(ts, i + 2, RParen);
      AtJoin(ts, i, head, [RParen]);
      assert head + [RParen] == PrimaryYield(p);
    } else {
      var args := ArgsSound(ts, i + 2, b - 1);
      p := CallC(name, args);
      AtJoin(ts, i, head, ArgsYield(args));
      AtHead(ts, i + 2 + |ArgsYield(args)|, RParen);
      AtJoin(ts, i, head + ArgsYield(args), [RParen]);
    }
  }

  lemma {:induction false} ArgsSound(ts: seq<Token>, i: nat, b: nat) returns (a: ArgsC)
    requires ParseArgs(ts, i, b).Some?
    ensures At(ts, i, ArgsYield(a))
    ensures ParseArgs(ts, i, b).value == (ArgsAst(a), i + |ArgsYield(a)|)
    decreases |ts| - i, 6
  {
    var arg := ExprSound(ts, i, b);
    var j := i + |SumYield(arg)|;
    if Peek(ts, j) != Comma {
      a := LastArg(arg);
    } else {
      var rest := ArgsSound(ts, j + 1, b);
      a := MoreArgs(arg, rest);
      AtHead(ts, j, Comma);
      AtJoin(ts, i, SumYield(arg), [Comma]);
      AtJoin(ts, i, SumYield(arg) + [Comma], ArgsYield(rest));
    }
  }

  /** One operator and its right operand move the rest on. */
  lemma TermRestStep(ts: seq<Token>, i: nat, left: TermC, op: ProductOp, right: UnaryC, b: nat)
    requires At(ts, i, TermYield(left)) && MulOp(Peek(ts, i + |TermYield(left)|)) == Some(op)
    requires At(ts, i + |TermYield(left)| + 1, UnaryYield(right))
    requires ParseUnary(ts, i + |TermYield(left)| + 1, b) == Some((UnaryAst(right),
        i + |TermYield(left)| + 1 + |UnaryYield(right)|))
    ensures var more := MulC(op, left, right);
            && At(ts, i, TermYield(more))
            && TermRest(ts, i + |TermYield(left)|, b, TermAst(left)) == TermRest(ts, i + |TermYield(more)|, b,
                TermAst(more))
  {
    AtOperandsJoin(ts, i, TermYield(left), OpToken(op), UnaryYield(right));
  }

  lemma {:induction false} TermRestSound(ts: seq<Token>, i: nat, left: TermC, b: nat) returns (t: TermC)
    requires At(ts, i, TermYield(left))
    requires TermRest(ts, i + |TermYield(left)|, b, TermAst(left)).Some?
    ensures At(ts, i, TermYield(t))
    ensures TermRest(ts, i + |TermYield(left)|, b, TermAst(left)).value == (TermAst(t), i + |TermYield(t)|)
    decreases |ts| - i - |TermYield(left)|, 0
  {
    var j := i + |TermYield(left)|;
    match MulOp(Peek(ts, j))
    case None => t := left;
    case Some(op) =>
      var right := UnarySound(ts, j + 1, b);
      TermRestStep(ts, i, left, op, right, b);
      t := TermRestSound(ts, i, MulC(op, left, right), b);
  }

  lemma {:induction false} TermSound(ts: seq<Token>, i: nat, b: nat) returns (t: TermC)
    requires ParseTerm(ts, i, b).Some?
    ensures At(ts, i, TermYield(t))
    ensures ParseTerm(ts, i, b).value == (TermAst(t), i + |TermYield(t)|)
    decreases |ts| - i, 3
  {
    var u := UnarySound(ts, i, b);
    t := TermRestSound(ts, i, OneUnary(u), b);
  }

  /** One operator and its right operand move the rest on. */
  lemma SumRestStep(ts: seq<Token>, i: nat, left: SumC, op: SumOp, right: TermC, b: nat)
    requires At(ts, i, SumYield(left)) && AddOp(Peek(ts, i + |SumYield(left)|)) == Some(op)
    requires At(ts, i + |SumYield(left)| + 1, TermYield(right))
    requires ParseTerm(ts, i + |SumYield(left)| + 1, b) == Some((TermAst(right),
        i + |SumYield(left)| + 1 + |TermYield(right)|))
    ensures var more := AddC(op, left, right);
            && At(ts, i, SumYield(more))
            && SumRest(ts, i + |SumYield(left)|, b, SumAst(left)) == SumRest(ts, i + |SumYield(more)|, b, SumAst(more))
  {
    AtOperandsJoin(ts, i, SumYield(left), OpToken(op), TermYield(right));
  }

  lemma {:induction false} SumRestSound(ts: seq<Token>, i: nat, left: SumC, b: nat) returns (e: SumC)
    requires At(ts, i, SumYield(left))
    requires SumRest(ts, i + |SumYield(left)|, b, SumAst(left)).Some?
    ensures At(ts, i, SumYield(e))
    ensures SumRest(ts, i + |SumYield(left)|, b, SumAst(left)).value == (SumAst(e), i + |SumYield(e)|)
    decreases |ts| - i - |SumYield(left)|, 0
  {
    var j := i + |SumYield(left)|;
    match AddOp(Peek(ts, j))
    case None => e := left;
    case Some(op) =>
      var right := TermSound(ts, j + 1, b);
      SumRestStep(ts, i, left, op, right, b);
      e := SumRestSound(ts, i, AddC(op, left, right), b);
  }

  lemma {:induction false} ExprSound(ts: seq<Token>, i: nat, b: nat) returns (e: SumC)
    requires ParseExpr(ts, i, b).Some?
    ensures At(ts, i, SumYield(e))
    ensures ParseExpr(ts, i, b).value == (SumAst(e), i + |SumYield(e)|)
    decreases |ts| - i, 5
  {
    var t := TermSound(ts, i, b - 1);
    e := SumRestSound(ts, i, OneTerm(t), b - 1);
  }

  // ---------------------------------------------------------------- the theorems

  /** `e`, followed by the end of the input, spells the front of `ts`, and nests at most `b` deep. */
  predicate Derives(ts: seq<Token>, e: SumC, b: nat) {
    SumYield(e) + [Eof] <= ts && 1 + SumDepth(e) <= b
  }

  /**
   * The descent decides its grammar: it answers a tree exactly when some concrete tree of affordable
   * depth spells the input, and the answer is what that concrete tree means.
   */
  lemma ParserDecidesGrammar(ts: seq<Token>, b: nat, node: Node)
    requires Eof in ts
    ensures ParseWhole(ts, b) == Some(node) <==> exists e :: Derives(ts, e, b) && SumAst(e) == node
  {
    if ParseWhole(ts, b) == Some(node) {
      var e := ExprSound(ts, 0, b);
      WholeIsYield(ts, b, e);
      assert Derives(ts, e, b) && SumAst(e) == node;
    }
    if e :| Derives(ts, e, b) && SumAst(e) == node {
      DerivedParses(ts, b, e);
    }
  }

  /** Where the descent stopped before an `Eof`, that `Eof` is a real token. */
  lemma WholeIsYield(ts: seq<Token>, b: nat, e: SumC)
    requires Eof in ts && At(ts, 0, SumYield(e)) && Peek(ts, |SumYield(e)|) == Eof
    requires ParseExpr(ts, 0, b).Some?
    ensures Derives(ts, e, b)
  {
    var k := |SumYield(e)|;
    NoEofInSum(e);
    assert ts[..k] == SumYield(e);
    assert forall m :: 0 <= m < k ==> ts[m] == SumYield(e)[m];
    var m :| 0 <= m < |ts| && ts[m] == Eof;
    assert k <= m;
    assert ts[..k + 1] == SumYield(e) + [Eof];
    ExprComplete(ts, 0, b, e);
  }

  lemma DerivedParses(ts: seq<Token>, b: nat, e: SumC)
    requires SumYield(e) + [Eof] <= ts
    ensures ParseWhole(ts, b) == if 1 + SumDepth(e) <= b then Some(SumAst(e)) else None
  {
    var k := |SumYield(e)|;
    assert ts[..k + 1] == SumYield(e) + [Eof];
    assert ts[k] == (SumYield(e) + [Eof])[k];
    assert ts[0..k] == (SumYield(e) + [Eof])[..k] == SumYield(e);
    ExprComplete(ts, 0, b, e);
  }

  lemma {:induction false} NoEofInSum(e: SumC)
    ensures Eof !in SumYield(e)
  {
    match e
    case OneTerm(term) => NoEofInTerm(term);
    case AddC(_, left, right) => NoEofInSum(left); NoEofInTerm(right);
  }

  lemma {:induction false} NoEofInTerm(t: TermC)
    ensures Eof !in TermYield(t)
  {
    match t
    case OneUnary(unary) => NoEofInUnary(unary);
    case MulC(_, left, right) => NoEofInTerm(left); NoEofInUnary(right);
  }

  lemma {:induction false} NoEofInUnary(u: UnaryC)
    ensures Eof !in UnaryYield(u)
  {
    match u
    case OnePrimary(ParenC(inner)) => NoEofInSum(inner);
    case OnePrimary(CallC(_, args)) => NoEofInArgs(args);
    case OnePrimary(_) =>
    case SignC(_, operand) => NoEofInUnary(operand);
  }

  lemma {:induction false} NoEofInArgs(a: ArgsC)
    ensures Eof !in ArgsYield(a)
  {
    match a
    case LastArg(arg) => NoEofInSum(arg);
    case MoreArgs(arg, rest) => NoEofInSum(arg); NoEofInArgs(rest);
  }

  /** The grammar is unambiguous: one token text has one meaning and one depth. */
  lemma GrammarIsUnambiguous(e: SumC, f: SumC)
    requires SumYield(e) == SumYield(f)
    ensures SumAst(e) == SumAst(f) && SumDepth(e) == SumDepth(f)
  {
    var ts := SumYield(e) + [Eof];
    DerivedParses(ts, 1 + SumDepth(e), e);
    DerivedParses(ts, 1 + SumDepth(e), f);
    DerivedParses(ts, 1 + SumDepth(f), e);
    DerivedParses(ts, 1 + SumDepth(f), f);
  }
}
