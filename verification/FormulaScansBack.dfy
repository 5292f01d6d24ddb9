/**
 * When the canonical text scans back into the tokens it was printed from: exactly where no reference rule interferes.
 */
module FormulaScansBack {
  import opened Util
  import opened FormulaAst
  import opened FormulaGrammar
  import opened FormulaPrinter
  import opened FormulaText
  import opened FormulaLexer
  import opened FormulaEvaluator
  import opened FormulaPipeline
  import opened FormulaCanonical

  // ---------------------------------------------------------------- leaves the scanner can spell

  predicate FieldSpelled(field: string) {
    && field != "" && IsWordStart(field[0])
    && (forall i :: 0 <= i < |field| ==> IsWordPart(field[i])) && UpperCase(field) == field
  }

  predicate NumberSpelled(v: Vocabulary, text: string, value: real) {
    && text != "" && (IsDigit(text[0]) || (text[0] == '.' && Matches(text, 1, IsDigit)))
    && NumberEnd(text, 0, |text|) == |text| && v.finiteNumber(text) == Some(value)
  }

  predicate SecuritySpelled(canonical: string) {
    canonical != "" && IsRefStart(canonical[0]) && !IsSpace(canonical[|canonical| - 1])
  }

  predicate WellSpelled(v: Vocabulary, spell: real -> string, node: Node) {
    match node
    case Number(value) => NumberSpelled(v, spell(value), value)
    case Field(field) => FieldSpelled(field)
    case Security(canonical) => SecuritySpelled(canonical)
    case ErrorNode => false
    case Unary(_, operand) => WellSpelled(v, spell, operand)
    case Binary(_, left, right) => WellSpelled(v, spell, left) && WellSpelled(v, spell, right)
    case Call(_, args) => forall i :: 0 <= i < |args| ==> WellSpelled(v, spell, args[i])
  }

  // ---------------------------------------------------------------- where the printer puts its tokens

  function PutAt(token: Token, i: nat, length: nat): Lexeme {
    Lexeme(token, None, i, i + length)
  }

  /** Where a chain of lexemes starts and stops, and whether the scanner takes each as it is. */
  datatype Layout = Layout(from: nat, to: nat, taken: bool) | NoChain

  /** What is asked of a scanner: how lexemes are laid out, is no reference here, is this reference here. */
  datatype Scanner = Scanner(layout: seq<Lexeme> -> Layout, isFree: nat -> bool, names: (nat, string) -> bool)

  /** A printed part: its text, its tokens where it is printed at some place, and its guard there. */
  datatype Part = Part(text: string, placed: nat -> seq<Lexeme>, guard: nat -> bool)

  function Leaf(token: Token, text: string, guard: nat -> bool): Part {
    Part(text, (i: nat) => [PutAt(token, i, |text|)], guard)
  }

  function Wrap(wrap: bool, p: Part): Part {
    if !wrap then p
    else Part("(" + p.text + ")",
              (i: nat) => [PutAt(LParen, i, 1)] + p.placed(i + 1) + [PutAt(RParen, i + 1 + |p.text|, 1)],
              (i: nat) => p.guard(i + 1))
  }

  function Signed(op: UnaryOp, p: Part): Part {
    Part((if op == Pos then "+" else "-") + p.text,
         (i: nat) => [PutAt(SignToken(op), i, 1)] + p.placed(i + 1),
         (i: nat) => p.guard(i + 1))
  }

  /** Where the operator stands behind its left operand, and where the right one stands. */
  function OpAt(l: Part, i: nat): nat {
    i + |l.text| + if EndsWithSchemeRef(l.text) then 1 else 0
  }

  function RightAt(op: BinaryOp, l: Part, i: nat): nat {
    i + |l.text| + |Between(op, EndsWithSchemeRef(l.text))|
  }

  function Operation(sc: Scanner, op: BinaryOp, l: Part, r: Part): Part {
    Part(JoinText(op, l.text, r.text),
         (i: nat) => l.placed(i) + [PutAt(OpToken(op), OpAt(l, i), 1)] + r.placed(RightAt(op, l, i)),
         (i: nat) => l.guard(i) && (op == Slash ==> sc.isFree(OpAt(l, i))) && r.guard(RightAt(op, l, i)))
  }

  function Nothing(): Part {
    Part("", (i: nat) => [], (i: nat) => true)
  }

  function Listed(p: Part, more: Part): Part {
    Part(p.text + ", " + more.text,
         (i: nat) => p.placed(i) + [PutAt(Comma, i + |p.text|, 1)] + more.placed(i + |p.text| + 2),
         (i: nat) => p.guard(i) && more.guard(i + |p.text| + 2))
  }

  function Called(sc: Scanner, name: string, list: Part): Part {
    Part(name + "(" + list.text + ")",
         (i: nat) => [PutAt(WordToken(name), i, |name|), PutAt(LParen, i + |name|, 1)] + list.placed(i + |name| + 1)
                     + [PutAt(RParen, i + |name| + 1 + |list.text|, 1)],
         (i: nat) => sc.isFree(i) && list.guard(i + |name| + 1))
  }

  predicate WrapsLeft(op: BinaryOp, left: Node) {
    BindingOf(left) < OpBinding(op)
  }

  predicate WrapsRight(op: BinaryOp, right: Node) {
    BindingOf(right) < OpBinding(op) || (BindingOf(right) == OpBinding(op) && (op == Minus || op == Slash))
  }

  /**
   * A printed tree. Its guard: no reference rule fires at a number, a field, a function name or a division, and one
   * does at each security, for its own spelling.
   */
  function PartOf(sc: Scanner, spell: real -> string, node: Node): Part {
    match node
    case Number(value) => Leaf(NumberToken(value), spell(value), sc.isFree)
    case Field(field) => Leaf(WordToken(field), field, sc.isFree)
    case Security(canonical) => Leaf(RefToken(canonical), canonical, (i: nat) => sc.names(i, canonical))
    case ErrorNode => Leaf(ErrorToken, "?", (i: nat) => false)
    case Unary(op, operand) => Signed(op, Wrap(operand.Unary? || operand.Binary?, PartOf(sc, spell, operand)))
    case Binary(op, left, right) =>
      Operation(sc, op, Wrap(WrapsLeft(op, left), PartOf(sc, spell, left)),
          Wrap(WrapsRight(op, right), PartOf(sc, spell, right)))
    case Call(name, args) => Called(sc, NameText(name), ListOf(sc, spell, args))
  }

  function ListOf(sc: Scanner, spell: real -> string, args: seq<Node>): Part {
    if args == [] then Nothing()
    else if |args| == 1 then PartOf(sc, spell, args[0])
    else Listed(PartOf(sc, spell, args[0]), ListOf(sc, spell, args[1..]))
  }

  /** The part has the printer's text and the printer's tokens. */
  lemma {:induction false} PartIsPrinted(sc: Scanner, spell: real -> string, node: Node)
    ensures PartOf(sc, spell, node).text == PrintText(spell, node)
  {
    match node
    case Unary(_, operand) => PartIsPrinted(sc, spell, operand);
    case Binary(_, left, right) => PartIsPrinted(sc, spell, left); PartIsPrinted(sc, spell, right);
    case Call(_, args) => ListIsPrinted(sc, spell, args);
    case _ =>
  }

  lemma {:induction false} ListIsPrinted(sc: Scanner, spell: real -> string, args: seq<Node>)
    ensures ListOf(sc, spell, args).text == PrintList(spell, args)
  {
    if args != [] {
      PartIsPrinted(sc, spell, args[0]);
      ListIsPrinted(sc, spell, args[1..]);
    }
  }

  lemma TokensJoin(xs: seq<Lexeme>, ys: seq<Lexeme>)
    ensures TokensOf(xs + ys) == TokensOf(xs) + TokensOf(ys)
  {
  }

  ghost predicate Carries(p: Part, tokens: seq<Token>) {
    forall i: nat :: TokensOf(p.placed(i)) == tokens
  }

  lemma CallTokens(sc: Scanner, name: string, list: Part, tokens: seq<Token>)
    requires Carries(list, tokens)
    ensures Carries(Called(sc, name, list), [WordToken(name), LParen] + tokens + [RParen])
  {
    forall i: nat
      ensures TokensOf(Called(sc, name, list).placed(i)) == [WordToken(name), LParen] + tokens + [RParen]
    {
      var inner := list.placed(i + |name| + 1);
      var open, closes := [PutAt(WordToken(name), i, |name|), PutAt(LParen, i + |name|, 1)],
          [PutAt(RParen, i + |name| + 1 + |list.text|, 1)];
      assert Called(sc, name, list).placed(i) == open + inner + closes;
      TokensJoin(open + inner, closes);
      TokensJoin(open, inner);
      assert TokensOf(open) == [WordToken(name), LParen] && TokensOf(closes) == [RParen];
    }
  }

  lemma WrapTokens(wrap: bool, p: Part, tokens: seq<Token>)
    requires Carries(p, tokens)
    ensures Carries(Wrap(wrap, p), Wrapped(wrap, tokens))
  {
    if wrap {
      forall i: nat
        ensures TokensOf(Wrap(wrap, p).placed(i)) == [LParen] + tokens + [RParen]
      {
        assert TokensOf(p.placed(i + 1)) == tokens;
      }
    }
  }

  lemma SignedTokens(op: UnaryOp, p: Part, tokens: seq<Token>)
    requires Carries(p, tokens)
    ensures Carries(Signed(op, p), [SignToken(op)] + tokens)
  {
    forall i: nat
      ensures TokensOf(Signed(op, p).placed(i)) == [SignToken(op)] + tokens
    {
      assert TokensOf(p.placed(i + 1)) == tokens;
    }
  }

  lemma OperationTokens(sc: Scanner, op: BinaryOp, l: Part, r: Part, a: seq<Token>, b: seq<Token>)
    requires Carries(l, a) && Carries(r, b)
    ensures Carries(Operation(sc, op, l, r), a + [OpToken(op)] + b)
  {
    forall i: nat
      ensures TokensOf(Operation(sc, op, l, r).placed(i)) == a + [OpToken(op)] + b
    {
      var one, right := [PutAt(OpToken(op), OpAt(l, i), 1)], r.placed(RightAt(op, l, i));
      TokensJoin(l.placed(i) + one, right);
      TokensJoin(l.placed(i), one);
      assert TokensOf(one) == [OpToken(op)];
    }
  }

  lemma ListedTokens(p: Part, more: Part, a: seq<Token>, b: seq<Token>)
    requires Carries(p, a) && Carries(more, b)
    ensures Carries(Listed(p, more), a + [Comma] + b)
  {
    forall i: nat
      ensures TokensOf(Listed(p, more).placed(i)) == a + [Comma] + b
    {
      var one, rest := [PutAt(Comma, i + |p.text|, 1)], more.placed(i + |p.text| + 2);
      TokensJoin(p.placed(i) + one, rest);
      TokensJoin(p.placed(i), one);
      assert TokensOf(one) == [Comma];
    }
  }

  lemma {:induction false} PartTokens(sc: Scanner, spell: real -> string, node: Node)
    ensures Carries(PartOf(sc, spell, node), FormatFormula(node))
  {
    match node
    case Unary(op, operand) =>
      var wrap := operand.Unary? || operand.Binary?;
      PartTokens(sc, spell, operand);
      WrapTokens(wrap, PartOf(sc, spell, operand), FormatFormula(operand));
      SignedTokens(op, Wrap(wrap, PartOf(sc, spell, operand)), Wrapped(wrap, FormatFormula(operand)));
    case Binary(op, left, right) =>
      var wl, wr := WrapsLeft(op, left), WrapsRight(op, right);
      PartTokens(sc, spell, left);
      PartTokens(sc, spell, right);
      WrapTokens(wl, PartOf(sc, spell, left), FormatFormula(left));
      WrapTokens(wr, PartOf(sc, spell, right), FormatFormula(right));
      OperationTokens(sc, op, Wrap(wl, PartOf(sc, spell, left)), Wrap(wr, PartOf(sc, spell, right)),
                      Wrapped(wl, FormatFormula(left)), Wrapped(wr, FormatFormula(right)));
    case Call(name, args) =>
      ListTokens(sc, spell, args);
      CallTokens(sc, NameText(name), ListOf(sc, spell, args), FormatArgs(args));
    case _ =>
  }

  lemma {:induction false} ListTokens(sc: Scanner, spell: real -> string, args: seq<Node>)
    ensures Carries(ListOf(sc, spell, args), FormatArgs(args))
  {
    if args != [] {
      PartTokens(sc, spell, args[0]);
      ListTokens(sc, spell, args[1..]);
      if |args| > 1 {
        ListedTokens(PartOf(sc, spell, args[0]), ListOf(sc, spell, args[1..]), FormatFormula(args[0]),
            FormatArgs(args[1..]));
      }
    }
  }

  // ---------------------------------------------------------------- the guards of a text

  /** The scanner takes this lexeme where it stands. */
  predicate IsAt(v: Vocabulary, raw: string, end: nat, x: Lexeme) {
    x.start < end <= |raw| && LexemeAt(v, raw, x.start, end) == x
  }

  predicate NoReference(v: Vocabulary, raw: string, end: nat, i: nat) {
    i < end <= |raw| && (IsRefStart(raw[i]) ==> Reference(v, raw, i, end) == Declined)
  }

  predicate TheReference(v: Vocabulary, raw: string, end: nat, i: nat, canonical: string) {
    i < end <= |raw| && Reference(v, raw, i, end) == Recognised(i + |canonical|, canonical)
  }

  // ---------------------------------------------------------------- lexemes laid out in a text

  ghost predicate AllAt(v: Vocabulary, raw: string, end: nat, ys: seq<Lexeme>) {
    forall x :: x in ys ==> IsAt(v, raw, end, x)
  }

  /** Next to each other, or one space apart. */
  predicate Follows(raw: string, i: nat, j: nat) {
    j == i || (j == i + 1 && i < |raw| && raw[i] == ' ')
  }

  predicate Chained(raw: string, end: nat, ys: seq<Lexeme>) {
    && end <= |raw|
    && (forall k :: 0 <= k < |ys| ==> ys[k].start < ys[k].end <= end && !IsSpace(raw[ys[k].start]))
    && (forall k :: 0 < k < |ys| ==> Follows(raw, ys[k - 1].end, ys[k].start))
  }

  /** The lexeme stands in the text as the printer spells its token. */
  ghost predicate Genuine(v: Vocabulary, raw: string, end: nat, x: Lexeme) {
    match x.token
    case WordToken(word) => Printed(raw, x.start, end, word) && FieldSpelled(word)
        && x == PutAt(x.token, x.start, |word|)
    case NumberToken(value) =>
      exists text :: Printed(raw, x.start, end, text) && NumberSpelled(v, text, value)
          && x == PutAt(x.token, x.start, |text|)
    case RefToken(canonical) =>
      Printed(raw, x.start, end, canonical) && SecuritySpelled(canonical) && x == PutAt(x.token, x.start, |canonical|)
    case _ => x.start < end <= |raw| && Punctuation(raw[x.start]) == Some(x.token) && x == PutAt(x.token, x.start, 1)
  }

  ghost predicate AllGenuine(v: Vocabulary, raw: string, end: nat, ys: seq<Lexeme>) {
    forall x :: x in ys ==> Genuine(v, raw, end, x)
  }

  ghost function LayoutOf(v: Vocabulary, raw: string, end: nat, ys: seq<Lexeme>): Layout {
    if ys != [] && Chained(raw, end, ys) && AllGenuine(v, raw, end, ys)
    then Layout(ys[0].start, ys[|ys| - 1].end, AllAt(v, raw, end, ys)) else NoChain
  }

  ghost function ScannerOf(v: Vocabulary, raw: string, end: nat): Scanner {
    Scanner(ys => LayoutOf(v, raw, end, ys), (i: nat) => NoReference(v, raw, end, i),
            (i: nat, canonical) => TheReference(v, raw, end, i, canonical))
  }

  lemma ChainedConcat(raw: string, end: nat, xs: seq<Lexeme>, ys: seq<Lexeme>)
    requires Chained(raw, end, xs) && Chained(raw, end, ys) && xs != [] && ys != []
    requires Follows(raw, xs[|xs| - 1].end, ys[0].start)
    ensures Chained(raw, end, xs + ys)
  {
    var zs, n := xs + ys, |xs|;
    forall k | 0 < k < |zs|
      ensures Follows(raw, zs[k - 1].end, zs[k].start)
    {
      if k < n {
        assert zs[k - 1] == xs[k - 1] && zs[k] == xs[k];
      } else if k > n {
        assert zs[k - 1] == ys[k - 1 - n] && zs[k] == ys[k - n];
      }
    }
  }

  lemma LayoutConcat(v: Vocabulary, raw: string, end: nat, xs: seq<Lexeme>, ys: seq<Lexeme>)
    requires LayoutOf(v, raw, end, xs).Layout? && LayoutOf(v, raw, end, ys).Layout?
    requires Follows(raw, LayoutOf(v, raw, end, xs).to, LayoutOf(v, raw, end, ys).from)
    ensures LayoutOf(v, raw, end, xs + ys) == Layout(
              LayoutOf(v, raw, end, xs).from, LayoutOf(v, raw, end, ys).to,
              LayoutOf(v, raw, end, xs).taken && LayoutOf(v, raw, end, ys).taken)
  {
    ChainedConcat(raw, end, xs, ys);
    AllAtConcat(v, raw, end, xs, ys);
    GenuineConcat(v, raw, end, xs, ys);
  }

  lemma AllAtConcat(v: Vocabulary, raw: string, end: nat, xs: seq<Lexeme>, ys: seq<Lexeme>)
    ensures AllAt(v, raw, end, xs + ys) <==> AllAt(v, raw, end, xs) && AllAt(v, raw, end, ys)
  {
    assert forall x :: x in xs + ys <==> x in xs || x in ys;
  }

  lemma GenuineConcat(v: Vocabulary, raw: string, end: nat, xs: seq<Lexeme>, ys: seq<Lexeme>)
    requires AllGenuine(v, raw, end, xs) && AllGenuine(v, raw, end, ys)
    ensures AllGenuine(v, raw, end, xs + ys)
  {
    assert forall x :: x in xs + ys <==> x in xs || x in ys;
  }

  lemma LayoutOne(v: Vocabulary, raw: string, end: nat, x: Lexeme)
    requires x.start < x.end <= end <= |raw| && !IsSpace(raw[x.start]) && Genuine(v, raw, end, x)
    ensures LayoutOf(v, raw, end, [x]) == Layout(x.start, x.end, IsAt(v, raw, end, x))
  {
    assert x in [x];
  }

  /** The scan from `i` takes a chain of lexemes as they are if and only if it takes each. */
  lemma {:induction false} ScansChain(v: Vocabulary, raw: string, i: nat, end: nat, ys: seq<Lexeme>)
    requires i <= end <= |raw| && Chained(raw, end, ys)
    requires if ys == [] then i == end else Follows(raw, i, ys[0].start) && ys[|ys| - 1].end == end
    ensures Lex(v, raw, i, end) == ys <==> AllAt(v, raw, end, ys)
    decreases |ys|
  {
    if ys != [] {
      var x, more := ys[0], ys[1..];
      assert ys == [x] + more;
      LexFirst(v, raw, i, end, x);
      if IsAt(v, raw, end, x) {
        ScansChain(v, raw, x.end, end, more);
        assert Lex(v, raw, i, end)[1..] == Lex(v, raw, x.end, end);
      } else {
        assert Lex(v, raw, i, end)[0] == LexemeAt(v, raw, x.start, end);
      }
    }
  }

  lemma LexFirst(v: Vocabulary, raw: string, i: nat, end: nat, x: Lexeme)
    requires i <= end <= |raw| && x.start < end && Follows(raw, i, x.start) && !IsSpace(raw[x.start])
    ensures var y := LexemeAt(v, raw, x.start, end); Lex(v, raw, i, end) == [y] + Lex(v, raw, y.end, end)
  {
    if i != x.start {
      assert Lex(v, raw, i, end) == Lex(v, raw, x.start, end);
    }
  }

  // ---------------------------------------------------------------- leaves

  /** What may stand behind a printed operand. */
  predicate Delimited(raw: string, j: nat, end: nat) {
    j == end <= |raw| || (j < end <= |raw| && (raw[j] == ' ' || Punctuation(raw[j]).Some?))
  }

  predicate Stands(raw: string, i: nat, end: nat, text: string) {
    i + |text| <= end <= |raw| && raw[i..i + |text|] == text
  }

  lemma CharAt(raw: string, i: nat, end: nat, text: string, k: nat)
    requires Stands(raw, i, end, text) && k < |text|
    ensures raw[i + k] == text[k]
  {
    assert raw[i + k] == raw[i..i + |text|][k];
  }

  lemma DigitsAt(raw: string, i: nat, end: nat, text: string, k: nat)
    requires Stands(raw, i, end, text) && Delimited(raw, i + |text|, end) && k <= |text|
    ensures RunEnd(raw, i + k, end, IsDigit) == i + RunEnd(text, k, |text|, IsDigit)
  {
    var j := RunEnd(text, k, |text|, IsDigit);
    assert forall m :: i <= m < i + |text| ==> raw[m] == raw[i..i + |text|][m - i];
    RunIs(raw, i + k, i + j, end, IsDigit);
  }

  /** Past the digits and the fraction of a literal. */
  function FractionEnd(raw: string, i: nat, end: nat): nat
    requires i <= end <= |raw|
  {
    var whole := RunEnd(raw, i, end, IsDigit);
    if whole < end && raw[whole] == '.' then RunEnd(raw, whole + 1, end, IsDigit) else whole
  }

  lemma FractionEndsAt(raw: string, i: nat, end: nat, text: string)
    requires Stands(raw, i, end, text) && Delimited(raw, i + |text|, end)
    ensures FractionEnd(raw, i, end) == i + FractionEnd(text, 0, |text|)
  {
    var whole := RunEnd(text, 0, |text|, IsDigit);
    DigitsAt(raw, i, end, text, 0);
    if whole < |text| {
      CharAt(raw, i, end, text, whole);
      if text[whole] == '.' {
        DigitsAt(raw, i, end, text, whole + 1);
      }
    }
  }

  /** A numeric literal ends in the text where it ends on its own. */
  lemma NumberEndsAt(raw: string, i: nat, end: nat, text: string)
    requires Stands(raw, i, end, text) && Delimited(raw, i + |text|, end)
    requires text != "" && (IsDigit(text[0]) || text[0] == '.') && NumberEnd(text, 0, |text|) == |text|
    ensures raw[i] == text[0] && NumberEnd(raw, i, end) == i + |text|
  {
    CharAt(raw, i, end, text, 0);
    FractionEndsAt(raw, i, end, text);
    var fraction := FractionEnd(text, 0, |text|);
    assert fraction <= |text| && NumberEnd(text, 0, |text|) == ExponentEnd(text, fraction, |text|);
    ExponentEndsAt(raw, i, end, text, fraction);
    assert NumberEnd(raw, i, end) == ExponentEnd(raw, i + fraction, end);
  }

  lemma ExponentEndsAt(raw: string, i: nat, end: nat, text: string, k: nat)
    requires Stands(raw, i, end, text) && Delimited(raw, i + |text|, end)
    requires k <= |text| && ExponentEnd(text, k, |text|) == |text|
    ensures ExponentEnd(raw, i + k, end) == i + |text|
  {
    if k < |text| {
      CharAt(raw, i, end, text, k);
      CharAt(raw, i, end, text, k + 1);
      var signed := if text[k + 1] == '+' || text[k + 1] == '-' then k + 2 else k + 1;
      CharAt(raw, i, end, text, signed);
      DigitsAt(raw, i, end, text, signed);
    }
  }

  lemma StandsInParts(raw: string, i: nat, end: nat, a: string, b: string)
    requires Stands(raw, i, end, a + b)
    ensures Stands(raw, i, end, a) && Stands(raw, i + |a|, end, b)
  {
    var text := raw[i..i + |a + b|];
    assert raw[i..i + |a|] == text[..|a|] == (a + b)[..|a|] == a;
    assert raw[i + |a|..i + |a| + |b|] == text[|a|..] == (a + b)[|a|..] == b;
  }

  lemma StandsInThree(raw: string, i: nat, end: nat, a: string, b: string, c: string)
    requires Stands(raw, i, end, a + b + c)
    ensures Stands(raw, i, end, a) && Stands(raw, i + |a|, end, b) && Stands(raw, i + |a| + |b|, end, c)
  {
    StandsInParts(raw, i, end, a + b, c);
    StandsInParts(raw, i, end, a, b);
  }

  /** A text with a delimiter behind it. */
  predicate Printed(raw: string, i: nat, end: nat, text: string) {
    Stands(raw, i, end, text) && Delimited(raw, i + |text|, end)
  }

  lemma PrintedInParts(raw: string, i: nat, end: nat, a: string, b: string)
    requires Printed(raw, i, end, a + b)
    ensures Stands(raw, i, end, a) && Printed(raw, i + |a|, end, b)
  {
    StandsInParts(raw, i, end, a, b);
    assert i + |a + b| == i + |a| + |b|;
  }

  /** A text between parentheses, or on its own. */
  lemma PrintedInside(raw: string, i: nat, end: nat, wrap: bool, text: string)
    requires Printed(raw, i, end, WrapText(wrap, text))
    ensures Printed(raw, if wrap then i + 1 else i, end, text)
    ensures wrap ==> raw[i] == '(' && raw[i + 1 + |text|] == ')' && i + 1 + |text| < end
  {
    if wrap {
      StandsInThree(raw, i, end, "(", text, ")");
      CharAt(raw, i, end, "(", 0);
      CharAt(raw, i + 1 + |text|, end, ")", 0);
    }
  }

  /** Punctuation other than a slash is always itself; a slash is unless a reference starts there. */
  lemma PunctuationAt(v: Vocabulary, raw: string, i: nat, end: nat, token: Token)
    requires i < end <= |raw| && Punctuation(raw[i]) == Some(token)
    ensures IsAt(v, raw, end, PutAt(token, i, 1)) <==> (raw[i] == '/' ==> NoReference(v, raw, end, i))
  {
    PunctuationRead(v, raw, i, end, token);
  }

  lemma PunctuationRead(v: Vocabulary, raw: string, i: nat, end: nat, token: Token)
    requires i < end <= |raw| && Punctuation(raw[i]) == Some(token)
    ensures OrdinaryAt(v, raw, i, end) == PutAt(token, i, 1)
    ensures IsRefStart(raw[i]) <==> raw[i] == '/'
  {
    var c := raw[i];
    assert !IsDigit(c) && c != '.' && !IsWordStart(c);
  }

  lemma FieldAt(v: Vocabulary, raw: string, i: nat, end: nat, field: string)
    requires Printed(raw, i, end, field) && FieldSpelled(field)
    ensures IsAt(v, raw, end, PutAt(WordToken(field), i, |field|)) <==> NoReference(v, raw, end, i)
  {
    assert forall k :: i <= k < i + |field| ==> raw[k] == raw[i..i + |field|][k - i];
    RunIs(raw, i, i + |field|, end, IsWordPart);
    assert raw[i] == field[0];
  }

  lemma NumberAt(v: Vocabulary, raw: string, i: nat, end: nat, text: string, value: real)
    requires Printed(raw, i, end, text) && NumberSpelled(v, text, value)
    ensures i < end && !IsSpace(raw[i]) && !IsStructural(raw[i])
    ensures OrdinaryAt(v, raw, i, end) == PutAt(NumberToken(value), i, |text|)
  {
    NumberEndsAt(raw, i, end, text);
    if |text| > 1 {
      CharAt(raw, i, end, text, 1);
    }
  }

  lemma NumberTaken(v: Vocabulary, raw: string, i: nat, end: nat, text: string, value: real)
    requires Printed(raw, i, end, text) && NumberSpelled(v, text, value)
    ensures IsAt(v, raw, end, PutAt(NumberToken(value), i, |text|)) <==> NoReference(v, raw, end, i)
  {
    NumberAt(v, raw, i, end, text, value);
  }

  lemma SecurityAt(v: Vocabulary, raw: string, i: nat, end: nat, canonical: string)
    requires Printed(raw, i, end, canonical) && SecuritySpelled(canonical)
    ensures IsAt(v, raw, end, PutAt(RefToken(canonical), i, |canonical|)) <==> TheReference(v, raw, end, i, canonical)
  {
    CharAt(raw, i, end, canonical, 0);
  }

  // ---------------------------------------------------------------- what a scanner owes a printed text

  ghost predicate Joins(sc: Scanner, raw: string) {
    forall xs, ys {:trigger sc.layout(xs + ys)} ::
      (sc.layout(xs).Layout? && sc.layout(ys).Layout? && Follows(raw, sc.layout(xs).to, sc.layout(ys).from)) ==>
      sc.layout(xs + ys) == Layout(sc.layout(xs).from, sc.layout(ys).to, sc.layout(xs).taken && sc.layout(ys).taken)
  }

  ghost predicate Faithful(sc: Scanner, v: Vocabulary, raw: string, end: nat) {
    Joins(sc, raw) && Takes(sc, v, raw, end)
  }

  ghost predicate Takes(sc: Scanner, v: Vocabulary, raw: string, end: nat) {
    && (forall i: nat, token {:trigger sc.layout([PutAt(token, i, 1)])} ::
          i < end <= |raw| && Punctuation(raw[i]) == Some(token) ==>
          sc.layout([PutAt(token, i, 1)]) == Layout(i, i + 1, raw[i] == '/' ==> sc.isFree(i)))
    && (forall i: nat, field {:trigger sc.layout([PutAt(WordToken(field), i, |field|)])} ::
          Printed(raw, i, end, field) && FieldSpelled(field) ==>
          sc.layout([PutAt(WordToken(field), i, |field|)]) == Layout(i, i + |field|, sc.isFree(i)))
    && (forall i: nat, text, value {:trigger sc.layout([PutAt(NumberToken(value), i, |text|)])} ::
          Printed(raw, i, end, text) && NumberSpelled(v, text, value) ==>
          sc.layout([PutAt(NumberToken(value), i, |text|)]) == Layout(i, i + |text|, sc.isFree(i)))
    && (forall i: nat, canonical {:trigger sc.layout([PutAt(RefToken(canonical), i, |canonical|)])} ::
          Printed(raw, i, end, canonical) && SecuritySpelled(canonical) ==>
          sc.layout([PutAt(RefToken(canonical), i, |canonical|)]) == Layout(i, i + |canonical|, sc.names(i, canonical)))
  }

  lemma ScannerIsFaithful(v: Vocabulary, raw: string, end: nat)
    ensures Faithful(ScannerOf(v, raw, end), v, raw, end)
  {
    ScannerJoins(v, raw, end);
    ScannerTakes(v, raw, end);
  }

  lemma ScannerJoins(v: Vocabulary, raw: string, end: nat)
    ensures Joins(ScannerOf(v, raw, end), raw)
  {
    forall xs, ys | LayoutOf(v, raw, end, xs).Layout? && LayoutOf(v, raw, end, ys).Layout?
                    && Follows(raw, LayoutOf(v, raw, end, xs).to, LayoutOf(v, raw, end, ys).from)
      ensures LayoutOf(v, raw, end, xs + ys) == Layout(
                LayoutOf(v, raw, end, xs).from, LayoutOf(v, raw, end, ys).to,
                LayoutOf(v, raw, end, xs).taken && LayoutOf(v, raw, end, ys).taken)
    {
      LayoutConcat(v, raw, end, xs, ys);
    }
  }

  lemma PunctuationLaid(v: Vocabulary, raw: string, i: nat, end: nat, token: Token)
    requires i < end <= |raw| && Punctuation(raw[i]) == Some(token)
    ensures LayoutOf(v, raw, end, [PutAt(token, i, 1)]) == Layout(i, i + 1, raw[i] == '/'
        ==> NoReference(v, raw, end, i))
  {
    PunctuationAt(v, raw, i, end, token);
    LayoutOne(v, raw, end, PutAt(token, i, 1));
  }

  lemma FieldLaid(v: Vocabulary, raw: string, i: nat, end: nat, field: string)
    requires Printed(raw, i, end, field) && FieldSpelled(field)
    ensures LayoutOf(v, raw, end, [PutAt(WordToken(field), i, |field|)]) == Layout(i, i + |field|,
        NoReference(v, raw, end, i))
  {
    FieldAt(v, raw, i, end, field);
    CharAt(raw, i, end, field, 0);
    LayoutOne(v, raw, end, PutAt(WordToken(field), i, |field|));
  }

  lemma NumberLaid(v: Vocabulary, raw: string, i: nat, end: nat, text: string, value: real)
    requires Printed(raw, i, end, text) && NumberSpelled(v, text, value)
    ensures LayoutOf(v, raw, end, [PutAt(NumberToken(value), i, |text|)]) == Layout(i, i + |text|,
        NoReference(v, raw, end, i))
  {
    NumberTaken(v, raw, i, end, text, value);
    CharAt(raw, i, end, text, 0);
    LayoutOne(v, raw, end, PutAt(NumberToken(value), i, |text|));
  }

  lemma SecurityLaid(v: Vocabulary, raw: string, i: nat, end: nat, canonical: string)
    requires Printed(raw, i, end, canonical) && SecuritySpelled(canonical)
    ensures LayoutOf(v, raw, end, [PutAt(RefToken(canonical), i, |canonical|)])
         == Layout(i, i + |canonical|, TheReference(v, raw, end, i, canonical))
  {
    SecurityAt(v, raw, i, end, canonical);
    CharAt(raw, i, end, canonical, 0);
    LayoutOne(v, raw, end, PutAt(RefToken(canonical), i, |canonical|));
  }

  lemma ScannerTakes(v: Vocabulary, raw: string, end: nat)
    ensures Takes(ScannerOf(v, raw, end), v, raw, end)
  {
    forall i: nat, token | i < end <= |raw| && Punctuation(raw[i]) == Some(token)
      ensures LayoutOf(v, raw, end, [PutAt(token, i, 1)]) == Layout(i, i + 1, raw[i] == '/'
          ==> NoReference(v, raw, end, i))
    {
      PunctuationLaid(v, raw, i, end, token);
    }
    forall i: nat, field | Printed(raw, i, end, field) && FieldSpelled(field)
      ensures LayoutOf(v, raw, end, [PutAt(WordToken(field), i, |field|)]) == Layout(i, i + |field|,
          NoReference(v, raw, end, i))
    {
      FieldLaid(v, raw, i, end, field);
    }
    forall i: nat, text, value | Printed(raw, i, end, text) && NumberSpelled(v, text, value)
      ensures LayoutOf(v, raw, end, [PutAt(NumberToken(value), i, |text|)]) == Layout(i, i + |text|,
          NoReference(v, raw, end, i))
    {
      NumberLaid(v, raw, i, end, text, value);
    }
    forall i: nat, canonical | Printed(raw, i, end, canonical) && SecuritySpelled(canonical)
      ensures LayoutOf(v, raw, end, [PutAt(RefToken(canonical), i, |canonical|)])
           == Layout(i, i + |canonical|, TheReference(v, raw, end, i, canonical))
    {
      SecurityLaid(v, raw, i, end, canonical);
    }
  }

  /** Where the part is printed before a delimiter, its tokens are laid out, and taken exactly under its guard. */
  ghost predicate Sound(sc: Scanner, raw: string, end: nat, p: Part) {
    forall i: nat :: Printed(raw, i, end, p.text) ==> sc.layout(p.placed(i)) == Layout(i, i + |p.text|, p.guard(i))
  }

  lemma Puts(sc: Scanner, v: Vocabulary, raw: string, i: nat, end: nat, token: Token)
    requires Faithful(sc, v, raw, end) && i < end <= |raw| && Punctuation(raw[i]) == Some(token)
    ensures sc.layout([PutAt(token, i, 1)]) == Layout(i, i + 1, raw[i] == '/' ==> sc.isFree(i))
  {
  }

  lemma Joined(sc: Scanner, raw: string, xs: seq<Lexeme>, i: nat, m: nat, p: bool, ys: seq<Lexeme>, n: nat, j: nat,
               q: bool)
    requires Joins(sc, raw) && sc.layout(xs) == Layout(i, m, p) && sc.layout(ys) == Layout(n, j, q)
        && Follows(raw, m, n)
    ensures sc.layout(xs + ys) == Layout(i, j, p && q)
  {
  }

  /** Parentheses around what is laid out. */
  lemma AroundInner(sc: Scanner, v: Vocabulary, raw: string, i: nat, m: nat, end: nat, inner: seq<Lexeme>, p: bool)
    requires Faithful(sc, v, raw, end) && i < m < end <= |raw| && raw[i] == '(' && raw[m] == ')'
    requires sc.layout(inner) == Layout(i + 1, m, p)
    ensures sc.layout([PutAt(LParen, i, 1)] + inner + [PutAt(RParen, m, 1)]) == Layout(i, m + 1, p)
  {
    var opens, closes := [PutAt(LParen, i, 1)], [PutAt(RParen, m, 1)];
    Puts(sc, v, raw, i, end, LParen);
    Puts(sc, v, raw, m, end, RParen);
    Joined(sc, raw, opens, i, i + 1, true, inner, i + 1, m, p);
    Joined(sc, raw, opens + inner, i, m, p, closes, m, m + 1, true);
  }

  lemma WrapAt(sc: Scanner, v: Vocabulary, raw: string, end: nat, p: Part, i: nat)
    requires Faithful(sc, v, raw, end) && Sound(sc, raw, end, p) && Printed(raw, i, end, "(" + p.text + ")")
    ensures var m := i + 1 + |p.text|;
            sc.layout([PutAt(LParen, i, 1)] + p.placed(i + 1) + [PutAt(RParen, m, 1)]) == Layout(i, m + 1,
                p.guard(i + 1))
  {
    PrintedInside(raw, i, end, true, p.text);
    AroundInner(sc, v, raw, i, i + 1 + |p.text|, end, p.placed(i + 1), p.guard(i + 1));
  }

  lemma WrapIsSound(sc: Scanner, v: Vocabulary, raw: string, end: nat, wrap: bool, p: Part)
    requires Faithful(sc, v, raw, end) && Sound(sc, raw, end, p)
    ensures Sound(sc, raw, end, Wrap(wrap, p))
  {
    if wrap {
      forall i: nat | Printed(raw, i, end, "(" + p.text + ")")
        ensures sc.layout(Wrap(true, p).placed(i)) == Layout(i, i + 2 + |p.text|, Wrap(true, p).guard(i))
      {
        WrapAt(sc, v, raw, end, p, i);
      }
    }
  }

  lemma SignedIsSound(sc: Scanner, v: Vocabulary, raw: string, end: nat, op: UnaryOp, p: Part)
    requires Faithful(sc, v, raw, end) && Sound(sc, raw, end, p)
    ensures Sound(sc, raw, end, Signed(op, p))
  {
    var sign := if op == Pos then "+" else "-";
    forall i: nat | Printed(raw, i, end, sign + p.text)
      ensures sc.layout([PutAt(SignToken(op), i, 1)] + p.placed(i + 1)) == Layout(i, i + 1 + |p.text|, p.guard(i + 1))
    {
      PrintedInParts(raw, i, end, sign, p.text);
      CharAt(raw, i, end, sign, 0);
      Puts(sc, v, raw, i, end, SignToken(op));
      Joined(sc, raw, [PutAt(SignToken(op), i, 1)], i, i + 1, true, p.placed(i + 1), i + 1, i + 1 + |p.text|,
          p.guard(i + 1));
    }
  }

  /** The three parts of a printed operation. */
  lemma PrintedOperands(raw: string, i: nat, end: nat, a: string, op: BinaryOp, padded: bool, b: string)
    requires Printed(raw, i, end, a + Between(op, padded) + b)
    ensures Printed(raw, i, end, a) && Stands(raw, i + |a|, end, Between(op, padded))
    ensures Printed(raw, i + |a| + |Between(op, padded)|, end, b)
  {
    var between := Between(op, padded);
    PrintedInParts(raw, i, end, a + between, b);
    StandsInParts(raw, i, end, a, between);
    CharAt(raw, i + |a|, end, between, 0);
  }

  /** An operator between what is laid out on both sides. */
  lemma OperatorBetween(sc: Scanner, v: Vocabulary, raw: string, end: nat, op: BinaryOp, padded: bool,
                        xs: seq<Lexeme>, i: nat, m: nat, p: bool, ys: seq<Lexeme>, j: nat, q: bool)
    requires Faithful(sc, v, raw, end) && Stands(raw, m, end, Between(op, padded))
    requires sc.layout(xs) == Layout(i, m, p) && sc.layout(ys) == Layout(m + |Between(op, padded)|, j, q)
    ensures var k := if padded then m + 1 else m;
            sc.layout(xs + [PutAt(OpToken(op), k, 1)] + ys) == Layout(i, j, p && (op == Slash ==> sc.isFree(k)) && q)
  {
    var k, n := if padded then m + 1 else m, m + |Between(op, padded)|;
    CharAt(raw, m, end, Between(op, padded), 0);
    CharAt(raw, m, end, Between(op, padded), k - m);
    CharAt(raw, m, end, Between(op, padded), n - 1 - m);
    var one, guard := [PutAt(OpToken(op), k, 1)], op == Slash ==> sc.isFree(k);
    Puts(sc, v, raw, k, end, OpToken(op));
    Joined(sc, raw, xs, i, m, p, one, k, k + 1, guard);
    Joined(sc, raw, xs + one, i, k + 1, p && guard, ys, n, j, q);
  }

  lemma OperationIsSound(sc: Scanner, v: Vocabulary, raw: string, end: nat, op: BinaryOp, l: Part, r: Part)
    requires Faithful(sc, v, raw, end) && Sound(sc, raw, end, l) && Sound(sc, raw, end, r)
    ensures Sound(sc, raw, end, Operation(sc, op, l, r))
  {
    var p := Operation(sc, op, l, r);
    forall i: nat | Printed(raw, i, end, p.text)
      ensures sc.layout(p.placed(i)) == Layout(i, i + |p.text|, p.guard(i))
    {
      OperationLaid(sc, v, raw, end, op, l, r, i);
    }
  }

  lemma OperationIs(sc: Scanner, op: BinaryOp, l: Part, r: Part, i: nat, padded: bool)
    requires padded == EndsWithSchemeRef(l.text)
    ensures var p, k, n := Operation(sc, op, l, r), i + |l.text| + (if padded then 1 else 0),
        i + |l.text| + |Between(op, padded)|;
            && p.text == l.text + Between(op, padded) + r.text
            && p.placed(i) == l.placed(i) + [PutAt(OpToken(op), k, 1)] + r.placed(n)
            && p.guard(i) == (l.guard(i) && (op == Slash ==> sc.isFree(k)) && r.guard(n))
  {
  }

  lemma OperationLaid(sc: Scanner, v: Vocabulary, raw: string, end: nat, op: BinaryOp, l: Part, r: Part, i: nat)
    requires Faithful(sc, v, raw, end) && Sound(sc, raw, end, l) && Sound(sc, raw, end, r)
    requires Printed(raw, i, end, Operation(sc, op, l, r).text)
    ensures var p := Operation(sc, op, l, r); sc.layout(p.placed(i)) == Layout(i, i + |p.text|, p.guard(i))
  {
    var padded := EndsWithSchemeRef(l.text);
    OperationIs(sc, op, l, r, i, padded);
    OperationAt(sc, v, raw, end, op, padded, l, r, i);
    TextLength(l.text, Between(op, padded), r.text);
  }

  lemma TextLength(a: string, b: string, c: string)
    ensures |a + b + c| == |a| + |b| + |c|
  {
  }

  lemma OperationAt(sc: Scanner, v: Vocabulary, raw: string, end: nat, op: BinaryOp, padded: bool, l: Part, r: Part,
                    i: nat)
    requires Faithful(sc, v, raw, end) && Sound(sc, raw, end, l) && Sound(sc, raw, end, r)
    requires Printed(raw, i, end, l.text + Between(op, padded) + r.text)
    ensures var k, n := i + |l.text| + (if padded then 1 else 0), i + |l.text| + |Between(op, padded)|;
            sc.layout(l.placed(i) + [PutAt(OpToken(op), k, 1)] + r.placed(n))
            == Layout(i, n + |r.text|, l.guard(i) && (op == Slash ==> sc.isFree(k)) && r.guard(n))
  {
    var m, n := i + |l.text|, i + |l.text| + |Between(op, padded)|;
    PrintedOperands(raw, i, end, l.text, op, padded, r.text);
    OperatorBetween(sc, v, raw, end, op, padded, l.placed(i), i, m, l.guard(i), r.placed(n), n + |r.text|, r.guard(n));
  }

  /** A comma and a space between what is laid out on both sides. */
  lemma CommaBetween(sc: Scanner, v: Vocabulary, raw: string, end: nat, xs: seq<Lexeme>, i: nat, m: nat, p: bool,
                     ys: seq<Lexeme>, j: nat, q: bool)
    requires Faithful(sc, v, raw, end) && sc.layout(xs) == Layout(i, m, p) && sc.layout(ys) == Layout(m + 2, j, q)
    requires m + 2 <= end <= |raw| && raw[m] == ',' && raw[m + 1] == ' '
    ensures sc.layout(xs + [PutAt(Comma, m, 1)] + ys) == Layout(i, j, p && q)
  {
    Puts(sc, v, raw, m, end, Comma);
    Joined(sc, raw, xs, i, m, p, [PutAt(Comma, m, 1)], m, m + 1, true);
    Joined(sc, raw, xs + [PutAt(Comma, m, 1)], i, m + 1, p, ys, m + 2, j, q);
  }

  lemma ListedAt(sc: Scanner, v: Vocabulary, raw: string, end: nat, p: Part, more: Part, i: nat)
    requires Faithful(sc, v, raw, end) && Sound(sc, raw, end, p) && Sound(sc, raw, end, more)
    requires Printed(raw, i, end, p.text + ", " + more.text)
    ensures var m := i + |p.text|;
            sc.layout(p.placed(i) + [PutAt(Comma, m, 1)] + more.placed(m + 2))
            == Layout(i, m + 2 + |more.text|, p.guard(i) && more.guard(m + 2))
  {
    var m := i + |p.text|;
    PrintedItems(raw, i, end, p.text, more.text);
    CommaBetween(sc, v, raw, end, p.placed(i), i, m, p.guard(i), more.placed(m + 2), m + 2 + |more.text|,
        more.guard(m + 2));
  }

  lemma ListedLaid(sc: Scanner, v: Vocabulary, raw: string, end: nat, p: Part, more: Part, i: nat)
    requires Faithful(sc, v, raw, end) && Sound(sc, raw, end, p) && Sound(sc, raw, end, more)
    requires Printed(raw, i, end, Listed(p, more).text)
    ensures var all := Listed(p, more); sc.layout(all.placed(i)) == Layout(i, i + |all.text|, all.guard(i))
  {
    TextLength(p.text, ", ", more.text);
    ListedAt(sc, v, raw, end, p, more, i);
    assert Listed(p, more).guard(i) == (p.guard(i) && more.guard(i + |p.text| + 2));
  }

  lemma ListedIsSound(sc: Scanner, v: Vocabulary, raw: string, end: nat, p: Part, more: Part)
    requires Faithful(sc, v, raw, end) && Sound(sc, raw, end, p) && Sound(sc, raw, end, more)
    ensures Sound(sc, raw, end, Listed(p, more))
  {
    var all := Listed(p, more);
    forall i: nat | Printed(raw, i, end, all.text)
      ensures sc.layout(all.placed(i)) == Layout(i, i + |all.text|, all.guard(i))
    {
      ListedLaid(sc, v, raw, end, p, more, i);
    }
  }

  lemma PrintedItems(raw: string, i: nat, end: nat, text: string, list: string)
    requires Printed(raw, i, end, text + ", " + list)
    ensures var m := i + |text|;
            && Printed(raw, i, end, text) && Printed(raw, m + 2, end, list)
            && m + 2 <= end <= |raw| && raw[m] == ',' && raw[m + 1] == ' '
  {
    PrintedInParts(raw, i, end, text + ", ", list);
    StandsInParts(raw, i, end, text, ", ");
    CharAt(raw, i + |text|, end, ", ", 0);
    CharAt(raw, i + |text|, end, ", ", 1);
  }

  lemma NameIsSpelled(name: FunctionName)
    ensures FieldSpelled(NameText(name))
  {
    assert UpperCase(NameText(name)) == NameText(name);
  }

  lemma PrintedCall(raw: string, i: nat, end: nat, text: string, list: string)
    requires Printed(raw, i, end, text + "(" + list + ")")
    ensures var j := i + |text| + 1;
            && Printed(raw, i, end, text) && raw[j - 1] == '(' && Printed(raw, j, end, list)
            && j + |list| < end <= |raw| && raw[j + |list|] == ')'
  {
    StandsInThree(raw, i, end, text + "(", list, ")");
    StandsInParts(raw, i, end, text, "(");
    CharAt(raw, i + |text|, end, "(", 0);
    CharAt(raw, i + |text + "("| + |list|, end, ")", 0);
  }

  /** The name and the parenthesis of a call. */
  lemma NameAt(sc: Scanner, v: Vocabulary, raw: string, i: nat, end: nat, text: string)
    requires Faithful(sc, v, raw, end) && Printed(raw, i, end, text) && FieldSpelled(text)
    requires i + |text| < end && raw[i + |text|] == '('
    ensures var n := |text|;
            sc.layout([PutAt(WordToken(text), i, n), PutAt(LParen, i + n, 1)]) == Layout(i, i + n + 1, sc.isFree(i))
  {
    var n := |text|;
    var word, opens := [PutAt(WordToken(text), i, n)], [PutAt(LParen, i + n, 1)];
    Puts(sc, v, raw, i + n, end, LParen);
    assert sc.layout(word) == Layout(i, i + n, sc.isFree(i));
    Joined(sc, raw, word, i, i + n, sc.isFree(i), opens, i + n, i + n + 1, true);
    assert word + opens == [PutAt(WordToken(text), i, n), PutAt(LParen, i + n, 1)];
  }

  /** A name, a list that may be empty, and a closing parenthesis. */
  lemma CallAt(sc: Scanner, v: Vocabulary, raw: string, end: nat, name: string, i: nat, inner: seq<Lexeme>, m: nat,
               q: bool)
    requires Faithful(sc, v, raw, end) && Printed(raw, i, end, name) && FieldSpelled(name)
    requires i + |name| < m < end <= |raw| && raw[i + |name|] == '(' && raw[m] == ')'
    requires (inner == [] && m == i + |name| + 1 && q) || sc.layout(inner) == Layout(i + |name| + 1, m, q)
    ensures sc.layout([PutAt(WordToken(name), i, |name|), PutAt(LParen, i + |name|, 1)] + inner + [PutAt(RParen, m, 1)])
         == Layout(i, m + 1, sc.isFree(i) && q)
  {
    var j := i + |name| + 1;
    var open, closes := [PutAt(WordToken(name), i, |name|), PutAt(LParen, i + |name|, 1)], [PutAt(RParen, m, 1)];
    NameAt(sc, v, raw, i, end, name);
    Puts(sc, v, raw, m, end, RParen);
    if sc.layout(inner) == Layout(j, m, q) {
      Joined(sc, raw, open, i, j, sc.isFree(i), inner, j, m, q);
    } else {
      assert open + inner == open;
    }
    Joined(sc, raw, open + inner, i, m, sc.isFree(i) && q, closes, m, m + 1, true);
  }

  lemma CalledIsSound(sc: Scanner, v: Vocabulary, raw: string, end: nat, name: string, list: Part)
    requires Faithful(sc, v, raw, end) && FieldSpelled(name) && (list == Nothing() || Sound(sc, raw, end, list))
    ensures Sound(sc, raw, end, Called(sc, name, list))
  {
    forall i: nat | Printed(raw, i, end, name + "(" + list.text + ")")
      ensures sc.layout(Called(sc, name, list).placed(i))
           == Layout(i, i + |name + "(" + list.text + ")"|, Called(sc, name, list).guard(i))
    {
      CalledAt(sc, v, raw, end, name, list, i);
    }
  }

  lemma CalledAt(sc: Scanner, v: Vocabulary, raw: string, end: nat, name: string, list: Part, i: nat)
    requires Faithful(sc, v, raw, end) && FieldSpelled(name) && (list == Nothing() || Sound(sc, raw, end, list))
    requires Printed(raw, i, end, name + "(" + list.text + ")")
    ensures sc.layout(Called(sc, name, list).placed(i))
         == Layout(i, i + |name + "(" + list.text + ")"|, Called(sc, name, list).guard(i))
  {
    var j := i + |name| + 1;
    PrintedCall(raw, i, end, name, list.text);
    CallAt(sc, v, raw, end, name, i, list.placed(j), j + |list.text|, list.guard(j));
  }

  /** Every printed tree is sound. */
  lemma {:induction false} PartIsSound(sc: Scanner, v: Vocabulary, spell: real -> string, raw: string, end: nat,
                                       node: Node)
    requires Faithful(sc, v, raw, end) && WellSpelled(v, spell, node)
    ensures Sound(sc, raw, end, PartOf(sc, spell, node))
  {
    match node
    case Number(value) =>
    case Field(field) =>
    case Security(canonical) =>
    case Unary(op, operand) =>
      var wrap := operand.Unary? || operand.Binary?;
      PartIsSound(sc, v, spell, raw, end, operand);
      WrapIsSound(sc, v, raw, end, wrap, PartOf(sc, spell, operand));
      SignedIsSound(sc, v, raw, end, op, Wrap(wrap, PartOf(sc, spell, operand)));
    case Binary(op, left, right) =>
      var wl, wr := WrapsLeft(op, left), WrapsRight(op, right);
      PartIsSound(sc, v, spell, raw, end, left);
      PartIsSound(sc, v, spell, raw, end, right);
      WrapIsSound(sc, v, raw, end, wl, PartOf(sc, spell, left));
      WrapIsSound(sc, v, raw, end, wr, PartOf(sc, spell, right));
      OperationIsSound(sc, v, raw, end, op, Wrap(wl, PartOf(sc, spell, left)), Wrap(wr, PartOf(sc, spell, right)));
    case Call(name, args) =>
      NameIsSpelled(name);
      if args != [] {
        ListIsSound(sc, v, spell, raw, end, args);
      }
      CalledIsSound(sc, v, raw, end, NameText(name), ListOf(sc, spell, args));
  }

  lemma {:induction false} ListIsSound(sc: Scanner, v: Vocabulary, spell: real -> string, raw: string, end: nat,
                                       args: seq<Node>)
    requires Faithful(sc, v, raw, end) && args != [] && forall k :: 0 <= k < |args| ==> WellSpelled(v, spell, args[k])
    ensures Sound(sc, raw, end, ListOf(sc, spell, args))
  {
    PartIsSound(sc, v, spell, raw, end, args[0]);
    if |args| > 1 {
      ListIsSound(sc, v, spell, raw, end, args[1..]);
      ListedIsSound(sc, v, raw, end, PartOf(sc, spell, args[0]), ListOf(sc, spell, args[1..]));
    }
  }

  // ---------------------------------------------------------------- the whole text

  /** Edges of a printed text: what trimming and unwrapping look at. */
  predicate Edged(text: string) {
    text != "" && !IsSpace(text[0]) && text[0] != '<' && !IsSpace(text[|text| - 1])
  }

  lemma JoinIsEdged(op: BinaryOp, a: string, b: string)
    requires Edged(a) && Edged(b)
    ensures Edged(JoinText(op, a, b))
  {
    var front := a + Between(op, EndsWithSchemeRef(a));
    assert JoinText(op, a, b) == front + b && front[0] == a[0];
  }

  lemma WrapIsEdged(wrap: bool, text: string)
    requires Edged(text)
    ensures Edged(WrapText(wrap, text))
  {
  }

  lemma {:induction false} PrintIsEdged(v: Vocabulary, spell: real -> string, node: Node)
    requires WellSpelled(v, spell, node)
    ensures Edged(PrintText(spell, node))
  {
    match node
    case Number(value) => NumberIsEdged(spell(value));
    case Field(_) =>
    case Security(_) =>
    case Unary(_, operand) =>
      PrintIsEdged(v, spell, operand);
      WrapIsEdged(operand.Unary? || operand.Binary?, PrintText(spell, operand));
    case Binary(op, left, right) =>
      var l, r := WrapText(WrapsLeft(op, left), PrintText(spell, left)),
          WrapText(WrapsRight(op, right), PrintText(spell, right));
      PrintIsEdged(v, spell, left);
      PrintIsEdged(v, spell, right);
      WrapIsEdged(WrapsLeft(op, left), PrintText(spell, left));
      WrapIsEdged(WrapsRight(op, right), PrintText(spell, right));
      JoinIsEdged(op, l, r);
      assert PrintText(spell, node) == JoinText(op, l, r);
    case Call(name, args) =>
      NameIsSpelled(name);
      CallIsEdged(NameText(name), PrintList(spell, args));
  }

  lemma CallIsEdged(name: string, list: string)
    requires FieldSpelled(name)
    ensures Edged(name + "(" + list + ")")
  {
    var text := name + "(" + list;
    assert text[0] == name[0] && (text + ")")[0] == name[0];
  }

  /** A literal that is read to its end does not end with a space. */
  lemma NumberIsEdged(text: string)
    requires text != "" && (IsDigit(text[0]) || text[0] == '.') && NumberEnd(text, 0, |text|) == |text|
    ensures Edged(text)
  {
    var whole := RunEnd(text, 0, |text|, IsDigit);
    var fraction := FractionEnd(text, 0, |text|);
    assert NumberEnd(text, 0, |text|) == ExponentEnd(text, fraction, |text|);
  }

  lemma EdgedBody(text: string)
    requires Edged(text)
    ensures BodyOf(text) == Body(0, |text|, false)
  {
  }

  /** No reference rule interferes with the printed text. */
  ghost predicate Unmistaken(v: Vocabulary, spell: real -> string, node: Node) {
    var text := PrintText(spell, node);
    PartOf(ScannerOf(v, text, |text|), spell, node).guard(0)
  }

  /**
   * The scanner finds the printed tokens where they were printed if and only if no reference rule interferes; then
   * the text scans back.
   */
  lemma PrintScansExactly(v: Vocabulary, spell: real -> string, node: Node)
    requires WellSpelled(v, spell, node)
    ensures var text := PrintText(spell, node);
            var printed := PartOf(ScannerOf(v, text, |text|), spell, node).placed(0);
            Lex(v, text, 0, |text|) == printed <==> Unmistaken(v, spell, node)
    ensures Unmistaken(v, spell, node) ==> ScansBack(v, spell, node)
  {
    var text := PrintText(spell, node);
    var sc := ScannerOf(v, text, |text|);
    var part := PartOf(sc, spell, node);
    ScannerIsFaithful(v, text, |text|);
    PartIsSound(sc, v, spell, text, |text|, node);
    PartIsPrinted(sc, spell, node);
    assert text[0..|text|] == text && Printed(text, 0, |text|, part.text);
    assert sc.layout(part.placed(0)) == LayoutOf(v, text, |text|, part.placed(0));
    ScansChain(v, text, 0, |text|, part.placed(0));
    PartTokens(sc, spell, node);
    PrintIsEdged(v, spell, node);
    EdgedBody(text);
  }

  // ---------------------------------------------------------------- accepted formulas

  predicate SpelledToken(v: Vocabulary, spell: real -> string, t: Token) {
    match t
    case NumberToken(value) => NumberSpelled(v, spell(value), value)
    case WordToken(upper) => FieldSpelled(upper)
    case RefToken(canonical) => SecuritySpelled(canonical)
    case _ => true
  }

  /** Numbers are read back from their spelling, and canonical securities look like references. */
  ghost predicate VocabularySpells(v: Vocabulary, spell: real -> string) {
    && (forall s: string :: v.finiteNumber(s).Some? ==>
          NumberSpelled(v, spell(v.finiteNumber(s).value), v.finiteNumber(s).value))
    && (forall s: string :: v.parseSecurityRef(s).ParsedSecurity? ==> SecuritySpelled(v.parseSecurityRef(s).canonical))
  }

  lemma {:induction false} ScannedAreSpelled(v: Vocabulary, spell: real -> string, raw: string, i: nat, end: nat)
    requires VocabularySpells(v, spell) && i <= end <= |raw|
    ensures forall x :: x in Lex(v, raw, i, end) ==> SpelledToken(v, spell, x.token)
    decreases end - i
  {
    if i < end {
      if IsSpace(raw[i]) {
        ScannedAreSpelled(v, spell, raw, i + 1, end);
      } else {
        LexemeIsSpelled(v, spell, raw, i, end);
        ScannedAreSpelled(v, spell, raw, LexemeAt(v, raw, i, end).end, end);
      }
    }
  }

  lemma LexemeIsSpelled(v: Vocabulary, spell: real -> string, raw: string, i: nat, end: nat)
    requires VocabularySpells(v, spell) && i < end <= |raw|
    ensures SpelledToken(v, spell, LexemeAt(v, raw, i, end).token)
  {
    OrdinaryIsSpelled(v, spell, raw, i, end);
    if IsRefStart(raw[i]) && !IsStructural(raw[i]) {
      ReferenceIsSpelled(v, spell, raw, i, end);
    }
  }

  lemma OrdinaryIsSpelled(v: Vocabulary, spell: real -> string, raw: string, from: nat, end: nat)
    requires VocabularySpells(v, spell) && from < end <= |raw|
    ensures SpelledToken(v, spell, OrdinaryAt(v, raw, from, end).token)
  {
    var x := OrdinaryAt(v, raw, from, end);
    if x.token.WordToken? {
      WordIsSpelled(raw[from..x.end]);
    }
  }

  lemma WordIsSpelled(text: string)
    requires text != "" && IsWordStart(text[0]) && forall k :: 0 <= k < |text| ==> IsWordPart(text[k])
    ensures FieldSpelled(UpperCase(text))
  {
    assert UpperCase(UpperCase(text)) == UpperCase(text);
  }

  lemma ReferenceIsSpelled(v: Vocabulary, spell: real -> string, raw: string, from: nat, end: nat)
    requires VocabularySpells(v, spell) && from < end <= |raw|
    ensures Reference(v, raw, from, end).Recognised? ==> SecuritySpelled(Reference(v, raw, from, end).canonical)
  {
    var wordEnd := WordEnd(raw, from, end);
    if wordEnd > from {
      if raw[from] == '/' {
        SchemeIsSpelled(v, spell, raw, from, wordEnd);
      } else {
        AnchoredIsSpelled(v, spell, raw, from, WordsAfter(raw, wordEnd, end, MAX_REF_TOKENS - 1));
        BareIsSpelled(v, spell, raw, from, wordEnd);
      }
    }
  }

  lemma SchemeIsSpelled(v: Vocabulary, spell: real -> string, raw: string, from: nat, wordEnd: nat)
    requires VocabularySpells(v, spell) && from < wordEnd <= |raw| && raw[from] == '/'
    ensures var scan := SchemeReference(v, raw, from, wordEnd); scan.Recognised? ==> SecuritySpelled(scan.canonical)
  {
  }

  lemma BareIsSpelled(v: Vocabulary, spell: real -> string, raw: string, from: nat, wordEnd: nat)
    requires VocabularySpells(v, spell) && from < wordEnd <= |raw|
    ensures var scan := BareReference(v, raw, from, wordEnd); scan.Recognised? ==> SecuritySpelled(scan.canonical)
  {
  }

  lemma {:induction false} AnchoredIsSpelled(v: Vocabulary, spell: real -> string, raw: string, from: nat,
                                             words: seq<(nat, nat)>)
    requires VocabularySpells(v, spell)
    requires forall k :: 0 <= k < |words| ==> from < words[k].0 < words[k].1 <= |raw|
    ensures AnchoredReference(v, raw, from, words).Recognised?
        ==> SecuritySpelled(AnchoredReference(v, raw, from, words).canonical)
  {
    if words != [] {
      AnchoredIsSpelled(v, spell, raw, from, words[1..]);
    }
  }

  lemma {:induction false} SumIsSpelled(v: Vocabulary, spell: real -> string, e: SumC)
    requires forall t :: t in SumYield(e) ==> SpelledToken(v, spell, t)
    ensures WellSpelled(v, spell, SumAst(e))
  {
    match e
    case OneTerm(term) => TermIsSpelled(v, spell, term);
    case AddC(_, left, right) => SumIsSpelled(v, spell, left); TermIsSpelled(v, spell, right);
  }

  lemma {:induction false} TermIsSpelled(v: Vocabulary, spell: real -> string, c: TermC)
    requires forall t :: t in TermYield(c) ==> SpelledToken(v, spell, t)
    ensures WellSpelled(v, spell, TermAst(c))
  {
    match c
    case OneUnary(unary) => UnaryIsSpelled(v, spell, unary);
    case MulC(_, left, right) => TermIsSpelled(v, spell, left); UnaryIsSpelled(v, spell, right);
  }

  lemma {:induction false} UnaryIsSpelled(v: Vocabulary, spell: real -> string, u: UnaryC)
    requires forall t :: t in UnaryYield(u) ==> SpelledToken(v, spell, t)
    ensures WellSpelled(v, spell, UnaryAst(u))
  {
    match u
    case SignC(_, operand) => UnaryIsSpelled(v, spell, operand);
    case OnePrimary(p) =>
      match p {
        case NumberC(value) => assert NumberToken(value) in UnaryYield(u);
        case FieldC(field) => assert WordToken(field) in UnaryYield(u);
        case SecurityC(canonical) => assert RefToken(canonical) in UnaryYield(u);
        case ParenC(inner) => SumIsSpelled(v, spell, inner);
        case EmptyCallC(name) => assert UnaryAst(u) == PrimaryAst(p) == Call(name, []);
        case CallC(name, args) =>
          ArgsAreSpelled(v, spell, args);
          var kept := FirstArgs(ArgsAst(args));
          assert forall i :: 0 <= i < |kept| ==> kept[i] == ArgsAst(args)[i];
          assert UnaryAst(u) == PrimaryAst(p) == Call(name, kept);
      }
  }

  lemma {:induction false} ArgsAreSpelled(v: Vocabulary, spell: real -> string, a: ArgsC)
    requires forall t :: t in ArgsYield(a) ==> SpelledToken(v, spell, t)
    ensures forall i :: 0 <= i < |ArgsAst(a)| ==> WellSpelled(v, spell, ArgsAst(a)[i])
  {
    match a
    case LastArg(arg) => SumIsSpelled(v, spell, arg);
    case MoreArgs(arg, rest) => SumIsSpelled(v, spell, arg); ArgsAreSpelled(v, spell, rest);
  }

  lemma AcceptedIsSpelled(v: Vocabulary, spell: real -> string, raw: string)
    requires VocabularySpells(v, spell) && AcceptsText(v, raw)
    ensures WellSpelled(v, spell, AstOf(v, raw))
  {
    var body := BodyOf(raw);
    var tokens := TokensIn(v, raw);
    ScannedAreSpelled(v, spell, raw, body.start, body.end);
    var e := ExprSound(tokens, 0, MAX_FORMULA_DEPTH);
    forall t | t in SumYield(e)
      ensures SpelledToken(v, spell, t)
    {
      var k :| 0 <= k < |SumYield(e)| && SumYield(e)[k] == t;
      assert tokens[0..|SumYield(e)|][k] == tokens[k];
    }
    SumIsSpelled(v, spell, e);
  }

  /**
   * The canonical text of an accepted formula, where no reference rule interferes: accepted exactly within the two
   * limits, printing as itself, with the same value or reason from the same inputs in every context.
   */
  lemma CanonicalTextIsKept(v: Vocabulary, spell: real -> string, raw: string, ctx: Context)
    requires VocabularySpells(v, spell) && AcceptsText(v, raw) && Unmistaken(v, spell, AstOf(v, raw))
    ensures var ast := AstOf(v, raw);
            var text := PrintText(spell, ast);
            && Printable(ast)
            && (AcceptsText(v, text) <==> |text| <= MAX_FORMULA_LENGTH && PrintedDepth(ast) <= MAX_FORMULA_DEPTH)
            && (AcceptsText(v, text) ==>
                  && AstOf(v, text) == Reassoc(ast)
                  && PrintText(spell, AstOf(v, text)) == text
                  && EvalWithin(AstOf(v, text), ctx, MAX_EVAL_DEPTH) == EvalWithin(ast, ctx, MAX_EVAL_DEPTH))
  {
    AcceptedIsSpelled(v, spell, raw);
    PrintScansExactly(v, spell, AstOf(v, raw));
    CanonicalIsStable(TokensIn(v, raw));
    TextRoundTrip(v, spell, AstOf(v, raw));
    CanonicalTextMeansTheSame(v, spell, raw, ctx);
  }
}
