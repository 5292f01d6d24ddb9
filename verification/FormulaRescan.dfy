/** Reading the canonical text gives the printed tree exactly where the scanner finds the printed tokens. */
module FormulaRescan {
  import opened Util
  import opened FormulaAst
  import opened FormulaGrammar
  import opened FormulaAccept
  import opened FormulaPrinter
  import opened FormulaText
  import opened FormulaLexer
  import opened FormulaPipeline
  import opened FormulaCanonical
  import opened FormulaScansBack

  // ---------------------------------------------------------------- the tokens that a tree fixes

  predicate IsBracket(t: Token) {
    t.LParen? || t.RParen? || t.Comma?
  }

  /** The tokens but the brackets and commas. */
  function Core(tokens: seq<Token>): seq<Token> {
    if tokens == [] then []
    else (if IsBracket(tokens[0]) then [] else [tokens[0]]) + Core(tokens[1..])
  }

  lemma {:induction false} CoreConcat(a: seq<Token>, b: seq<Token>)
    ensures Core(a + b) == Core(a) + Core(b)
  {
    if a == [] {
      assert a + b == b;
    } else {
      CoreConcat(a[1..], b);
      assert (a + b)[1..] == a[1..] + b && (a + b)[0] == a[0];
      JoinThree(if IsBracket(a[0]) then [] else [a[0]], Core(a[1..]), Core(b));
    }
  }

  lemma JoinThree(a: seq<Token>, b: seq<Token>, c: seq<Token>)
    ensures a + (b + c) == (a + b) + c
  {
  }

  lemma CoreBetween(a: seq<Token>, t: Token, b: seq<Token>)
    ensures Core(a + [t] + b) == Core(a) + (if IsBracket(t) then [] else [t]) + Core(b)
  {
    CoreConcat(a + [t], b);
    CoreConcat(a, [t]);
    assert [t][1..] == [];
  }

  /** The tokens of a tree in their order, without brackets. */
  function Inorder(node: Node): seq<Token> {
    match node
    case Number(value) => [NumberToken(value)]
    case Field(field) => [WordToken(field)]
    case Security(canonical) => [RefToken(canonical)]
    case ErrorNode => []
    case Unary(op, operand) => [SignToken(op)] + Inorder(operand)
    case Binary(op, left, right) => Inorder(left) + [OpToken(op)] + Inorder(right)
    case Call(name, args) => [WordToken(NameText(name))] + InorderAll(args)
  }

  function InorderAll(args: seq<Node>): seq<Token> {
    if args == [] then [] else Inorder(args[0]) + InorderAll(args[1..])
  }

  /** Every derivation of a legal tree has its tokens. */
  lemma {:induction false} SumCore(e: SumC)
    requires Legal(SumAst(e))
    ensures Core(SumYield(e)) == Inorder(SumAst(e))
  {
    match e
    case OneTerm(term) => TermCore(term);
    case AddC(op, left, right) =>
      SumCore(left);
      TermCore(right);
      CoreBetween(SumYield(left), OpToken(op), TermYield(right));
  }

  lemma {:induction false} TermCore(t: TermC)
    requires Legal(TermAst(t))
    ensures Core(TermYield(t)) == Inorder(TermAst(t))
  {
    match t
    case OneUnary(unary) => UnaryCore(unary);
    case MulC(op, left, right) =>
      TermCore(left);
      UnaryCore(right);
      CoreBetween(TermYield(left), OpToken(op), UnaryYield(right));
  }

  lemma {:induction false} UnaryCore(u: UnaryC)
    requires Legal(UnaryAst(u))
    ensures Core(UnaryYield(u)) == Inorder(UnaryAst(u))
  {
    match u
    case SignC(sign, operand) =>
      UnaryCore(operand);
      assert ([SignToken(sign)] + UnaryYield(operand))[1..] == UnaryYield(operand);
    case OnePrimary(ParenC(inner)) =>
      assert UnaryAst(u) == PrimaryAst(u.primary) == SumAst(inner);
      SumCore(inner);
      CoreAround(SumYield(inner));
    case OnePrimary(CallC(name, args)) =>
      assert Legal(Call(name, FirstArgs(ArgsAst(args))));
      assert UnaryAst(u) == PrimaryAst(u.primary) == Call(name, ArgsAst(args));
      ArgsCore(args);
      CallCore(name, ArgsYield(args));
    case OnePrimary(EmptyCallC(name)) =>
      CallCore(name, []);
      assert [WordToken(NameText(name)), LParen] + [] + [RParen] == UnaryYield(u);
      assert UnaryAst(u) == PrimaryAst(u.primary) == Call(name, []);
    case OnePrimary(leaf) =>
      assert |UnaryYield(u)| == 1 && UnaryYield(u)[1..] == [];
  }

  lemma CoreAround(inner: seq<Token>)
    ensures Core([LParen] + inner + [RParen]) == Core(inner)
  {
    CoreBetween([], LParen, inner);
    assert [] + [LParen] + inner == [LParen] + inner;
    CoreBetween([LParen] + inner, RParen, []);
    assert [LParen] + inner + [RParen] + [] == [LParen] + inner + [RParen];
  }

  lemma CallCore(name: FunctionName, inner: seq<Token>)
    ensures Core([WordToken(NameText(name)), LParen] + inner + [RParen]) == [WordToken(NameText(name))] + Core(inner)
  {
    var word := WordToken(NameText(name));
    assert [word, LParen] + inner + [RParen] == [word] + ([LParen] + inner + [RParen]);
    CoreConcat([word], [LParen] + inner + [RParen]);
    assert [word][1..] == [];
    CoreAround(inner);
  }

  lemma {:induction false} ArgsCore(a: ArgsC)
    requires forall i :: 0 <= i < |ArgsAst(a)| ==> Legal(ArgsAst(a)[i])
    ensures Core(ArgsYield(a)) == InorderAll(ArgsAst(a))
  {
    match a
    case LastArg(arg) =>
      assert ArgsAst(a) == [SumAst(arg)] && ArgsAst(a)[0] == SumAst(arg) && ArgsAst(a)[1..] == [];
      SumCore(arg);
    case MoreArgs(arg, rest) =>
      assert ArgsAst(a)[0] == SumAst(arg) && ArgsAst(a)[1..] == ArgsAst(rest);
      assert forall i :: 0 <= i < |ArgsAst(rest)| ==> ArgsAst(rest)[i] == ArgsAst(a)[i + 1];
      SumCore(arg);
      ArgsCore(rest);
      CoreBetween(SumYield(arg), Comma, ArgsYield(rest));
  }

  // ---------------------------------------------------------------- the same tree, the same lexemes

  /** A reference recognised where its canonical spelling stands is recognised to the end of that spelling. */
  ghost predicate OwnLength(v: Vocabulary, raw: string, end: nat) {
    forall i: nat, stop, canonical ::
      (i < end <= |raw| && Stands(raw, i, end, canonical) && Reference(v, raw, i, end) == Recognised(stop, canonical))
      ==> stop == i + |canonical|
  }

  /** Where the printed token is scanned, it is scanned as it was printed. */
  lemma SameToken(v: Vocabulary, raw: string, end: nat, x: Lexeme)
    requires Genuine(v, raw, end, x) && OwnLength(v, raw, end) && x.start < end <= |raw| && !IsStructural(raw[x.start])
    requires LexemeAt(v, raw, x.start, end).token == x.token && x.token != ErrorToken
    ensures IsAt(v, raw, end, x)
  {
    var i := x.start;
    match x.token
    case WordToken(word) => FieldAt(v, raw, i, end, word);
    case NumberToken(value) =>
      var text :| Printed(raw, i, end, text) && NumberSpelled(v, text, value) && x == PutAt(x.token, i, |text|);
      NumberTaken(v, raw, i, end, text, value);
    case RefToken(canonical) =>
      OrdinaryIsNoReference(v, raw, i, end);
      SecurityAt(v, raw, i, end, canonical);
    case _ => PunctuationAt(v, raw, i, end, x.token);
  }

  lemma OrdinaryIsNoReference(v: Vocabulary, raw: string, i: nat, end: nat)
    requires i < end <= |raw|
    ensures !OrdinaryAt(v, raw, i, end).token.RefToken?
    ensures !IsStructural(raw[i]) ==> !IsBracket(LexemeAt(v, raw, i, end).token)
  {
  }

  lemma CoreStep(t: Token, rest: seq<Token>)
    ensures Core([t] + rest) == (if IsBracket(t) then [] else [t]) + Core(rest)
  {
    assert ([t] + rest)[1..] == rest;
  }

  lemma FirstToken(v: Vocabulary, raw: string, i: nat, end: nat, x: Lexeme)
    requires i <= end <= |raw| && x.start < end && Follows(raw, i, x.start) && !IsSpace(raw[x.start])
    ensures var y := LexemeAt(v, raw, x.start, end);
            TokensOf(Lex(v, raw, i, end)) == [y.token] + TokensOf(Lex(v, raw, y.end, end))
  {
    LexFirst(v, raw, i, end, x);
    TokenFirst(LexemeAt(v, raw, x.start, end), Lex(v, raw, LexemeAt(v, raw, x.start, end).end, end));
  }

  lemma TailOf(v: Vocabulary, raw: string, end: nat, ys: seq<Lexeme>)
    requires ys != [] && Chained(raw, end, ys) && AllGenuine(v, raw, end, ys)
    ensures Chained(raw, end, ys[1..]) && AllGenuine(v, raw, end, ys[1..]) && Genuine(v, raw, end, ys[0])
    ensures ys[1..] != [] ==> Follows(raw, ys[0].end, ys[1..][0].start)
    ensures TokensOf(ys) == [ys[0].token] + TokensOf(ys[1..])
    ensures AllAt(v, raw, end, ys) <==> IsAt(v, raw, end, ys[0]) && AllAt(v, raw, end, ys[1..])
  {
    assert ys == [ys[0]] + ys[1..];
    TokenFirst(ys[0], ys[1..]);
  }

  /** A scan with the printed tokens but for brackets, and no error, is the print. */
  lemma {:induction false} SameCores(v: Vocabulary, raw: string, i: nat, end: nat, ys: seq<Lexeme>, scanned: seq<Token>)
    requires OwnLength(v, raw, end) && i <= end <= |raw| && Chained(raw, end, ys) && AllGenuine(v, raw, end, ys)
    requires ys == [] || Follows(raw, i, ys[0].start)
    requires scanned == TokensOf(Lex(v, raw, i, end)) && ErrorToken !in scanned && ErrorToken !in TokensOf(ys)
    requires Core(scanned) == Core(TokensOf(ys))
    ensures AllAt(v, raw, end, ys)
    decreases |ys|
  {
    if ys != [] {
      var x, more := ys[0], ys[1..];
      var y := LexemeAt(v, raw, x.start, end);
      var rest := TokensOf(Lex(v, raw, y.end, end));
      TailOf(v, raw, end, ys);
      FirstToken(v, raw, i, end, x);
      CoreStep(y.token, rest);
      CoreStep(x.token, TokensOf(more));
      NoErrorIn(y.token, rest);
      NoErrorIn(x.token, TokensOf(more));
      FirstIsAt(v, raw, end, x, rest, TokensOf(more));
      SameCores(v, raw, x.end, end, more, rest);
    }
  }

  lemma NoErrorIn(t: Token, rest: seq<Token>)
    requires ErrorToken !in [t] + rest
    ensures t != ErrorToken && ErrorToken !in rest
  {
    assert ([t] + rest)[0] == t;
    assert forall k :: 0 <= k < |rest| ==> ([t] + rest)[k + 1] == rest[k];
  }

  lemma FirstIsAt(v: Vocabulary, raw: string, end: nat, x: Lexeme, scanned: seq<Token>, printed: seq<Token>)
    requires OwnLength(v, raw, end) && Genuine(v, raw, end, x) && x.start < end <= |raw| && x.token != ErrorToken
    requires var y := LexemeAt(v, raw, x.start, end);
             (if IsBracket(y.token) then [] else [y.token]) + Core(scanned) == (if IsBracket(x.token) then []
                 else [x.token]) + Core(printed)
    ensures IsAt(v, raw, end, x)
    ensures Core(scanned) == Core(printed)
  {
    var y := LexemeAt(v, raw, x.start, end);
    OrdinaryIsNoReference(v, raw, x.start, end);
    if IsStructural(raw[x.start]) {
      BracketStands(v, raw, end, x);
      PunctuationAt(v, raw, x.start, end, x.token);
      assert y == x;
      assert [] + Core(scanned) == Core(scanned) && [] + Core(printed) == Core(printed);
    } else {
      BracketStands(v, raw, end, x);
      assert ([y.token] + Core(scanned))[0] == ([x.token] + Core(printed))[0];
      SameToken(v, raw, end, x);
      assert ([y.token] + Core(scanned))[1..] == ([x.token] + Core(printed))[1..];
    }
  }

  /** A printed bracket stands on a bracket, and nothing else does. */
  lemma BracketStands(v: Vocabulary, raw: string, end: nat, x: Lexeme)
    requires Genuine(v, raw, end, x) && x.start < end <= |raw|
    ensures IsStructural(raw[x.start]) <==> IsBracket(x.token)
    ensures IsStructural(raw[x.start]) ==> Punctuation(raw[x.start]) == Some(x.token) && x == PutAt(x.token, x.start, 1)
  {
    match x.token
    case WordToken(word) => CharAt(raw, x.start, end, word, 0);
    case NumberToken(value) =>
      var text :| Printed(raw, x.start, end, text) && NumberSpelled(v, text, value)
          && x == PutAt(x.token, x.start, |text|);
      CharAt(raw, x.start, end, text, 0);
    case RefToken(canonical) => CharAt(raw, x.start, end, canonical, 0);
    case _ =>
  }

  // ---------------------------------------------------------------- the text of a tree

  /** Any two derivations of one legal tree differ in brackets only. */
  lemma PrintedCore(node: Node)
    requires Legal(node) && Printable(node)
    ensures Core(FormatFormula(node)) == Inorder(Reassoc(node))
  {
    SumSpells(node);
    SumMeans(node);
    ReassocKeepsLegal(node);
    SumCore(PrintSum(node));
  }

  lemma ScannedCore(tokens: seq<Token>)
    requires Eof !in tokens && Accepts(tokens + [Eof])
    ensures Core(tokens) == Inorder(ParseWhole(tokens + [Eof], MAX_FORMULA_DEPTH).value)
  {
    var ts := tokens + [Eof];
    var e := ExprSound(ts, 0, MAX_FORMULA_DEPTH);
    assert ts[|tokens|] == Eof;
    WholeIsYield(ts, MAX_FORMULA_DEPTH, e);
    YieldIsAll(tokens, SumYield(e));
    SumCore(e);
  }

  lemma YieldIsAll(tokens: seq<Token>, ys: seq<Token>)
    requires Eof !in tokens && ys + [Eof] <= tokens + [Eof]
    ensures ys == tokens
  {
    var k := |ys|;
    assert (tokens + [Eof])[k] == (ys + [Eof])[k] == Eof;
    assert forall m :: 0 <= m < |tokens| ==> (tokens + [Eof])[m] == tokens[m] && tokens[m] in tokens;
    assert (tokens + [Eof])[..k] == (ys + [Eof])[..k] == ys;
  }

  lemma NoEofScanned(v: Vocabulary, raw: string, i: nat, end: nat)
    requires i <= end <= |raw|
    ensures Eof !in TokensOf(Lex(v, raw, i, end))
    decreases end - i
  {
    if i < end {
      if IsSpace(raw[i]) {
        NoEofScanned(v, raw, i + 1, end);
      } else {
        var x := LexemeAt(v, raw, i, end);
        NoEofScanned(v, raw, x.end, end);
        TokenFirst(x, Lex(v, raw, x.end, end));
      }
    }
  }

  /** Reassociation keeps the order of the tokens. */
  lemma {:induction false} ReassocKeepsOrder(node: Node)
    ensures Inorder(Reassoc(node)) == Inorder(node)
  {
    match node
    case Unary(_, operand) => ReassocKeepsOrder(operand);
    case Binary(op, left, right) =>
      ReassocKeepsOrder(left);
      ReassocKeepsOrder(right);
      SpliceKeepsOrder(op, Reassoc(left), Reassoc(right));
    case Call(_, args) => ReassocAllKeepsOrder(args);
    case _ =>
  }

  lemma {:induction false} ReassocAllKeepsOrder(args: seq<Node>)
    ensures InorderAll(ReassocAll(args)) == InorderAll(args)
  {
    if args != [] {
      ReassocKeepsOrder(args[0]);
      ReassocAllKeepsOrder(args[1..]);
      assert ReassocAll(args)[1..] == ReassocAll(args[1..]);
    }
  }

  lemma {:induction false} SpliceKeepsOrder(op: BinaryOp, left: Node, right: Node)
    ensures Inorder(Splice(op, left, right)) == Inorder(left) + [OpToken(op)] + Inorder(right)
  {
    if InBand(right, OpBinding(op)) {
      SpliceKeepsOrder(op, left, right.left);
      var a, b, c := Inorder(left) + [OpToken(op)], Inorder(right.left), [OpToken(right.bop)] + Inorder(right.right);
      assert (a + b) + c == a + (b + c);
      assert Inorder(right) == b + c;
    }
  }

  /** Where the text stands for a tree with the printed tokens in their order, no reference rule interferes. */
  lemma RereadNeedsGuard(v: Vocabulary, spell: real -> string, node: Node)
    requires Legal(node) && Printable(node) && WellSpelled(v, spell, node)
    requires var text := PrintText(spell, node);
             OwnLength(v, text, |text|) && AcceptsText(v, text) && Inorder(AstOf(v, text)) == Inorder(node)
    ensures Unmistaken(v, spell, node)
  {
    var text := PrintText(spell, node);
    var sc, scanned := ScannerOf(v, text, |text|), TokensOf(Lex(v, text, 0, |text|));
    var part := PartOf(sc, spell, node);
    PrintIsEdged(v, spell, node);
    EdgedBody(text);
    NoEofScanned(v, text, 0, |text|);
    ScannedCore(scanned);
    PrintedCore(node);
    ReassocKeepsOrder(node);
    PartLaid(v, spell, node, text);
    PartTokens(sc, spell, node);
    PrintsNoError(node);
    assert ErrorToken !in scanned;
    SameCores(v, text, 0, |text|, part.placed(0), scanned);
  }

  /** The printed lexemes stand in the text, in a chain from its start to its end. */
  lemma PartLaid(v: Vocabulary, spell: real -> string, node: Node, text: string)
    requires WellSpelled(v, spell, node) && text == PrintText(spell, node)
    ensures var part := PartOf(ScannerOf(v, text, |text|), spell, node);
            LayoutOf(v, text, |text|, part.placed(0)) == Layout(0, |text|, part.guard(0))
  {
    var sc := ScannerOf(v, text, |text|);
    var part := PartOf(sc, spell, node);
    ScannerIsFaithful(v, text, |text|);
    PartIsSound(sc, v, spell, text, |text|, node);
    PartIsPrinted(sc, spell, node);
    assert text[0..|text|] == text && Printed(text, 0, |text|, part.text);
    assert sc.layout(part.placed(0)) == LayoutOf(v, text, |text|, part.placed(0));
  }

  /**
   * The text of a legal tree without holes stands for the left-nested tree if and only if no reference rule
   * interferes and the text fits both limits, and for the tree itself if and only if that is left-nested too.
   */
  lemma RereadExactly(v: Vocabulary, spell: real -> string, node: Node)
    requires Legal(node) && Printable(node) && WellSpelled(v, spell, node)
    requires OwnLength(v, PrintText(spell, node), |PrintText(spell, node)|)
    ensures var text := PrintText(spell, node);
            var fits := Unmistaken(v, spell, node) && |text| <= MAX_FORMULA_LENGTH
                && PrintedDepth(node) <= MAX_FORMULA_DEPTH;
            && (AcceptsText(v, text) && AstOf(v, text) == Reassoc(node) <==> fits)
            && (AcceptsText(v, text) && AstOf(v, text) == node <==> fits && LeftNested(node))
  {
    var text := PrintText(spell, node);
    ReassocFixesLeftNested(node);
    ReassocKeepsOrder(node);
    if AcceptsText(v, text) && (AstOf(v, text) == Reassoc(node) || AstOf(v, text) == node) {
      RereadNeedsGuard(v, spell, node);
    }
    if Unmistaken(v, spell, node) {
      PrintScansExactly(v, spell, node);
      TextRoundTrip(v, spell, node);
    }
  }

  /** The same for the canonical text of every accepted formula. */
  lemma CanonicalTextExactly(v: Vocabulary, spell: real -> string, raw: string)
    requires VocabularySpells(v, spell) && AcceptsText(v, raw)
    requires var text := PrintText(spell, AstOf(v, raw)); OwnLength(v, text, |text|)
    ensures var ast := AstOf(v, raw);
            var text := PrintText(spell, ast);
            && Printable(ast)
            && (AcceptsText(v, text) && AstOf(v, text) == Reassoc(ast) <==>
                  Unmistaken(v, spell, ast) && |text| <= MAX_FORMULA_LENGTH && PrintedDepth(ast) <= MAX_FORMULA_DEPTH)
  {
    AcceptedIsSpelled(v, spell, raw);
    CanonicalIsStable(TokensIn(v, raw));
    RereadExactly(v, spell, AstOf(v, raw));
  }
}
