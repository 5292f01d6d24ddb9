/** What storing the canonical text of a formula, and reading it again, keeps. */
module FormulaCanonical {
  import opened Util
  import opened FormulaAst
  import opened FormulaGrammar
  import opened FormulaAccept
  import opened FormulaPrinter
  import opened FormulaText
  import opened FormulaLexer
  import opened FormulaEvaluator
  import opened FormulaPipeline

  /** The scanner takes the printed text for the tokens the printer meant. */
  predicate ScansBack(v: Vocabulary, spell: real -> string, node: Node) {
    TokensIn(v, PrintText(spell, node)) == FormatFormula(node) + [Eof]
  }

  lemma {:induction false} PrintsNoError(node: Node)
    requires Printable(node)
    ensures ErrorToken !in FormatFormula(node) && FormatFormula(node) != []
  {
    match node
    case Unary(_, operand) => PrintsNoError(operand);
    case Binary(_, left, right) => PrintsNoError(left); PrintsNoError(right);
    case Call(_, args) => ListPrintsNoError(args);
    case _ =>
  }

  lemma {:induction false} ListPrintsNoError(args: seq<Node>)
    requires forall i :: 0 <= i < |args| ==> Printable(args[i])
    ensures ErrorToken !in FormatArgs(args)
  {
    if args != [] {
      PrintsNoError(args[0]);
      ListPrintsNoError(args[1..]);
    }
  }

  /**
   * Where the printed text scans back, it is accepted if and only if it is short enough and its depth fits the cap;
   * then it stands for the left-nested tree and prints as itself, and it stands for the tree printed if and only if
   * that tree is left-nested.
   */
  lemma TextRoundTrip(v: Vocabulary, spell: real -> string, node: Node)
    requires Legal(node) && Printable(node) && ScansBack(v, spell, node)
    ensures var text := PrintText(spell, node);
            && (AcceptsText(v, text) <==> |text| <= MAX_FORMULA_LENGTH && PrintedDepth(node) <= MAX_FORMULA_DEPTH)
            && (AcceptsText(v, text) ==>
                  && AstOf(v, text) == Reassoc(node)
                  && PrintText(spell, AstOf(v, text)) == text
                  && (AstOf(v, text) == node <==> LeftNested(node)))
  {
    var text := PrintText(spell, node);
    var body := BodyOf(text);
    PrintsNoError(node);
    assert body.start == body.end ==> |TokensIn(v, text)| == 1;
    assert |TokensIn(v, text)| == |FormatFormula(node)| + 1;
    ParseOfFormat(node, MAX_FORMULA_DEPTH);
    ReassocKeepsLegal(node);
    ReassocFixesLeftNested(node);
    ReassocPrintsTheSameText(spell, node);
  }

  /**
   * The canonical text of an accepted formula, read back: accepted exactly within the two limits, printing as
   * itself, and with the same value or reason from the same inputs in every context.
   */
  lemma CanonicalTextMeansTheSame(v: Vocabulary, spell: real -> string, raw: string, ctx: Context)
    requires AcceptsText(v, raw) && ScansBack(v, spell, AstOf(v, raw))
    ensures var ast := AstOf(v, raw);
            var text := PrintText(spell, ast);
            && Printable(ast)
            && (AcceptsText(v, text) <==> |text| <= MAX_FORMULA_LENGTH && PrintedDepth(ast) <= MAX_FORMULA_DEPTH)
            && (AcceptsText(v, text) ==>
                  && PrintText(spell, AstOf(v, text)) == text
                  && EvalWithin(AstOf(v, text), ctx, MAX_EVAL_DEPTH) == EvalWithin(ast, ctx, MAX_EVAL_DEPTH))
  {
    var ast := AstOf(v, raw);
    CanonicalIsStable(TokensIn(v, raw));
    TextRoundTrip(v, spell, ast);
    CanonicalEvaluatesTheSame(v, raw, ctx);
  }

  // ---------------------------------------------------------------- texts that do not scan back

  /** What ends a word of the formula at `j`: the end of the text, or a spaced-out operator. */
  predicate SetApart(raw: string, j: nat, end: nat) {
    j == end || (j + 2 < end <= |raw| && raw[j] == ' ' && IsOperator(raw[j + 1]) && raw[j + 2] == ' ')
  }

  /** A short word set apart from what follows is a field, whatever securities there are. */
  lemma FieldSetApart(v: Vocabulary, raw: string, i: nat, j: nat, end: nat)
    requires LettersIn(raw, i, j) && j <= end <= |raw| && j < i + 6 && SetApart(raw, j, end)
    ensures LexemeAt(v, raw, i, end) == Lexeme(WordToken(UpperCase(raw[i..j])), None, i, j)
  {
    NothingAnchored(v, raw, i, j, end);
    RunIs(raw, i, j, end, InWord);
    RunIs(raw, i, j, j, IsIdentifierChar);
    assert Reference(v, raw, i, end) == Declined;
    RunIs(raw, i, j, end, IsWordPart);
  }

  lemma NothingAnchored(v: Vocabulary, raw: string, i: nat, j: nat, end: nat)
    requires i < j <= end <= |raw| && SetApart(raw, j, end)
    ensures AnchoredReference(v, raw, i, WordsAfter(raw, j, end, MAX_REF_TOKENS - 1)) == Declined
  {
    if j == end {
      RunIs(raw, j, j, end, IsSpace);
    } else {
      RunIs(raw, j, j + 1, end, IsSpace);
      RunIs(raw, j + 1, j + 2, end, InWord);
      assert WordsAfter(raw, j, end, MAX_REF_TOKENS - 1)[0] == (j + 1, j + 2);
      OperatorIsNoWord(raw[j + 1..j + 2]);
    }
  }

  lemma OperatorIsNoWord(text: string)
    requires |text| == 1 && IsOperator(text[0])
    ensures !IsReferenceWord(text, false)
  {
    RunIs(text, 0, 0, 1, IsDigit);
  }

  /** An operator followed by a space is an operator, where a lone slash names nothing. */
  lemma OperatorSetApart(v: Vocabulary, raw: string, i: nat, end: nat)
    requires i + 1 < end <= |raw| && IsOperator(raw[i]) && raw[i + 1] == ' ' && !v.isIdentifierToken("/")
    ensures LexemeAt(v, raw, i, end) == Lexeme(Punctuation(raw[i]).value, None, i, i + 1)
  {
    if raw[i] == '/' {
      RunIs(raw, i, i + 1, end, InWord);
      RunIs(raw, i, i + 1, i + 1, IsSchemeValueChar);
      assert raw[i..i + 1] == "/";
    }
  }

  /** A word and a sector name that ends the text are one reference. */
  lemma WordAndSector(v: Vocabulary, raw: string, i: nat, j: nat, end: nat)
    requires i < j && j + 1 < end <= |raw| && raw[j] == ' ' && LettersIn(raw, j + 1, end)
    requires IsPlainWord(raw[i..j]) && v.isSectorToken(raw[j + 1..end])
    requires v.parseSecurityRef(raw[i..end]).ParsedSecurity?
    ensures LexemeAt(v, raw, i, end) == Lexeme(RefToken(v.parseSecurityRef(raw[i..end]).canonical), None, i, end)
  {
    assert forall k :: i <= k < j ==> raw[k] == raw[i..j][k - i];
    RunIs(raw, i, j, end, InWord);
    AnchorBehind(v, raw, j, end);
    var words := WordsAfter(raw, j, end, MAX_REF_TOKENS - 1);
    AnchoredAtOnce(v, raw, i, words, end);
    assert Reference(v, raw, i, end) == AnchoredReference(v, raw, i, words);
  }

  lemma AnchoredAtOnce(v: Vocabulary, raw: string, i: nat, words: seq<(nat, nat)>, end: nat)
    requires forall k :: 0 <= k < |words| ==> i < words[k].0 < words[k].1 <= |raw|
    requires words != [] && words[0].1 == end && AnchorIn(v, raw, words[0].0, end) == Some(end)
    requires v.parseSecurityRef(raw[i..end]).ParsedSecurity?
    ensures AnchoredReference(v, raw, i, words) == Recognised(end, v.parseSecurityRef(raw[i..end]).canonical)
  {
  }

  lemma AnchorBehind(v: Vocabulary, raw: string, j: nat, end: nat)
    requires j + 1 < end <= |raw| && raw[j] == ' ' && LettersIn(raw, j + 1, end) && v.isSectorToken(raw[j + 1..end])
    ensures var words := WordsAfter(raw, j, end, MAX_REF_TOKENS - 1); words != [] && words[0] == (j + 1, end)
    ensures AnchorIn(v, raw, j + 1, end) == Some(end)
  {
    RunIs(raw, j, j + 1, end, IsSpace);
    RunIs(raw, j + 1, end, end, InWord);
  }

  /** A vocabulary with one sector and two securities. */
  function Indexes(): Vocabulary {
    Vocabulary(text => if text == "SPX Index" || text == "PX-SPX Index" then ParsedSecurity(text, false)
        else NotASecurity,
               text => false, text => text == "Index", text => None)
  }

  lemma BodyIsAll(raw: string)
    requires |raw| >= 2 && IsLetter(raw[0]) && IsLetter(raw[|raw| - 1])
    ensures BodyOf(raw) == Body(0, |raw|, false)
  {
  }

  lemma LexBlank(v: Vocabulary, raw: string, i: nat, end: nat)
    requires i < end <= |raw| && raw[i] == ' '
    ensures Lex(v, raw, i, end) == Lex(v, raw, i + 1, end)
  {
  }

  /** A lexeme and the space behind it. */
  lemma LexSpaced(v: Vocabulary, raw: string, i: nat, end: nat, x: Lexeme)
    requires i < end <= |raw| && !IsSpace(raw[i]) && x == LexemeAt(v, raw, i, end)
    requires x.end < end && raw[x.end] == ' '
    ensures Lex(v, raw, i, end) == [x] + Lex(v, raw, x.end + 1, end)
  {
    LexBlank(v, raw, x.end, end);
    assert Lex(v, raw, i, end) == [x] + Lex(v, raw, x.end, end);
  }

  lemma LexLast(v: Vocabulary, raw: string, i: nat, end: nat, x: Lexeme)
    requires i < end <= |raw| && !IsSpace(raw[i]) && x == LexemeAt(v, raw, i, end) && x.end == end
    ensures Lex(v, raw, i, end) == [x]
  {
    assert Lex(v, raw, i, end) == [x] + Lex(v, raw, end, end);
  }

  lemma TokenFirst(x: Lexeme, xs: seq<Lexeme>)
    ensures TokensOf([x] + xs) == [x.token] + TokensOf(xs)
  {
  }

  lemma LexDifference(raw: string)
    requires raw == "PX - SPX Index"
    ensures TokensIn(Indexes(), raw) == [WordToken("PX"), MinusToken, RefToken("SPX Index"), Eof]
  {
    BodyIsAll(raw);
    LexWords(raw, Lexeme(WordToken("PX"), None, 0, 2), Lexeme(MinusToken, None, 3, 4),
        Lexeme(RefToken("SPX Index"), None, 5, 14));
  }

  lemma {:induction false} LexWords(raw: string, a: Lexeme, b: Lexeme, c: Lexeme)
    requires raw == "PX - SPX Index"
    requires a == Lexeme(WordToken("PX"), None, 0, 2) && b == Lexeme(MinusToken, None, 3, 4)
    requires c == Lexeme(RefToken("SPX Index"), None, 5, 14)
    ensures TokensOf(Lex(Indexes(), raw, 0, 14)) == [a.token, b.token, c.token]
  {
    LexField(raw);
    OperatorSetApart(Indexes(), raw, 3, 14);
    LexSecurity(raw);
    ThreeLexemes(Indexes(), raw, a, b, c);
  }

  lemma ThreeLexemes(v: Vocabulary, raw: string, a: Lexeme, b: Lexeme, c: Lexeme)
    requires |raw| == 14 && raw[2] == raw[4] == ' ' && !IsSpace(raw[0]) && !IsSpace(raw[3]) && !IsSpace(raw[5])
    requires LexemeAt(v, raw, 0, 14) == a && LexemeAt(v, raw, 3, 14) == b && LexemeAt(v, raw, 5, 14) == c
    requires a.end == 2 && b.end == 4 && c.end == 14
    ensures TokensOf(Lex(v, raw, 0, 14)) == [a.token, b.token, c.token]
  {
    LexLast(v, raw, 5, 14, c);
    LexSpaced(v, raw, 3, 14, b);
    LexSpaced(v, raw, 0, 14, a);
    TokenFirst(b, [c]);
    TokenFirst(a, [b] + [c]);
  }

  lemma LexField(raw: string)
    requires raw == "PX - SPX Index"
    ensures LexemeAt(Indexes(), raw, 0, 14) == Lexeme(WordToken("PX"), None, 0, 2)
  {
    FieldSetApart(Indexes(), raw, 0, 2, 14);
    assert UpperCase(raw[0..2]) == "PX";
  }

  lemma LexSecurity(raw: string)
    requires raw == "PX - SPX Index"
    ensures LexemeAt(Indexes(), raw, 5, 14) == Lexeme(RefToken("SPX Index"), None, 5, 14)
  {
    assert raw[5..8] == "SPX" && raw[9..14] == "Index" && raw[5..14] == "SPX Index";
    WordAndSector(Indexes(), raw, 5, 8, 14);
  }

  lemma LexJoined(text: string)
    requires text == "PX-SPX Index"
    ensures TokensIn(Indexes(), text) == [RefToken("PX-SPX Index"), Eof]
  {
    BodyIsAll(text);
    assert text[0..6] == "PX-SPX" && text[7..12] == "Index" && text[0..12] == text;
    WordAndSector(Indexes(), text, 0, 6, 12);
    assert Lex(Indexes(), text, 12, 12) == [];
  }

  function Difference(): Node {
    Binary(Minus, Field("PX"), Security("SPX Index"))
  }

  lemma DifferenceParses()
    ensures FormatFormula(Difference()) == [WordToken("PX"), MinusToken, RefToken("SPX Index")]
    ensures Printable(Difference()) && LeftNested(Difference()) && Legal(Difference())
    ensures PrintedDepth(Difference()) <= MAX_FORMULA_DEPTH
    ensures ParseWhole(FormatFormula(Difference()) + [Eof], MAX_FORMULA_DEPTH) == Some(Difference())
  {
    ParseOfFormat(Difference(), MAX_FORMULA_DEPTH);
    assert PrintSum(Difference()) == AddC(Minus, PrintSum(Field("PX")), PrintTerm(Security("SPX Index")));
  }

  lemma SecurityParses(text: string)
    ensures ParseWhole([RefToken(text), Eof], MAX_FORMULA_DEPTH) == Some(Security(text))
  {
    assert [RefToken(text), Eof] == FormatFormula(Security(text)) + [Eof];
    ParseOfFormat(Security(text), MAX_FORMULA_DEPTH);
    var node := Security(text);
    assert PrintPrimary(node) == SecurityC(text);
    assert PrintUnary(node) == OnePrimary(PrintPrimary(node));
    assert PrintSum(node) == OneTerm(PrintTerm(node)) == OneTerm(OneUnary(PrintUnary(node)));
    assert SumDepth(PrintSum(node)) == TermDepth(PrintTerm(node)) == UnaryDepth(PrintUnary(node)) == 0;
  }

  lemma PrintsDifference(spell: real -> string)
    ensures PrintText(spell, Difference()) == "PX-SPX Index"
  {
    assert !EndsWithSchemeRef("PX");
    assert PrintText(spell, Field("PX")) == "PX";
    assert JoinText(Minus, "PX", "SPX Index") == "PX-SPX Index";
  }

  /**
   * A field minus a security, left-nested and shallow, prints without spaces as a text in which the field and the
   * ticker are one word: it reads back as one security.
   */
  lemma FieldJoinsTicker(spell: real -> string, v: Vocabulary, raw: string, text: string)
    requires v == Indexes() && raw == "PX - SPX Index" && text == "PX-SPX Index"
    ensures AcceptsText(v, raw) && AstOf(v, raw) == Difference()
    ensures Printable(Difference()) && LeftNested(Difference()) && PrintedDepth(Difference()) <= MAX_FORMULA_DEPTH
    ensures PrintText(spell, Difference()) == text
    ensures AcceptsText(v, text) && AstOf(v, text) == Security(text)
  {
    DifferenceParses();
    PrintsDifference(spell);
    DifferenceAccepted(v, raw);
    JoinedAccepted(v, text);
  }

  lemma {:induction false} DifferenceAccepted(v: Vocabulary, raw: string)
    requires v == Indexes() && raw == "PX - SPX Index"
    ensures AcceptsText(v, raw) && AstOf(v, raw) == Difference()
  {
    LexDifference(raw);
    BodyIsAll(raw);
    DifferenceParses();
    AcceptedTokens(v, raw, FormatFormula(Difference()) + [Eof], Difference());
  }

  lemma {:induction false} JoinedAccepted(v: Vocabulary, text: string)
    requires v == Indexes() && text == "PX-SPX Index"
    ensures AcceptsText(v, text) && AstOf(v, text) == Security(text)
  {
    LexJoined(text);
    BodyIsAll(text);
    SecurityParses(text);
    AcceptedTokens(v, text, [RefToken(text), Eof], Security(text));
  }

  lemma {:induction false} AcceptedTokens(v: Vocabulary, raw: string, tokens: seq<Token>, ast: Node)
    requires tokens == TokensIn(v, raw) && |raw| <= MAX_FORMULA_LENGTH
    requires BodyOf(raw).start < BodyOf(raw).end && ErrorToken !in tokens
    requires ParseWhole(tokens, MAX_FORMULA_DEPTH) == Some(ast) && Legal(ast)
    ensures AcceptsText(v, raw) && AstOf(v, raw) == ast
  {
  }

  /** `A/ISIN/X`: no reference starts at its first field. */
  lemma SlashEndsField(v: Vocabulary, text: string)
    requires text == "A/ISIN/X"
    ensures LexemeAt(v, text, 0, 8) == Lexeme(WordToken("A"), None, 0, 1)
  {
    NotAReferenceWord(text);
    RunIs(text, 0, 8, 8, InWord);
    RunIs(text, 0, 1, 8, IsIdentifierChar);
    assert text[0..8] == text;
    assert Reference(v, text, 0, 8) == Declined;
    RunIs(text, 0, 1, 8, IsWordPart);
    assert UpperCase(text[0..1]) == "A";
  }

  lemma NotAReferenceWord(text: string)
    requires |text| > 6 && IsLetter(text[0]) && text[1] == '/'
    ensures !IsReferenceWord(text, true)
  {
    RunIs(text, 0, 0, |text|, IsDigit);
    assert !IsPlainChar(text[1]);
  }

  /** Behind it, the slash, a field named like a scheme and another slash make a reference that names nothing. */
  lemma SchemeAfterSlash(v: Vocabulary, text: string)
    requires text == "A/ISIN/X" && v.isIdentifierToken("/ISIN/X") && v.parseSecurityRef("/ISIN/X").NotASecurity?
    ensures LexemeAt(v, text, 1, 8).token == ErrorToken
  {
    RunIs(text, 1, 8, 8, InWord);
    RunIs(text, 1, 8, 8, IsSchemeValueChar);
    assert text[1..8] == "/ISIN/X";
  }

  function TwoQuotients(): Node {
    Binary(Slash, Binary(Slash, Field("A"), Field("ISIN")), Field("X"))
  }

  lemma QuotientsPrint(spell: real -> string)
    ensures PrintText(spell, TwoQuotients()) == "A/ISIN/X"
    ensures Legal(TwoQuotients()) && Printable(TwoQuotients()) && LeftNested(TwoQuotients())
  {
    OneQuotientPrints(spell);
    if EndsWithSchemeRef("A/ISIN") {
      var i, j := TwoSlashes("A/ISIN");
    }
    assert JoinText(Slash, "A/ISIN", "X") == "A/ISIN/X";
  }

  lemma OneQuotientPrints(spell: real -> string)
    ensures PrintText(spell, Binary(Slash, Field("A"), Field("ISIN"))) == "A/ISIN"
  {
    assert !EndsWithSchemeRef("A");
    assert JoinText(Slash, "A", "ISIN") == "A/ISIN";
  }

  /** A scheme reference has two slashes. */
  lemma TwoSlashes(text: string) returns (i: nat, j: nat)
    requires EndsWithSchemeRef(text)
    ensures i < j < |text| && text[i] == text[j] == '/'
  {
    i :| 0 <= i < |text| && IsSchemeRef(text[i..]);
    var k :| 0 <= k < |SECURITY_REF_SCHEMES| && StartsWith(text[i..], "/" + SECURITY_REF_SCHEMES[k] + "/");
    var prefix := "/" + SECURITY_REF_SCHEMES[k] + "/";
    j := i + |prefix| - 1;
    assert text[i..][..|prefix|][0] == text[i] && text[i..][..|prefix|][|prefix| - 1] == text[j];
  }

  /** `A / ISIN / X`, set apart, is read as three fields and two divisions. */
  lemma FirstQuotientField(v: Vocabulary, raw: string)
    requires raw == "A / ISIN / X"
    ensures LexemeAt(v, raw, 0, 12) == Lexeme(WordToken("A"), None, 0, 1)
  {
    assert raw[0..1] == "A" && UpperCase("A") == "A";
    FieldOf(v, raw, 0, 1, 12, "A");
  }

  lemma SecondQuotientField(v: Vocabulary, raw: string)
    requires raw == "A / ISIN / X"
    ensures LexemeAt(v, raw, 4, 12) == Lexeme(WordToken("ISIN"), None, 4, 8)
  {
    assert raw[4..8] == "ISIN" && UpperCase("ISIN") == "ISIN";
    FieldOf(v, raw, 4, 8, 12, "ISIN");
  }

  lemma LastQuotientField(v: Vocabulary, raw: string)
    requires raw == "A / ISIN / X"
    ensures LexemeAt(v, raw, 11, 12) == Lexeme(WordToken("X"), None, 11, 12)
  {
    assert raw[11..12] == "X" && UpperCase("X") == "X";
    FieldOf(v, raw, 11, 12, 12, "X");
  }

  lemma QuotientSlashes(v: Vocabulary, raw: string)
    requires raw == "A / ISIN / X" && !v.isIdentifierToken("/")
    ensures LexemeAt(v, raw, 2, 12) == Lexeme(SlashToken, None, 2, 3)
    ensures LexemeAt(v, raw, 9, 12) == Lexeme(SlashToken, None, 9, 10)
  {
    OperatorSetApart(v, raw, 2, 12);
    OperatorSetApart(v, raw, 9, 12);
  }

  lemma FieldOf(v: Vocabulary, raw: string, i: nat, j: nat, end: nat, field: string)
    requires LettersIn(raw, i, j) && j <= end <= |raw| && j < i + 6 && SetApart(raw, j, end)
    requires raw[i..j] == field && UpperCase(field) == field
    ensures LexemeAt(v, raw, i, end) == Lexeme(WordToken(field), None, i, j)
  {
    FieldSetApart(v, raw, i, j, end);
  }

  lemma QuotientsScan(v: Vocabulary, raw: string)
    requires raw == "A / ISIN / X" && !v.isIdentifierToken("/")
    ensures TokensIn(v, raw) == [WordToken("A"), SlashToken, WordToken("ISIN"), SlashToken, WordToken("X"), Eof]
  {
    BodyIsAll(raw);
    FirstQuotientField(v, raw);
    SecondQuotientField(v, raw);
    LastQuotientField(v, raw);
    QuotientSlashes(v, raw);
    SpacesAt(raw);
    QuotientLexemes(v, raw, LexemeAt(v, raw, 0, 12), LexemeAt(v, raw, 2, 12), LexemeAt(v, raw, 4, 12),
                    LexemeAt(v, raw, 9, 12), LexemeAt(v, raw, 11, 12));
  }

  lemma SpacesAt(raw: string)
    requires raw == "A / ISIN / X"
    ensures |raw| == 12 && raw[1] == raw[3] == raw[8] == raw[10] == ' '
    ensures !IsSpace(raw[0]) && !IsSpace(raw[2]) && !IsSpace(raw[4]) && !IsSpace(raw[9]) && !IsSpace(raw[11])
  {
  }

  lemma QuotientLexemes(v: Vocabulary, raw: string, a: Lexeme, b: Lexeme, c: Lexeme, d: Lexeme, e: Lexeme)
    requires |raw| == 12 && raw[1] == raw[3] == raw[8] == raw[10] == ' '
    requires !IsSpace(raw[0]) && !IsSpace(raw[2]) && !IsSpace(raw[4]) && !IsSpace(raw[9]) && !IsSpace(raw[11])
    requires LexemeAt(v, raw, 0, 12) == a && LexemeAt(v, raw, 2, 12) == b && LexemeAt(v, raw, 4, 12) == c
    requires LexemeAt(v, raw, 9, 12) == d && LexemeAt(v, raw, 11, 12) == e
    requires a.end == 1 && b.end == 3 && c.end == 8 && d.end == 10 && e.end == 12
    ensures TokensOf(Lex(v, raw, 0, 12)) == [a.token, b.token, c.token, d.token, e.token]
  {
    LexLast(v, raw, 11, 12, e);
    LexSpaced(v, raw, 9, 12, d);
    LexSpaced(v, raw, 4, 12, c);
    TokenFirst(d, [e]);
    TokenFirst(c, [d] + [e]);
    QuotientFront(v, raw, a, b, [c] + ([d] + [e]));
  }

  lemma QuotientFront(v: Vocabulary, raw: string, a: Lexeme, b: Lexeme, more: seq<Lexeme>)
    requires |raw| == 12 && raw[1] == raw[3] == ' ' && !IsSpace(raw[0]) && !IsSpace(raw[2])
    requires LexemeAt(v, raw, 0, 12) == a && LexemeAt(v, raw, 2, 12) == b && a.end == 1 && b.end == 3
    requires Lex(v, raw, 4, 12) == more
    ensures TokensOf(Lex(v, raw, 0, 12)) == [a.token] + ([b.token] + TokensOf(more))
  {
    LexSpaced(v, raw, 2, 12, b);
    LexSpaced(v, raw, 0, 12, a);
    TokenFirst(b, more);
    TokenFirst(a, [b] + more);
  }

  lemma QuotientsParse(v: Vocabulary, raw: string)
    requires raw == "A / ISIN / X" && !v.isIdentifierToken("/")
    ensures AcceptsText(v, raw) && AstOf(v, raw) == TwoQuotients()
  {
    var tokens := FormatFormula(TwoQuotients()) + [Eof];
    QuotientsScan(v, raw);
    BodyIsAll(raw);
    QuotientsFormat();
    QuotientsAreShallow();
    ParseOfFormat(TwoQuotients(), MAX_FORMULA_DEPTH);
    AcceptedTokens(v, raw, tokens, TwoQuotients());
  }

  lemma QuotientsFormat()
    ensures FormatFormula(TwoQuotients()) == [WordToken("A"), SlashToken, WordToken("ISIN"), SlashToken, WordToken("X")]
  {
    assert FormatFormula(Binary(Slash, Field("A"), Field("ISIN"))) == [WordToken("A"), SlashToken, WordToken("ISIN")];
  }

  lemma QuotientsAreShallow()
    ensures Printable(TwoQuotients()) && Reassoc(TwoQuotients()) == TwoQuotients() && Legal(TwoQuotients())
    ensures PrintedDepth(TwoQuotients()) <= MAX_FORMULA_DEPTH
  {
    var node, inner := TwoQuotients(), Binary(Slash, Field("A"), Field("ISIN"));
    assert PrintTerm(inner) == MulC(Slash, PrintTerm(Field("A")), PrintUnary(Field("ISIN")));
    assert PrintTerm(node) == MulC(Slash, PrintTerm(inner), PrintUnary(Field("X")));
    assert PrintSum(node) == OneTerm(PrintTerm(node));
  }

  /** The quotient of three fields, accepted with spaces, left-nested, prints as a text that is not a formula at all. */
  lemma FieldJoinsScheme(spell: real -> string, v: Vocabulary, raw: string, text: string)
    requires raw == "A / ISIN / X" && text == "A/ISIN/X" && !v.isIdentifierToken("/")
    requires v.isIdentifierToken("/ISIN/X") && v.parseSecurityRef("/ISIN/X").NotASecurity?
    ensures AcceptsText(v, raw) && AstOf(v, raw) == TwoQuotients()
    ensures LeftNested(TwoQuotients()) && PrintText(spell, TwoQuotients()) == text
    ensures !AcceptsText(v, text)
  {
    QuotientsParse(v, raw);
    QuotientsPrint(spell);
    QuotientsRefused(v, text);
  }

  lemma QuotientsRefused(v: Vocabulary, text: string)
    requires text == "A/ISIN/X"
    requires v.isIdentifierToken("/ISIN/X") && v.parseSecurityRef("/ISIN/X").NotASecurity?
    ensures !AcceptsText(v, text)
  {
    BodyIsAll(text);
    SlashEndsField(v, text);
    SchemeAfterSlash(v, text);
    SecondIsError(v, text, 8);
  }

  lemma SecondIsError(v: Vocabulary, text: string, end: nat)
    requires 1 < end == |text| && BodyOf(text) == Body(0, end, false) && !IsSpace(text[0]) && !IsSpace(text[1])
    requires LexemeAt(v, text, 0, end).end == 1 && LexemeAt(v, text, 1, end).token == ErrorToken
    ensures ErrorToken in TokensIn(v, text)
  {
    var x, y := LexemeAt(v, text, 0, end), LexemeAt(v, text, 1, end);
    assert Lex(v, text, 0, end) == [x] + ([y] + Lex(v, text, y.end, end));
    assert TokensIn(v, text)[1] == ErrorToken;
  }

  lemma {:induction false} FieldBehindBlanks(v: Vocabulary, raw: string, n: nat, field: string)
    requires |raw| == n + 1 && (forall k :: 0 <= k < n ==> raw[k] == ' ') && raw[n] == 'A'
    requires field == UpperCase(raw[n..n + 1])
    ensures BodyOf(raw) == Body(n, n + 1, false) && TokensIn(v, raw) == [WordToken(field), Eof]
  {
    RunIs(raw, 0, n, |raw|, IsSpace);
    FieldSetApart(v, raw, n, n + 1, n + 1);
    LexLast(v, raw, n, n + 1, LexemeAt(v, raw, n, n + 1));
  }

  /** Blanks and a field: accepted exactly up to 400 characters in all. */
  lemma {:induction false} LengthExactly(v: Vocabulary, raw: string, n: nat)
    requires |raw| == n + 1 && (forall k :: 0 <= k < n ==> raw[k] == ' ') && raw[n] == 'A'
    ensures AcceptsText(v, raw) <==> |raw| <= 400
  {
    var field := UpperCase(raw[n..n + 1]);
    FieldBehindBlanks(v, raw, n, field);
    FieldAccepted(v, raw, field);
  }

  lemma {:induction false} FieldAccepted(v: Vocabulary, raw: string, field: string)
    requires BodyOf(raw).start < BodyOf(raw).end && TokensIn(v, raw) == [WordToken(field), Eof]
    ensures AcceptsText(v, raw) <==> |raw| <= 400
  {
    OneField(field);
    if |raw| <= MAX_FORMULA_LENGTH {
      AcceptedTokens(v, raw, [WordToken(field), Eof], Field(field));
    }
  }

  lemma {:induction false} OneField(field: string)
    ensures ParseWhole([WordToken(field), Eof], MAX_FORMULA_DEPTH) == Some(Field(field))
  {
    var node := Field(field);
    assert [WordToken(field), Eof] == FormatFormula(node) + [Eof];
    ParseOfFormat(node, MAX_FORMULA_DEPTH);
    assert PrintPrimary(node) == FieldC(field);
    assert PrintUnary(node) == OnePrimary(PrintPrimary(node));
    assert PrintSum(node) == OneTerm(PrintTerm(node)) == OneTerm(OneUnary(PrintUnary(node)));
    assert SumDepth(PrintSum(node)) == TermDepth(PrintTerm(node)) == UnaryDepth(PrintUnary(node)) == 0;
  }
}
