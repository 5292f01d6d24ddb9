/**
 * The formula scanner. What it takes from elsewhere (the security-reference grammar, the sector names,
 * the number reader) is a `Vocabulary` of arbitrary total functions; everything else is the scanner's own.
 *
 * Each scanning loop is a method proved against the function that says where it stops.
 */
module FormulaLexer {
  import opened Util
  import opened FormulaAst

  const MAX_REF_TOKENS: nat := 7
  const SECTOR_MIN_CHARS: nat := 3
  const SECTOR_MAX_CHARS: nat := 8

  datatype SecurityParse = ParsedSecurity(canonical: string, bare: bool) | NotASecurity

  datatype Vocabulary = Vocabulary(
    parseSecurityRef: string -> SecurityParse,
    isIdentifierToken: string -> bool,
    isSectorToken: string -> bool,
    finiteNumber: string -> Option<real>)

  /** A token with the half-open span of the text it came from; an error token says what was wrong. */
  datatype Lexeme = Lexeme(token: Token, problem: Option<ProblemCode>, start: nat, end: nat)

  // ---------------------------------------------------------------- character classes

  predicate IsSpace(c: char) { c == ' ' || c == '\t' || c == '\n' || c == '\r' || c == '\U{000C}' }
  predicate IsStructural(c: char) { c == '(' || c == ')' || c == ',' }
  predicate IsDigit(c: char) { '0' <= c <= '9' }
  predicate IsLetter(c: char) { 'A' <= c <= 'Z' || 'a' <= c <= 'z' }
  predicate IsWordStart(c: char) { c == '_' || IsLetter(c) }
  predicate IsWordPart(c: char) { IsWordStart(c) || IsDigit(c) }
  predicate IsRefStart(c: char) { IsLetter(c) || IsDigit(c) || c == '/' }
  predicate IsOperator(c: char) { c == '+' || c == '-' || c == '*' || c == '/' }
  predicate IsSchemeValueChar(c: char) {
    IsLetter(c) || IsDigit(c) || c == '.' || c == '/' || c == '_' || c == '-'
  }
  predicate IsIdentifierChar(c: char) { IsLetter(c) || IsDigit(c) }
  predicate IsPlainChar(c: char) { IsIdentifierChar(c) || c == '.' || c == '-' }
  predicate InWord(c: char) { !IsSpace(c) && !IsStructural(c) }

  function Upper(c: char): char {
    if 'a' <= c <= 'z' then c - 'a' + 'A' else c
  }

  function UpperCase(text: string): (r: string)
    ensures |r| == |text| && forall i :: 0 <= i < |r| ==> r[i] == Upper(text[i])
  {
    seq(|text|, i requires 0 <= i < |text| => Upper(text[i]))
  }

  // ---------------------------------------------------------------- runs

  /** Where the run of `p` characters from `i` stops, at `end` at the latest. */
  function RunEnd(raw: string, i: nat, end: nat, p: char -> bool): (j: nat)
    requires end <= |raw|
    ensures i <= j && (j <= end || j == i)
    ensures forall k :: i <= k < j ==> p(raw[k])
    ensures j < end ==> !p(raw[j])
    decreases if i <= end then end - i else 0
  {
    if i < end && p(raw[i]) then RunEnd(raw, i + 1, end, p) else i
  }

  lemma {:induction false} RunReaches(raw: string, i: nat, j: nat, end: nat, p: char -> bool)
    requires i <= j <= end <= |raw| && forall k :: i <= k < j ==> p(raw[k])
    ensures RunEnd(raw, i, end, p) == RunEnd(raw, j, end, p)
    decreases j - i
  {
    if i < j {
      RunReaches(raw, i + 1, j, end, p);
    }
  }

  predicate LettersIn(raw: string, i: nat, j: nat) {
    i < j <= |raw| && forall k :: i <= k < j ==> IsLetter(raw[k])
  }

  /** Where a run ends is fixed by what it holds and what stops it. */
  lemma RunIs(raw: string, i: nat, j: nat, end: nat, p: char -> bool)
    requires i <= j <= end <= |raw| && (forall k :: i <= k < j ==> p(raw[k])) && (j < end ==> !p(raw[j]))
    ensures RunEnd(raw, i, end, p) == j
  {
    RunReaches(raw, i, j, end, p);
  }

  method ScanRun(raw: string, i: nat, end: nat, p: char -> bool) returns (j: nat)
    requires i <= end <= |raw|
    ensures j == RunEnd(raw, i, end, p)
  {
    j := i;
    while j < end && p(raw[j])
      invariant i <= j <= end
      invariant forall k :: i <= k < j ==> p(raw[k])
    {
      j := j + 1;
    }
    RunReaches(raw, i, j, end, p);
  }

  function Matches(text: string, i: nat, p: char -> bool): bool {
    i < |text| && p(text[i])
  }

  // ---------------------------------------------------------------- the wrapper

  datatype Body = Body(start: nat, end: nat, wrapped: bool)

  function TrimEnd(raw: string, start: nat, end: nat): (j: nat)
    requires start <= end <= |raw|
    ensures start <= j <= end
    ensures j > start ==> !IsSpace(raw[j - 1])
    ensures forall k :: j <= k < end ==> IsSpace(raw[k])
    decreases end
  {
    if start < end && IsSpace(raw[end - 1]) then TrimEnd(raw, start, end - 1) else end
  }

  /** The text inside an optional `<…>` wrapper with no angle bracket inside it. */
  function BodyOf(raw: string): (b: Body)
    ensures b.start <= b.end <= |raw|
  {
    var start := RunEnd(raw, 0, |raw|, IsSpace);
    var end := TrimEnd(raw, start, |raw|);
    if end - start >= 2 && raw[start] == '<' && raw[end - 1] == '>'
       && '<' !in raw[start + 1..end - 1] && '>' !in raw[start + 1..end - 1]
    then Body(start + 1, end - 1, true)
    else Body(start, end, false)
  }

  method FormulaBody(raw: string) returns (b: Body)
    ensures b == BodyOf(raw)
  {
    var start := ScanRun(raw, 0, |raw|, IsSpace);
    var end := |raw|;
    while end > start && IsSpace(raw[end - 1])
      invariant start <= end <= |raw|
      invariant TrimEnd(raw, start, |raw|) == TrimEnd(raw, start, end)
    {
      end := end - 1;
    }
    if end - start >= 2 && raw[start] == '<' && raw[end - 1] == '>' {
      var inner := raw[start + 1..end - 1];
      if '<' !in inner && '>' !in inner {
        return Body(start + 1, end - 1, true);
      }
    }
    b := Body(start, end, false);
  }

  // ---------------------------------------------------------------- reference words

  predicate IsPlainWord(text: string) {
    text != "" && IsIdentifierChar(text[0]) && forall i :: 0 <= i < |text| ==> IsPlainChar(text[i])
  }

  /** `08/15/36`: one or two digits, twice, then two to four. */
  predicate IsDateWord(text: string) {
    var a := RunEnd(text, 0, |text|, IsDigit);
    && 1 <= a <= 2 && a < |text| && text[a] == '/'
    && var b := RunEnd(text, a + 1, |text|, IsDigit);
    && 1 <= b - a - 1 <= 2 && b < |text| && text[b] == '/'
    && RunEnd(text, b + 1, |text|, IsDigit) == |text| && 2 <= |text| - b - 1 <= 4
  }

  /** `BRK/B`. */
  predicate IsShareClassWord(text: string) {
    && 3 <= |text| <= 6 && text[|text| - 2] == '/' && IsLetter(text[|text| - 1])
    && forall i :: 0 <= i < |text| - 2 ==> IsLetter(text[i])
  }

  predicate IsReferenceWord(text: string, first: bool) {
    IsPlainWord(text) || IsDateWord(text) || (first && IsShareClassWord(text))
  }

  predicate IsBareIdentifier(text: string) {
    6 <= |text| <= 24 && forall i :: 0 <= i < |text| ==> IsIdentifierChar(text[i])
  }

  function WordEnd(raw: string, from: nat, end: nat): nat
    requires end <= |raw|
  {
    RunEnd(raw, from, end, InWord)
  }

  /** Spans of up to `max` further words, stopping at the first structural character or at `end`. */
  function WordsAfter(raw: string, from: nat, end: nat, max: nat): (ws: seq<(nat, nat)>)
    requires from <= end <= |raw|
    ensures forall k :: 0 <= k < |ws| ==> from <= ws[k].0 < ws[k].1 <= end
    decreases max
  {
    if max == 0 then []
    else
      var i := RunEnd(raw, from, end, IsSpace);
      if i >= end || IsStructural(raw[i]) then []
      else
        var j := WordEnd(raw, i, end);
        if j == i then [] else [(i, j)] + WordsAfter(raw, j, end, max - 1)
  }

  lemma MoveWord(words: seq<(nat, nat)>, w: (nat, nat), rest: seq<(nat, nat)>)
    ensures words + ([w] + rest) == (words + [w]) + rest
  {
  }

  /** The next word, if there is one before a structural character. */
  method NextWord(raw: string, from: nat, end: nat) returns (w: Option<(nat, nat)>)
    requires from <= end <= |raw|
    ensures w.Some? ==> from <= w.value.0 < w.value.1 <= end
    ensures forall max: nat :: max > 0 ==>
              WordsAfter(raw, from, end, max) == if w.None? then []
                  else [w.value] + WordsAfter(raw, w.value.1, end, max - 1)
  {
    var i := ScanRun(raw, from, end, IsSpace);
    if i >= end { return None; }
    if IsStructural(raw[i]) { return None; }
    var j := ScanRun(raw, i, end, InWord);
    if j == i { return None; }
    w := Some((i, j));
  }

  method CollectWords(raw: string, from: nat, end: nat, max: nat) returns (words: seq<(nat, nat)>)
    requires from <= end <= |raw|
    ensures words == WordsAfter(raw, from, end, max)
  {
    words := [];
    var i := from;
    while |words| < max
      invariant |words| <= max && from <= i <= end
      invariant words + WordsAfter(raw, i, end, max - |words|) == WordsAfter(raw, from, end, max)
    {
      var w := NextWord(raw, i, end);
      if w.None? { return; }
      MoveWord(words, w.value, WordsAfter(raw, w.value.1, end, max - |words| - 1));
      words := words + [w.value];
      i := w.value.1;
    }
  }

  /** The longest sector name, of `length` characters at most, that an operator follows in `text`. */
  function SectorCutFrom(v: Vocabulary, text: string, length: nat): (r: Option<nat>)
    requires length < |text|
    ensures r.Some? ==> SECTOR_MIN_CHARS <= r.value <= length
    ensures r.Some? ==> IsOperator(text[r.value]) && v.isSectorToken(text[..r.value])
  {
    if length < SECTOR_MIN_CHARS then None
    else if IsOperator(text[length]) && v.isSectorToken(text[..length]) then Some(length)
    else SectorCutFrom(v, text, length - 1)
  }

  function SectorCut(v: Vocabulary, text: string): (r: Option<nat>)
    ensures r.Some? ==> 0 < r.value < |text|
  {
    if text == "" then None
    else SectorCutFrom(v, text, if |text| - 1 < SECTOR_MAX_CHARS then |text| - 1 else SECTOR_MAX_CHARS)
  }

  method FindSectorCut(v: Vocabulary, text: string) returns (r: Option<nat>)
    ensures r == SectorCut(v, text)
  {
    if text == "" { return None; }
    var length := if |text| - 1 < SECTOR_MAX_CHARS then |text| - 1 else SECTOR_MAX_CHARS;
    while length >= SECTOR_MIN_CHARS
      invariant 0 <= length < |text|
      invariant SectorCut(v, text) == SectorCutFrom(v, text, length)
    {
      if IsOperator(text[length]) && v.isSectorToken(text[..length]) {
        return Some(length);
      }
      length := length - 1;
    }
    r := None;
  }

  // ---------------------------------------------------------------- references

  datatype RefScan = Declined | Recognised(stop: nat, canonical: string) | Malformed(stop: nat)

  predicate StopsWithin(scan: RefScan, from: nat, end: nat) {
    match scan
    case Declined => true
    case Recognised(stop, _) => from < stop <= end
    case Malformed(stop) => from < stop <= end
  }

  /** `/scheme/value`; a leading `/` that is not a scheme is division. */
  function SchemeReference(v: Vocabulary, raw: string, from: nat, wordEnd: nat): (scan: RefScan)
    requires from < wordEnd <= |raw| && raw[from] == '/'
    ensures StopsWithin(scan, from, wordEnd)
  {
    var stop := RunEnd(raw, from, wordEnd, IsSchemeValueChar);
    assert stop > from;
    if !v.isIdentifierToken(raw[from..stop]) then Declined
    else
      match v.parseSecurityRef(raw[from..stop])
      case ParsedSecurity(canonical, _) => Recognised(stop, canonical)
      case NotASecurity => Malformed(stop)
  }

  /** Where a sector name ends inside the word `[lo, hi)`, if the word is or starts with one. */
  function AnchorIn(v: Vocabulary, raw: string, lo: nat, hi: nat): (r: Option<nat>)
    requires lo < hi <= |raw|
    ensures r.Some? ==> lo < r.value <= hi
  {
    var text := raw[lo..hi];
    if !IsLetter(text[0]) then None
    else if v.isSectorToken(text) then Some(hi)
    else match SectorCut(v, text) case None => None case Some(cut) => Some(lo + cut)
  }

  /** The nearest anchor decides; the words before it must look like parts of a reference. */
  function AnchoredReference(v: Vocabulary, raw: string, from: nat, words: seq<(nat, nat)>): (scan: RefScan)
    requires forall k :: 0 <= k < |words| ==> from < words[k].0 < words[k].1 <= |raw|
    ensures StopsWithin(scan, from, |raw|) && !scan.Malformed?
    ensures scan.Recognised? ==> exists k :: 0 <= k < |words| && scan.stop <= words[k].1
  {
    if words == [] then Declined
    else
      match AnchorIn(v, raw, words[0].0, words[0].1)
      case Some(stop) =>
        (match v.parseSecurityRef(raw[from..stop])
         case ParsedSecurity(canonical, _) => Recognised(stop, canonical)
         case NotASecurity => Declined)
      case None =>
        if !IsReferenceWord(raw[words[0].0..words[0].1], false) then Declined
        else AnchoredReference(v, raw, from, words[1..])
  }

  method ScanAnchored(v: Vocabulary, raw: string, from: nat, words: seq<(nat, nat)>) returns (scan: RefScan)
    requires forall k :: 0 <= k < |words| ==> from < words[k].0 < words[k].1 <= |raw|
    ensures scan == AnchoredReference(v, raw, from, words)
  {
    assert words[0..] == words;
    for k := 0 to |words|
      invariant AnchoredReference(v, raw, from, words[k..]) == AnchoredReference(v, raw, from, words)
    {
      var (lo, hi) := words[k];
      var text := raw[lo..hi];
      assert words[k..][0] == words[k] && words[k..][1..] == words[k + 1..];
      var stop: Option<nat> := None;
      if IsLetter(text[0]) {
        if v.isSectorToken(text) {
          stop := Some(hi);
        } else {
          var cut := FindSectorCut(v, text);
          if cut.Some? { stop := Some(lo + cut.value); }
        }
      }
      if stop.None? {
        if !IsReferenceWord(text, false) { return Declined; }
        continue;
      }
      match v.parseSecurityRef(raw[from..stop.value])
      case ParsedSecurity(canonical, _) => return Recognised(stop.value, canonical);
      case NotASecurity => return Declined;
    }
    scan := Declined;
  }

  /** One bare identifier with a valid check digit, which an operator may follow. */
  function BareReference(v: Vocabulary, raw: string, from: nat, wordEnd: nat): (scan: RefScan)
    requires from < wordEnd <= |raw|
    ensures StopsWithin(scan, from, wordEnd) && !scan.Malformed?
  {
    var stop := RunEnd(raw, from, wordEnd, IsIdentifierChar);
    if (stop == wordEnd || IsOperator(raw[stop])) && IsBareIdentifier(raw[from..stop]) then
      match v.parseSecurityRef(raw[from..stop])
      case ParsedSecurity(canonical, bare) => if bare then Recognised(stop, canonical) else Declined
      case NotASecurity => Declined
    else Declined
  }

  /** The three reference rules, in order. */
  function Reference(v: Vocabulary, raw: string, from: nat, end: nat): (scan: RefScan)
    requires from < end <= |raw|
    ensures StopsWithin(scan, from, end)
  {
    var wordEnd := WordEnd(raw, from, end);
    if wordEnd == from then Declined
    else if raw[from] == '/' then SchemeReference(v, raw, from, wordEnd)
    else
      var anchored :=
        if IsReferenceWord(raw[from..wordEnd], true)
        then AnchoredReference(v, raw, from, WordsAfter(raw, wordEnd, end, MAX_REF_TOKENS - 1))
        else Declined;
      if anchored.Recognised? then anchored else BareReference(v, raw, from, wordEnd)
  }

  method ScanReference(v: Vocabulary, raw: string, from: nat, end: nat) returns (scan: RefScan)
    requires from < end <= |raw|
    ensures scan == Reference(v, raw, from, end)
  {
    var wordEnd := ScanRun(raw, from, end, InWord);
    if wordEnd == from { return Declined; }
    if raw[from] == '/' {
      var stop := ScanRun(raw, from, wordEnd, IsSchemeValueChar);
      var text := raw[from..stop];
      if !v.isIdentifierToken(text) { return Declined; }
      match v.parseSecurityRef(text)
      case ParsedSecurity(canonical, _) => return Recognised(stop, canonical);
      case NotASecurity => return Malformed(stop);
    }
    if IsReferenceWord(raw[from..wordEnd], true) {
      var words := CollectWords(raw, wordEnd, end, MAX_REF_TOKENS - 1);
      var anchored := ScanAnchored(v, raw, from, words);
      if anchored.Recognised? { return anchored; }
    }
    var stop := ScanRun(raw, from, wordEnd, IsIdentifierChar);
    if (stop == wordEnd || IsOperator(raw[stop])) && IsBareIdentifier(raw[from..stop]) {
      match v.parseSecurityRef(raw[from..stop])
      case ParsedSecurity(canonical, bare) => if bare { return Recognised(stop, canonical); }
      case NotASecurity =>
    }
    scan := Declined;
  }

  // ---------------------------------------------------------------- ordinary tokens

  /** Past the exponent at `i` when there is a complete one. */
  function ExponentEnd(raw: string, i: nat, end: nat): (j: nat)
    requires i <= end <= |raw|
    ensures i <= j <= end
  {
    if i < end && (raw[i] == 'e' || raw[i] == 'E') then
      var signed := if i + 1 < end && (raw[i + 1] == '+' || raw[i + 1] == '-') then i + 2 else i + 1;
      if signed < end && IsDigit(raw[signed]) then RunEnd(raw, signed, end, IsDigit) else i
    else i
  }

  /** Past the numeric literal at `from`. */
  function NumberEnd(raw: string, from: nat, end: nat): (j: nat)
    requires from < end <= |raw|
    requires IsDigit(raw[from]) || raw[from] == '.'
    ensures from < j <= end
  {
    var whole := RunEnd(raw, from, end, IsDigit);
    var fraction := if whole < end && raw[whole] == '.' then RunEnd(raw, whole + 1, end, IsDigit) else whole;
    ExponentEnd(raw, fraction, end)
  }

  function Punctuation(c: char): Option<Token> {
    match c
    case '(' => Some(LParen)
    case ')' => Some(RParen)
    case ',' => Some(Comma)
    case '+' => Some(PlusToken)
    case '-' => Some(MinusToken)
    case '*' => Some(StarToken)
    case '/' => Some(SlashToken)
    case _ => None
  }

  /** The one ordinary token at `from`. */
  function OrdinaryAt(v: Vocabulary, raw: string, from: nat, end: nat): (x: Lexeme)
    requires from < end <= |raw|
    ensures x.start == from && from < x.end <= end
    ensures x.problem.Some? <==> x.token == ErrorToken
  {
    var c := raw[from];
    if IsDigit(c) || (c == '.' && Matches(raw, from + 1, IsDigit)) then
      var j := NumberEnd(raw, from, end);
      match v.finiteNumber(raw[from..j])
      case Some(value) => Lexeme(NumberToken(value), None, from, j)
      case None => Lexeme(ErrorToken, Some(UnexpectedChar), from, j)
    else if IsWordStart(c) then
      var j := RunEnd(raw, from, end, IsWordPart);
      assert j > from;
      Lexeme(WordToken(UpperCase(raw[from..j])), None, from, j)
    else
      match Punctuation(c)
      case Some(token) => Lexeme(token, None, from, from + 1)
      case None => Lexeme(ErrorToken, Some(UnexpectedChar), from, from + 1)
  }

  method ScanNumber(raw: string, from: nat, end: nat) returns (j: nat)
    requires from < end <= |raw|
    requires IsDigit(raw[from]) || raw[from] == '.'
    ensures j == NumberEnd(raw, from, end)
  {
    j := ScanRun(raw, from, end, IsDigit);
    if j < end && raw[j] == '.' {
      j := ScanRun(raw, j + 1, end, IsDigit);
    }
    if j < end && (raw[j] == 'e' || raw[j] == 'E') {
      var k := j + 1;
      if k < end && (raw[k] == '+' || raw[k] == '-') { k := k + 1; }
      if k < end && IsDigit(raw[k]) {
        j := ScanRun(raw, k, end, IsDigit);
      }
    }
  }

  method ScanToken(v: Vocabulary, raw: string, from: nat, end: nat) returns (x: Lexeme)
    requires from < end <= |raw|
    ensures x == OrdinaryAt(v, raw, from, end)
  {
    var c := raw[from];
    if IsDigit(c) || (c == '.' && Matches(raw, from + 1, IsDigit)) {
      var j := ScanNumber(raw, from, end);
      match v.finiteNumber(raw[from..j])
      case Some(value) => return Lexeme(NumberToken(value), None, from, j);
      case None => return Lexeme(ErrorToken, Some(UnexpectedChar), from, j);
    }
    if IsWordStart(c) {
      var j := ScanRun(raw, from, end, IsWordPart);
      return Lexeme(WordToken(UpperCase(raw[from..j])), None, from, j);
    }
    var punct := Punctuation(c);
    if punct.Some? {
      return Lexeme(punct.value, None, from, from + 1);
    }
    x := Lexeme(ErrorToken, Some(UnexpectedChar), from, from + 1);
  }

  // ---------------------------------------------------------------- the scan

  /** What starts at a character that is not a space: punctuation, a reference, or an ordinary token. */
  function LexemeAt(v: Vocabulary, raw: string, i: nat, end: nat): (x: Lexeme)
    requires i < end <= |raw|
    ensures x.start == i && i < x.end <= end
    ensures x.problem.Some? <==> x.token == ErrorToken
    ensures x.token != Eof
  {
    var c := raw[i];
    if IsStructural(c) then Lexeme(Punctuation(c).value, None, i, i + 1)
    else if !IsRefStart(c) then OrdinaryAt(v, raw, i, end)
    else
      match Reference(v, raw, i, end)
      case Recognised(stop, canonical) => Lexeme(RefToken(canonical), None, i, stop)
      case Malformed(stop) => Lexeme(ErrorToken, Some(BadSecurityRef), i, stop)
      case Declined => OrdinaryAt(v, raw, i, end)
  }

  function Lex(v: Vocabulary, raw: string, i: nat, end: nat): seq<Lexeme>
    requires i <= end <= |raw|
    decreases end - i
  {
    if i == end then []
    else if IsSpace(raw[i]) then Lex(v, raw, i + 1, end)
    else var x := LexemeAt(v, raw, i, end); [x] + Lex(v, raw, x.end, end)
  }

  function TokensOf(xs: seq<Lexeme>): (ts: seq<Token>)
    ensures |ts| == |xs| && forall i :: 0 <= i < |xs| ==> ts[i] == xs[i].token
  {
    seq(|xs|, i requires 0 <= i < |xs| => xs[i].token)
  }

  /** One lexeme, which is not white space. */
  method ScanLexeme(v: Vocabulary, raw: string, i: nat, end: nat) returns (next: Lexeme)
    requires i < end <= |raw| && !IsSpace(raw[i])
    ensures next == LexemeAt(v, raw, i, end)
  {
    var c := raw[i];
    if IsStructural(c) {
      return Lexeme(Punctuation(c).value, None, i, i + 1);
    }
    var scan := Declined;
    if IsRefStart(c) {
      scan := ScanReference(v, raw, i, end);
    }
    match scan
    case Recognised(stop, canonical) => next := Lexeme(RefToken(canonical), None, i, stop);
    case Malformed(stop) => next := Lexeme(ErrorToken, Some(BadSecurityRef), i, stop);
    case Declined => next := ScanToken(v, raw, i, end);
  }

  /** The scanner: the tokens with the end marker, and one problem for each error token, in order. */
  method LexFormula(v: Vocabulary, raw: string, body: Body) returns (tokens: seq<Token>, problems: seq<ProblemCode>)
    requires body.start <= body.end <= |raw|
    ensures tokens == TokensOf(Lex(v, raw, body.start, body.end)) + [Eof]
    ensures problems == [] <==> ErrorToken !in tokens
  {
    tokens, problems := [], [];
    ghost var done: seq<Lexeme> := [];
    var i := body.start;
    while i < body.end
      invariant body.start <= i <= body.end
      invariant Lex(v, raw, body.start, body.end) == done + Lex(v, raw, i, body.end)
      invariant tokens == TokensOf(done)
      invariant problems == [] <==> ErrorToken !in tokens
    {
      var c := raw[i];
      if IsSpace(c) {
        i := i + 1;
        continue;
      }
      var next := ScanLexeme(v, raw, i, body.end);
      assert done + ([next] + Lex(v, raw, next.end, body.end)) == (done + [next]) + Lex(v, raw, next.end, body.end);
      tokens := tokens + [next.token];
      if next.problem.Some? {
        problems := problems + [next.problem.value];
      }
      done := done + [next];
      i := next.end;
    }
    tokens := tokens + [Eof];
  }

  // ---------------------------------------------------------------- the scan tiles the body

  /** Spans follow one another from `i`, none is empty, and only white space lies outside them. */
  predicate Tiles(raw: string, i: nat, end: nat, xs: seq<Lexeme>)
    requires i <= end <= |raw|
    decreases |xs|
  {
    if xs == [] then forall k :: i <= k < end ==> IsSpace(raw[k])
    else
      && i <= xs[0].start < xs[0].end <= end
      && (forall k :: i <= k < xs[0].start ==> IsSpace(raw[k]))
      && !IsSpace(raw[xs[0].start])
      && Tiles(raw, xs[0].end, end, xs[1..])
  }

  lemma {:induction false} ScanTiles(v: Vocabulary, raw: string, i: nat, end: nat)
    requires i <= end <= |raw|
    ensures Tiles(raw, i, end, Lex(v, raw, i, end))
    decreases end - i
  {
    if i < end {
      if IsSpace(raw[i]) {
        ScanTiles(v, raw, i + 1, end);
      } else {
        var x := LexemeAt(v, raw, i, end);
        ScanTiles(v, raw, x.end, end);
        assert Lex(v, raw, i, end)[1..] == Lex(v, raw, x.end, end);
      }
    }
  }

  /** Tokens are disjoint and not empty, so there are no more of them than characters. */
  lemma {:induction false} TilesAreFew(raw: string, i: nat, end: nat, xs: seq<Lexeme>)
    requires i <= end <= |raw| && Tiles(raw, i, end, xs)
    ensures |xs| <= end - i
    decreases |xs|
  {
    if xs != [] {
      TilesAreFew(raw, xs[0].end, end, xs[1..]);
    }
  }

  /** Words never contain a bar: they are letters, digits and underscores. */
  predicate CleanToken(t: Token) {
    (t.WordToken? ==> '|' !in t.upper) && (t.RefToken? ==> t.canonical != "")
  }

  lemma {:induction false} ScannedAreClean(v: Vocabulary, raw: string, i: nat, end: nat)
    requires i <= end <= |raw|
    requires forall s: string :: v.parseSecurityRef(s).ParsedSecurity? ==> v.parseSecurityRef(s).canonical != ""
    ensures forall x :: x in Lex(v, raw, i, end) ==> CleanToken(x.token) && x.token != Eof
    decreases end - i
  {
    if i < end {
      if IsSpace(raw[i]) {
        ScannedAreClean(v, raw, i + 1, end);
      } else {
        LexemeIsClean(v, raw, i, end);
        ScannedAreClean(v, raw, LexemeAt(v, raw, i, end).end, end);
      }
    }
  }

  lemma LexemeIsClean(v: Vocabulary, raw: string, i: nat, end: nat)
    requires i < end <= |raw|
    requires forall s: string :: v.parseSecurityRef(s).ParsedSecurity? ==> v.parseSecurityRef(s).canonical != ""
    ensures CleanToken(LexemeAt(v, raw, i, end).token)
  {
    OrdinaryIsClean(v, raw, i, end);
    if IsRefStart(raw[i]) && !IsStructural(raw[i]) {
      ReferenceIsNamed(v, raw, i, end);
    }
  }

  lemma OrdinaryIsClean(v: Vocabulary, raw: string, from: nat, end: nat)
    requires from < end <= |raw|
    ensures CleanToken(OrdinaryAt(v, raw, from, end).token)
  {
    var x := OrdinaryAt(v, raw, from, end);
    if x.token.WordToken? {
      assert forall k :: from <= k < x.end ==> IsWordPart(raw[k]);
      assert forall k :: 0 <= k < |x.token.upper| ==> x.token.upper[k] == Upper(raw[from + k]);
    }
  }

  lemma ReferenceIsNamed(v: Vocabulary, raw: string, from: nat, end: nat)
    requires from < end <= |raw|
    requires forall s: string :: v.parseSecurityRef(s).ParsedSecurity? ==> v.parseSecurityRef(s).canonical != ""
    ensures Reference(v, raw, from, end).Recognised? ==> Reference(v, raw, from, end).canonical != ""
  {
    var wordEnd := WordEnd(raw, from, end);
    AnchoredIsNamed(v, raw, from, WordsAfter(raw, wordEnd, end, MAX_REF_TOKENS - 1));
  }

  lemma {:induction false} AnchoredIsNamed(v: Vocabulary, raw: string, from: nat, words: seq<(nat, nat)>)
    requires forall s: string :: v.parseSecurityRef(s).ParsedSecurity? ==> v.parseSecurityRef(s).canonical != ""
    requires forall k :: 0 <= k < |words| ==> from < words[k].0 < words[k].1 <= |raw|
    ensures AnchoredReference(v, raw, from, words).Recognised?
        ==> AnchoredReference(v, raw, from, words).canonical != ""
  {
    if words != [] {
      AnchoredIsNamed(v, raw, from, words[1..]);
    }
  }
}
