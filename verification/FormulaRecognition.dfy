/**
 * Which texts the scanner takes for securities, said of the text alone: where its words lie, what shape they have
 * and where a sector name stands. `SecurityExactly` is the whole rule, both ways.
 */
module FormulaRecognition {
  import opened Util
  import opened FormulaAst
  import opened FormulaLexer

  const DIGITS := "0123456789"
  const CAPITALS := "ABCDEFGHIJKLMNOPQRSTUVWXYZ"
  const SMALLS := "abcdefghijklmnopqrstuvwxyz"

  /** The characters of each class, listed. */
  lemma CharacterSets(c: char)
    ensures IsSpace(c) <==> c in " \t\n\r\U{000C}"
    ensures IsDigit(c) <==> c in DIGITS
    ensures IsLetter(c) <==> c in CAPITALS || c in SMALLS
    ensures IsIdentifierChar(c) <==> c in DIGITS || c in CAPITALS || c in SMALLS
    ensures IsPlainChar(c) <==> c in DIGITS || c in CAPITALS || c in SMALLS || c in ".-"
    ensures IsWordPart(c) <==> c in DIGITS || c in CAPITALS || c in SMALLS || c == '_'
    ensures IsSchemeValueChar(c) <==> c in DIGITS || c in CAPITALS || c in SMALLS || c in "./_-"
    ensures InWord(c) <==> c !in " \t\n\r\U{000C}(),"
  {
    DigitSet(c);
    CapitalSet(c);
    SmallSet(c);
  }

  /** Each small letter has its capital, and nothing else changes. */
  lemma Capitals(c: char, k: nat)
    requires k < 26
    ensures Upper(SMALLS[k]) == CAPITALS[k]
    ensures c !in SMALLS ==> Upper(c) == c
  {
    assert SMALLS[k] as int == 'a' as int + k && CAPITALS[k] as int == 'A' as int + k;
    SmallSet(c);
  }

  lemma DigitSet(c: char)
    ensures IsDigit(c) <==> c in DIGITS
  {
    if IsDigit(c) {
      assert DIGITS[c as int - '0' as int] == c;
    }
  }

  lemma CapitalSet(c: char)
    ensures 'A' <= c <= 'Z' <==> c in CAPITALS
  {
    if 'A' <= c <= 'Z' {
      assert CAPITALS[c as int - 'A' as int] == c;
    }
  }

  lemma SmallSet(c: char)
    ensures 'a' <= c <= 'z' <==> c in SMALLS
  {
    if 'a' <= c <= 'z' {
      assert SMALLS[c as int - 'a' as int] == c;
    }
  }

  // ---------------------------------------------------------------- words on the text

  /** `[w.0, w.1)` is a whole word up to `end`. */
  predicate IsWordAt(raw: string, w: (nat, nat), end: nat) {
    && w.0 < w.1 <= end <= |raw| && (forall k :: w.0 <= k < w.1 ==> InWord(raw[k]))
    && (w.1 < end ==> !InWord(raw[w.1]))
  }

  predicate IsBlank(raw: string, i: nat, j: nat) {
    i <= j <= |raw| && forall k :: i <= k < j ==> IsSpace(raw[k])
  }

  /** Words one after another from `from`, with nothing but white space before each. */
  predicate InARow(raw: string, from: nat, ws: seq<(nat, nat)>, end: nat)
    decreases |ws|
  {
    ws == [] || (IsWordAt(raw, ws[0], end) && IsBlank(raw, from, ws[0].0) && InARow(raw, ws[0].1, ws[1..], end))
  }

  lemma NextIs(raw: string, from: nat, w: (nat, nat), end: nat, max: nat)
    requires from <= end && max > 0 && IsWordAt(raw, w, end) && IsBlank(raw, from, w.0)
    ensures WordsAfter(raw, from, end, max) == [w] + WordsAfter(raw, w.1, end, max - 1)
  {
    RunIs(raw, from, w.0, end, IsSpace);
    RunIs(raw, w.0, w.1, end, InWord);
  }

  /** Words in a row are the first of the words collected there. */
  lemma {:induction false} RowIsCollected(raw: string, from: nat, ws: seq<(nat, nat)>, end: nat, max: nat)
    requires from <= end <= |raw| && InARow(raw, from, ws, end) && |ws| <= max
    ensures ws <= WordsAfter(raw, from, end, max)
    decreases |ws|
  {
    if ws != [] {
      NextIs(raw, from, ws[0], end, max);
      RowIsCollected(raw, ws[0].1, ws[1..], end, max - 1);
      assert ws == [ws[0]] + ws[1..];
    }
  }

  lemma {:induction false} CollectedAreInARow(raw: string, from: nat, end: nat, max: nat)
    requires from <= end <= |raw|
    ensures InARow(raw, from, WordsAfter(raw, from, end, max), end) && |WordsAfter(raw, from, end, max)| <= max
    decreases max
  {
    var ws := WordsAfter(raw, from, end, max);
    if ws != [] {
      CollectedAreInARow(raw, ws[0].1, end, max - 1);
      assert ws[1..] == WordsAfter(raw, ws[0].1, end, max - 1);
    }
  }

  // ---------------------------------------------------------------- the body

  /** `[lo, hi)` is the text without white space at its ends. */
  predicate IsTrimmedSpan(raw: string, lo: nat, hi: nat) {
    && lo <= hi <= |raw| && IsBlank(raw, 0, lo) && IsBlank(raw, hi, |raw|)
    && (lo < hi ==> !IsSpace(raw[lo]) && !IsSpace(raw[hi - 1]))
  }

  /** `[lo, hi)` is a text in angle brackets with no others inside. */
  predicate IsWrapped(raw: string, lo: nat, hi: nat) {
    && lo + 2 <= hi <= |raw| && raw[lo] == '<' && raw[hi - 1] == '>'
    && forall k :: lo < k < hi - 1 ==> raw[k] != '<' && raw[k] != '>'
  }

  /** The body is the trimmed text, or what is inside it when it is in angle brackets. */
  lemma BodyExactly(raw: string)
    ensures var b := BodyOf(raw);
            if b.wrapped then b.start > 0 && IsWrapped(raw, b.start - 1, b.end + 1)
                              && IsTrimmedSpan(raw, b.start - 1, b.end + 1)
            else IsTrimmedSpan(raw, b.start, b.end) && !IsWrapped(raw, b.start, b.end)
  {
    var start := RunEnd(raw, 0, |raw|, IsSpace);
    var end := TrimEnd(raw, start, |raw|);
    if end - start >= 2 {
      var inner := raw[start + 1..end - 1];
      assert forall k :: start < k < end - 1 ==> raw[k] == inner[k - start - 1];
      assert forall k :: 0 <= k < |inner| ==> inner[k] == raw[start + 1 + k];
    }
  }

  // ---------------------------------------------------------------- sectors in a word

  /** The first `n` characters are a sector name that an operator follows, three to eight of them. */
  predicate CutsAt(v: Vocabulary, text: string, n: nat) {
    3 <= n <= 8 && n < |text| && text[n] in "+-*/" && v.isSectorToken(text[..n])
  }

  /** The word is a sector name, or `n` is the longest front of it that is one before an operator. */
  predicate SectorEnds(v: Vocabulary, text: string, n: nat) {
    && text != "" && IsLetter(text[0])
    && (if v.isSectorToken(text) then n == |text|
        else CutsAt(v, text, n) && forall m :: n < m < |text| ==> !CutsAt(v, text, m))
  }

  predicate HoldsSector(v: Vocabulary, text: string) {
    text != "" && IsLetter(text[0]) && (v.isSectorToken(text) || exists n :: 0 <= n < |text| && CutsAt(v, text, n))
  }

  lemma {:induction false} CutFrom(v: Vocabulary, text: string, length: nat)
    requires length < |text| && length <= 8
    ensures match SectorCutFrom(v, text, length)
            case Some(n) => n <= length && CutsAt(v, text, n) && forall m :: n < m <= length ==> !CutsAt(v, text, m)
            case None => forall m :: 0 <= m <= length ==> !CutsAt(v, text, m)
    decreases length
  {
    assert forall c :: IsOperator(c) <==> c in "+-*/";
    if length >= 3 && !(IsOperator(text[length]) && v.isSectorToken(text[..length])) {
      CutFrom(v, text, length - 1);
    }
  }

  lemma AnchorExactly(v: Vocabulary, raw: string, lo: nat, hi: nat)
    requires lo < hi <= |raw|
    ensures forall n :: AnchorIn(v, raw, lo, hi) == Some(lo + n) <==> SectorEnds(v, raw[lo..hi], n)
    ensures AnchorIn(v, raw, lo, hi) == None <==> !HoldsSector(v, raw[lo..hi])
  {
    var text := raw[lo..hi];
    CutFrom(v, text, if |text| - 1 < 8 then |text| - 1 else 8);
  }

  // ---------------------------------------------------------------- references that end at a sector

  /**
   * Two to seven words in a row from `from`: the first a reference word, those between reference words that hold no
   * sector, and the last one a sector name or starting with one, which ends at `stop`.
   */
  predicate EndsAtSector(v: Vocabulary, raw: string, from: nat, end: nat, ws: seq<(nat, nat)>, stop: nat) {
    && 2 <= |ws| <= 7 && InARow(raw, from, ws, end) && ws[0].0 == from
    && IsReferenceWord(TextAt(raw, ws[0]), true)
    && (forall k :: 0 < k < |ws| - 1 ==> IsInner(v, TextAt(raw, ws[k])))
    && ws[|ws| - 1].0 <= stop && SectorEnds(v, TextAt(raw, ws[|ws| - 1]), stop - ws[|ws| - 1].0)
  }

  function TextAt(raw: string, w: (nat, nat)): string {
    if w.0 <= w.1 <= |raw| then raw[w.0..w.1] else ""
  }

  predicate IsInner(v: Vocabulary, text: string) {
    IsReferenceWord(text, false) && !HoldsSector(v, text)
  }

  /** The word at `k` is the first to hold a sector, which ends at `stop`. */
  predicate AnchoredAt(v: Vocabulary, raw: string, words: seq<(nat, nat)>, k: nat, stop: nat)
    requires k < |words|
  {
    && (forall m :: 0 <= m < k ==> IsInner(v, TextAt(raw, words[m])))
    && words[k].0 <= stop && SectorEnds(v, TextAt(raw, words[k]), stop - words[k].0)
  }

  ghost predicate AnchoredSomewhere(v: Vocabulary, raw: string, words: seq<(nat, nat)>, stop: nat) {
    exists k :: 0 <= k < |words| && AnchoredAt(v, raw, words, k, stop)
  }

  lemma EndsIsHolds(v: Vocabulary, text: string)
    ensures HoldsSector(v, text) <==> exists n :: 0 <= n <= |text| && SectorEnds(v, text, n)
  {
    if HoldsSector(v, text) {
      assert text[0..|text|] == text;
      AnchorExactly(v, text, 0, |text|);
      var stop := AnchorIn(v, text, 0, |text|).value;
      assert SectorEnds(v, text, stop - 0);
    }
  }

  lemma AnchoredLater(v: Vocabulary, raw: string, words: seq<(nat, nat)>, k: nat, stop: nat)
    requires 0 < k < |words| && AnchoredAt(v, raw, words, k, stop)
    ensures IsInner(v, TextAt(raw, words[0])) && AnchoredAt(v, raw, words[1..], k - 1, stop)
  {
    forall m | 0 <= m < k - 1
      ensures IsInner(v, TextAt(raw, words[1..][m]))
    {
      assert words[1..][m] == words[m + 1];
    }
  }

  lemma AnchoredBehind(v: Vocabulary, raw: string, words: seq<(nat, nat)>, j: nat, stop: nat)
    requires j + 1 < |words| && AnchoredAt(v, raw, words[1..], j, stop) && IsInner(v, TextAt(raw, words[0]))
    ensures AnchoredAt(v, raw, words, j + 1, stop)
  {
    forall m | 0 <= m < j + 1
      ensures IsInner(v, TextAt(raw, words[m]))
    {
      assert m > 0 ==> words[m] == words[1..][m - 1];
    }
  }

  lemma FirstOrLater(v: Vocabulary, raw: string, words: seq<(nat, nat)>, stop: nat)
    requires words != [] && words[0].0 < words[0].1 <= |raw|
    ensures AnchoredSomewhere(v, raw, words, stop) <==>
              if HoldsSector(v, TextAt(raw, words[0])) then AnchoredAt(v, raw, words, 0, stop)
              else IsReferenceWord(TextAt(raw, words[0]), false) && AnchoredSomewhere(v, raw, words[1..], stop)
  {
    EndsIsHolds(v, TextAt(raw, words[0]));
    if k :| 0 <= k < |words| && AnchoredAt(v, raw, words, k, stop) {
      if k > 0 {
        AnchoredLater(v, raw, words, k, stop);
      }
    }
    if j :| 0 <= j < |words| - 1 && AnchoredAt(v, raw, words[1..], j, stop) {
      if IsInner(v, TextAt(raw, words[0])) {
        AnchoredBehind(v, raw, words, j, stop);
      }
    }
  }

  /** The first word that holds a sector decides, when those before it may stand inside a reference. */
  lemma {:induction false} AnchoredExactly(v: Vocabulary, raw: string, from: nat, words: seq<(nat, nat)>, stop: nat,
                                           canonical: string)
    requires forall k :: 0 <= k < |words| ==> from < words[k].0 < words[k].1 <= |raw|
    requires from <= stop <= |raw|
    ensures AnchoredReference(v, raw, from, words) == Recognised(stop, canonical) <==>
              ParsesAs(v, raw[from..stop], canonical) && AnchoredSomewhere(v, raw, words, stop)
    decreases |words|
  {
    if words != [] {
      var (lo, hi) := words[0];
      AnchorExactly(v, raw, lo, hi);
      FirstOrLater(v, raw, words, stop);
      AnchoredExactly(v, raw, from, words[1..], stop, canonical);
      assert lo <= stop ==> lo + (stop - lo) == stop;
    }
  }

  predicate ParsesAs(v: Vocabulary, text: string, canonical: string) {
    v.parseSecurityRef(text).ParsedSecurity? && v.parseSecurityRef(text).canonical == canonical
  }

  lemma WordBefore(raw: string, w: (nat, nat), ws: seq<(nat, nat)>, end: nat)
    requires ws != [] && ws[0] == w && IsWordAt(raw, w, end) && InARow(raw, w.1, ws[1..], end)
    ensures InARow(raw, w.0, ws, end)
  {
    assert IsBlank(raw, w.0, w.0);
  }

  /** Words that anchor behind the first one make a row. */
  lemma RowOfWords(v: Vocabulary, raw: string, w: (nat, nat), rest: seq<(nat, nat)>, end: nat, k: nat, stop: nat,
                   ws: seq<(nat, nat)>)
    requires IsWordAt(raw, w, end) && IsReferenceWord(TextAt(raw, w), true)
    requires InARow(raw, w.1, rest, end) && k < |rest| <= 6 && AnchoredAt(v, raw, rest, k, stop)
    requires ws == [w] + rest[..k + 1]
    ensures EndsAtSector(v, raw, w.0, end, ws, stop)
  {
    FrontInARow(raw, w.1, rest, end, k + 1);
    assert ws[1..] == rest[..k + 1];
    WordBefore(raw, w, ws, end);
    InnerWords(v, raw, w, rest, k, stop, ws);
  }

  lemma InnerWords(v: Vocabulary, raw: string, w: (nat, nat), rest: seq<(nat, nat)>, k: nat, stop: nat,
                   ws: seq<(nat, nat)>)
    requires k < |rest| && AnchoredAt(v, raw, rest, k, stop) && ws == [w] + rest[..k + 1]
    ensures ws[0] == w && |ws| == k + 2 && ws[|ws| - 1] == rest[k]
    ensures forall m :: 0 < m < |ws| - 1 ==> IsInner(v, TextAt(raw, ws[m]))
  {
    forall m | 0 < m < |ws| - 1
      ensures IsInner(v, TextAt(raw, ws[m]))
    {
      assert ws[m] == rest[m - 1];
    }
  }

  /** A row anchors among any words that it is the front of. */
  lemma WordsOfRow(v: Vocabulary, raw: string, from: nat, ws: seq<(nat, nat)>, rest: seq<(nat, nat)>, end: nat,
                   stop: nat)
    requires EndsAtSector(v, raw, from, end, ws, stop) && ws[1..] <= rest
    ensures |ws| - 2 < |rest| && AnchoredAt(v, raw, rest, |ws| - 2, stop)
  {
    InnerBehind(v, raw, ws, rest);
  }

  lemma InnerBehind(v: Vocabulary, raw: string, ws: seq<(nat, nat)>, rest: seq<(nat, nat)>)
    requires |ws| >= 2 && ws[1..] <= rest
    requires forall k :: 0 < k < |ws| - 1 ==> IsInner(v, TextAt(raw, ws[k]))
    ensures rest[|ws| - 2] == ws[|ws| - 1]
    ensures forall m :: 0 <= m < |ws| - 2 ==> IsInner(v, TextAt(raw, rest[m]))
  {
    assert rest[|ws| - 2] == ws[1..][|ws| - 2];
    forall m | 0 <= m < |ws| - 2
      ensures IsInner(v, TextAt(raw, rest[m]))
    {
      assert rest[m] == ws[1..][m] == ws[m + 1];
    }
  }

  lemma RowIfAnchored(v: Vocabulary, raw: string, w: (nat, nat), rest: seq<(nat, nat)>, end: nat, stop: nat)
    requires IsWordAt(raw, w, end) && IsReferenceWord(TextAt(raw, w), true)
    requires InARow(raw, w.1, rest, end) && |rest| <= 6 && AnchoredSomewhere(v, raw, rest, stop)
    ensures exists ws :: EndsAtSector(v, raw, w.0, end, ws, stop)
  {
    var k :| 0 <= k < |rest| && AnchoredAt(v, raw, rest, k, stop);
    RowOfWords(v, raw, w, rest, end, k, stop, [w] + rest[..k + 1]);
  }

  lemma AnchoredIfRow(v: Vocabulary, raw: string, w: (nat, nat), ws: seq<(nat, nat)>, end: nat, stop: nat)
    requires IsWordAt(raw, w, end) && EndsAtSector(v, raw, w.0, end, ws, stop)
    ensures AnchoredSomewhere(v, raw, WordsAfter(raw, w.1, end, MAX_REF_TOKENS - 1), stop)
  {
    SameWord(raw, w, ws[0], end);
    RowIsCollected(raw, w.1, ws[1..], end, MAX_REF_TOKENS - 1);
    WordsOfRow(v, raw, w.0, ws, WordsAfter(raw, w.1, end, MAX_REF_TOKENS - 1), end, stop);
  }

  /** The words of `EndsAtSector` are the first word and a front of those collected behind it, and no others are. */
  lemma RowExactly(v: Vocabulary, raw: string, w: (nat, nat), end: nat, stop: nat)
    requires IsWordAt(raw, w, end) && IsReferenceWord(TextAt(raw, w), true)
    ensures AnchoredSomewhere(v, raw, WordsAfter(raw, w.1, end, MAX_REF_TOKENS - 1), stop)
       <==> exists ws :: EndsAtSector(v, raw, w.0, end, ws, stop)
  {
    var rest := WordsAfter(raw, w.1, end, MAX_REF_TOKENS - 1);
    CollectedAreInARow(raw, w.1, end, MAX_REF_TOKENS - 1);
    if AnchoredSomewhere(v, raw, rest, stop) {
      RowIfAnchored(v, raw, w, rest, end, stop);
    }
    if ws :| EndsAtSector(v, raw, w.0, end, ws, stop) {
      AnchoredIfRow(v, raw, w, ws, end, stop);
    }
  }

  lemma SameWord(raw: string, w: (nat, nat), u: (nat, nat), end: nat)
    requires IsWordAt(raw, w, end) && IsWordAt(raw, u, end) && w.0 == u.0
    ensures w == u
  {
    RunIs(raw, w.0, w.1, end, InWord);
    RunIs(raw, u.0, u.1, end, InWord);
  }

  lemma {:induction false} FrontInARow(raw: string, from: nat, ws: seq<(nat, nat)>, end: nat, k: nat)
    requires InARow(raw, from, ws, end) && k <= |ws|
    ensures InARow(raw, from, ws[..k], end)
    decreases k
  {
    if k > 0 {
      FrontInARow(raw, ws[0].1, ws[1..], end, k - 1);
      assert ws[..k][1..] == ws[1..][..k - 1];
    }
  }

  // ---------------------------------------------------------------- the three rules

  /** `/scheme/value`: the longest run of what a value may hold. */
  predicate SchemeSpan(raw: string, from: nat, end: nat, stop: nat) {
    && from < stop <= end <= |raw| && raw[from] == '/' && (forall k :: from <= k < stop ==> IsSchemeValueChar(raw[k]))
    && (stop < end ==> !IsSchemeValueChar(raw[stop]))
  }

  predicate ByScheme(v: Vocabulary, raw: string, from: nat, end: nat, stop: nat, canonical: string) {
    && SchemeSpan(raw, from, end, stop) && v.isIdentifierToken(raw[from..stop])
    && ParsesAs(v, raw[from..stop], canonical)
  }

  ghost predicate BySector(v: Vocabulary, raw: string, from: nat, end: nat, stop: nat, canonical: string) {
    && from <= stop <= |raw| && ParsesAs(v, raw[from..stop], canonical)
    && exists ws :: EndsAtSector(v, raw, from, end, ws, stop)
  }

  /** Six to twenty-four letters and digits, up to the end, white space, a bracket, a comma or an operator. */
  predicate ByCheckDigit(v: Vocabulary, raw: string, from: nat, end: nat, stop: nat, canonical: string) {
    && from <= stop <= end <= |raw| && 6 <= stop - from <= 24
    && (forall k :: from <= k < stop ==> IsIdentifierChar(raw[k]))
    && (stop < end ==> IsSpace(raw[stop]) || raw[stop] in "(),+-*/")
    && v.parseSecurityRef(raw[from..stop]) == ParsedSecurity(canonical, true)
  }

  lemma SchemeExactly(v: Vocabulary, raw: string, from: nat, end: nat, stop: nat, canonical: string)
    requires from < end <= |raw| && raw[from] == '/'
    ensures Reference(v, raw, from, end) == Recognised(stop, canonical)
       <==> ByScheme(v, raw, from, end, stop, canonical)
    ensures Reference(v, raw, from, end) == Malformed(stop)
       <==> && SchemeSpan(raw, from, end, stop) && v.isIdentifierToken(raw[from..stop])
            && v.parseSecurityRef(raw[from..stop]) == NotASecurity
  {
    var wordEnd := WordEnd(raw, from, end);
    var last := RunEnd(raw, from, wordEnd, IsSchemeValueChar);
    assert SchemeSpan(raw, from, end, last);
    if SchemeSpan(raw, from, end, stop) {
      RunIs(raw, from, stop, end, IsSchemeValueChar);
      RunIs(raw, from, last, end, IsSchemeValueChar);
    }
  }

  lemma CheckDigitExactly(v: Vocabulary, raw: string, from: nat, wordEnd: nat, end: nat, stop: nat, canonical: string)
    requires IsWordAt(raw, (from, wordEnd), end)
    ensures BareReference(v, raw, from, wordEnd) == Recognised(stop, canonical)
       <==> ByCheckDigit(v, raw, from, end, stop, canonical)
  {
    var last := RunEnd(raw, from, wordEnd, IsIdentifierChar);
    assert forall c :: IsOperator(c) <==> c in "+-*/";
    assert forall c :: c in "(),+-*/" <==> IsStructural(c) || IsOperator(c);
    if ByCheckDigit(v, raw, from, end, stop, canonical) {
      assert forall k :: from <= k < stop ==> InWord(raw[k]);
      assert stop <= wordEnd;
      RunIs(raw, from, stop, wordEnd, IsIdentifierChar);
    }
  }

  lemma SectorExactly(v: Vocabulary, raw: string, from: nat, wordEnd: nat, end: nat, stop: nat, canonical: string)
    requires IsWordAt(raw, (from, wordEnd), end)
    ensures BySector(v, raw, from, end, stop, canonical) <==>
              && IsReferenceWord(raw[from..wordEnd], true)
              && AnchoredReference(v, raw, from, WordsAfter(raw, wordEnd, end, MAX_REF_TOKENS - 1))
                 == Recognised(stop, canonical)
  {
    var words := WordsAfter(raw, wordEnd, end, MAX_REF_TOKENS - 1);
    if ws :| EndsAtSector(v, raw, from, end, ws, stop) {
      SameWord(raw, (from, wordEnd), ws[0], end);
    }
    if IsReferenceWord(raw[from..wordEnd], true) {
      RowExactly(v, raw, (from, wordEnd), end, stop);
      if from <= stop <= |raw| {
        AnchoredExactly(v, raw, from, words, stop, canonical);
      }
    }
  }

  /**
   * A token is a security exactly by one of the three rules, a sector's reference before a bare identifier; its
   * name is what the span parses to and it ends where the rule says.
   */
  lemma SecurityExactly(v: Vocabulary, raw: string, from: nat, end: nat, stop: nat, canonical: string)
    requires from < end <= |raw|
    ensures LexemeAt(v, raw, from, end) == Lexeme(RefToken(canonical), None, from, stop) <==>
              || ByScheme(v, raw, from, end, stop, canonical)
              || BySector(v, raw, from, end, stop, canonical)
              || (ByCheckDigit(v, raw, from, end, stop, canonical)
                  && forall s, c :: !BySector(v, raw, from, end, s, c))
  {
    StartsWell(v, raw, from, end, stop, canonical);
    if IsRefStart(raw[from]) {
      if raw[from] == '/' {
        SchemeExactly(v, raw, from, end, stop, canonical);
        forall s, c ensures !BySector(v, raw, from, end, s, c) {
          StartsWell(v, raw, from, end, s, c);
        }
      } else {
        PlainExactly(v, raw, from, end, stop, canonical);
      }
    }
  }

  lemma StartsWell(v: Vocabulary, raw: string, from: nat, end: nat, stop: nat, canonical: string)
    requires from < end <= |raw|
    ensures ByScheme(v, raw, from, end, stop, canonical) ==> raw[from] == '/'
    ensures BySector(v, raw, from, end, stop, canonical) || ByCheckDigit(v, raw, from, end, stop, canonical)
        ==> IsRefStart(raw[from]) && raw[from] != '/'
  {
    if ws :| EndsAtSector(v, raw, from, end, ws, stop) {
      assert TextAt(raw, ws[0])[0] == raw[from];
    }
  }

  lemma PlainExactly(v: Vocabulary, raw: string, from: nat, end: nat, stop: nat, canonical: string)
    requires from < end <= |raw| && IsRefStart(raw[from]) && raw[from] != '/'
    ensures Reference(v, raw, from, end) == Recognised(stop, canonical) <==>
              || BySector(v, raw, from, end, stop, canonical)
              || (ByCheckDigit(v, raw, from, end, stop, canonical)
                  && forall s, c :: !BySector(v, raw, from, end, s, c))
  {
    var wordEnd := WordEnd(raw, from, end);
    assert IsWordAt(raw, (from, wordEnd), end);
    CheckDigitExactly(v, raw, from, wordEnd, end, stop, canonical);
    forall s, c
      ensures BySector(v, raw, from, end, s, c) <==>
                && IsReferenceWord(raw[from..wordEnd], true)
                && AnchoredReference(v, raw, from, WordsAfter(raw, wordEnd, end, MAX_REF_TOKENS - 1))
                   == Recognised(s, c)
    {
      SectorExactly(v, raw, from, wordEnd, end, s, c);
    }
  }

  /** Text whose scheme names nothing is the one malformed reference. */
  lemma MalformedExactly(v: Vocabulary, raw: string, from: nat, end: nat, stop: nat)
    requires from < end <= |raw|
    ensures LexemeAt(v, raw, from, end) == Lexeme(ErrorToken, Some(BadSecurityRef), from, stop) <==>
              && SchemeSpan(raw, from, end, stop) && v.isIdentifierToken(raw[from..stop])
              && v.parseSecurityRef(raw[from..stop]) == NotASecurity
  {
    if raw[from] == '/' {
      SchemeExactly(v, raw, from, end, stop, "");
    }
  }

  /** A reference that ends at a sector is the first token of the scan from there. */
  lemma RecognisedBySector(v: Vocabulary, raw: string, from: nat, end: nat, ws: seq<(nat, nat)>, stop: nat,
                           canonical: string)
    requires from < end <= |raw| && EndsAtSector(v, raw, from, end, ws, stop)
    requires from <= stop <= |raw| && ParsesAs(v, raw[from..stop], canonical)
    ensures from < stop <= end
    ensures Lex(v, raw, from, end) == [Lexeme(RefToken(canonical), None, from, stop)] + Lex(v, raw, stop, end)
  {
    assert BySector(v, raw, from, end, stop, canonical);
    SecurityExactly(v, raw, from, end, stop, canonical);
    StartsWell(v, raw, from, end, stop, canonical);
    LexFirst(v, raw, from, end);
  }

  lemma LexFirst(v: Vocabulary, raw: string, from: nat, end: nat)
    requires from < end <= |raw| && !IsSpace(raw[from])
    ensures var x := LexemeAt(v, raw, from, end); Lex(v, raw, from, end) == [x] + Lex(v, raw, x.end, end)
  {
  }

  /** With no sector before the eighth word, no reference ends at a sector. */
  lemma NotPastSevenWords(v: Vocabulary, raw: string, from: nat, end: nat, ws: seq<(nat, nat)>, stop: nat,
                          canonical: string)
    requires from < end <= |raw| && |ws| >= 7 && InARow(raw, from, ws, end) && ws[0].0 == from
    requires forall k :: 0 < k < 7 ==> !HoldsSector(v, TextAt(raw, ws[k]))
    ensures !BySector(v, raw, from, end, stop, canonical)
  {
    if us :| EndsAtSector(v, raw, from, end, us, stop) {
      LastHoldsSector(v, raw, from, end, us, stop);
      RowsAgree(raw, from, end, us, ws);
    }
  }

  lemma LastHoldsSector(v: Vocabulary, raw: string, from: nat, end: nat, ws: seq<(nat, nat)>, stop: nat)
    requires EndsAtSector(v, raw, from, end, ws, stop)
    ensures HoldsSector(v, TextAt(raw, ws[|ws| - 1]))
  {
    EndsIsHolds(v, TextAt(raw, ws[|ws| - 1]));
  }

  lemma RowsAgree(raw: string, from: nat, end: nat, us: seq<(nat, nat)>, ws: seq<(nat, nat)>)
    requires from <= end <= |raw| && InARow(raw, from, us, end) && InARow(raw, from, ws, end)
    requires 0 < |us| <= |ws|
    ensures us[|us| - 1] == ws[|us| - 1]
  {
    RowIsCollected(raw, from, ws, end, |ws|);
    RowIsCollected(raw, from, us, end, |ws|);
  }

  // ---------------------------------------------------------------- shapes of words and numbers

  /** `[i, j)` is between `least` and `most` digits. */
  predicate DigitsIn(text: string, i: nat, j: nat, least: nat, most: nat) {
    i + least <= j <= i + most && j <= |text| && forall k :: i <= k < j ==> '0' <= text[k] <= '9'
  }

  /** Month, day and year between slashes at `a` and `b`. */
  predicate DateShape(text: string, a: nat, b: nat) {
    && a < b < |text| && text[a] == '/' && text[b] == '/'
    && DigitsIn(text, 0, a, 1, 2) && DigitsIn(text, a + 1, b, 1, 2) && DigitsIn(text, b + 1, |text|, 2, 4)
  }

  lemma DateExactly(text: string)
    ensures IsDateWord(text) <==> exists a, b :: DateShape(text, a, b)
  {
    var a := RunEnd(text, 0, |text|, IsDigit);
    if a < |text| && IsDateWord(text) {
      assert DateShape(text, a, RunEnd(text, a + 1, |text|, IsDigit));
    }
    if a': nat, b': nat :| DateShape(text, a', b') {
      RunIs(text, 0, a', |text|, IsDigit);
      RunIs(text, a' + 1, b', |text|, IsDigit);
      RunIs(text, b' + 1, |text|, |text|, IsDigit);
    }
  }

  /** One to four letters, a slash and a letter. */
  predicate ShareClassShape(text: string, n: nat) {
    && 1 <= n <= 4 && |text| == n + 2 && text[n] == '/' && IsLetter(text[n + 1])
    && forall k :: 0 <= k < n ==> IsLetter(text[k])
  }

  /** The words of a reference: plain ones, dates, and in front only, share classes. */
  lemma ReferenceWordsAre(text: string, first: bool)
    ensures IsReferenceWord(text, first) <==>
              || (text != "" && text[0] !in ".-" && forall c :: c in text ==> IsPlainChar(c))
              || (exists a, b :: DateShape(text, a, b))
              || (first && exists n :: ShareClassShape(text, n))
  {
    DateExactly(text);
    if IsShareClassWord(text) {
      assert ShareClassShape(text, |text| - 2);
    }
    assert text != "" ==> text[0] in text;
  }

  /** Whole digits up to `a`, then a fraction, if there is one, up to `b`; one digit at least. */
  predicate Mantissa(raw: string, from: nat, a: nat, b: nat) {
    && from <= a <= b <= |raw| && DigitsIn(raw, from, a, 0, |raw|)
    && ((a == b && from < a)
        || (a < b && raw[a] == '.' && DigitsIn(raw, a + 1, b, 0, |raw|) && (from < a || a + 1 < b)))
  }

  /** Nothing, or a letter, a sign if there is one, and digits from `c`. */
  predicate Exponent(raw: string, b: nat, c: nat, j: nat) {
    || (b == j <= |raw|)
    || (b < |raw| && (raw[b] == 'e' || raw[b] == 'E') && DigitsIn(raw, c, j, 1, |raw|)
        && (c == b + 1 || (c == b + 2 && (raw[b + 1] == '+' || raw[b + 1] == '-'))))
  }

  ghost predicate Literal(raw: string, from: nat, j: nat) {
    exists a, b, c :: Mantissa(raw, from, a, b) && Exponent(raw, b, c, j)
  }

  function FractionEnd(raw: string, from: nat, end: nat): nat
    requires end <= |raw|
  {
    var whole := RunEnd(raw, from, end, IsDigit);
    if whole < end && raw[whole] == '.' then RunEnd(raw, whole + 1, end, IsDigit) else whole
  }

  lemma MantissaIsLongest(raw: string, from: nat, end: nat, a: nat, b: nat, c: nat, j: nat)
    requires from < end <= |raw| && Mantissa(raw, from, a, b) && Exponent(raw, b, c, j) && j <= end
    ensures j <= FractionEnd(raw, from, end) || b == FractionEnd(raw, from, end)
  {
    var whole := RunEnd(raw, from, end, IsDigit);
    assert a <= whole;
    if a == whole && a < b {
      assert b <= FractionEnd(raw, from, end);
    }
  }

  /** The scanner takes the longest literal there is. */
  lemma NumberIsLongest(raw: string, from: nat, end: nat)
    requires from < end <= |raw|
    requires IsDigit(raw[from]) || (raw[from] == '.' && from + 1 < end && IsDigit(raw[from + 1]))
    ensures Literal(raw, from, NumberEnd(raw, from, end))
    ensures forall j :: NumberEnd(raw, from, end) < j <= end ==> !Literal(raw, from, j)
  {
    var fraction := FractionEnd(raw, from, end);
    assert Mantissa(raw, from, RunEnd(raw, from, end, IsDigit), fraction);
    ExponentIsLongest(raw, fraction, end);
    forall j: nat | NumberEnd(raw, from, end) < j <= end
      ensures !Literal(raw, from, j)
    {
      if a: nat, b: nat, c: nat :| Mantissa(raw, from, a, b) && Exponent(raw, b, c, j) {
        MantissaIsLongest(raw, from, end, a, b, c, j);
      }
    }
  }

  lemma ExponentIsLongest(raw: string, b: nat, end: nat)
    requires b <= end <= |raw|
    ensures exists c :: Exponent(raw, b, c, ExponentEnd(raw, b, end))
    ensures forall j, c :: ExponentEnd(raw, b, end) < j <= end ==> !Exponent(raw, b, c, j)
  {
    if b < end && (raw[b] == 'e' || raw[b] == 'E') {
      var signed := if b + 1 < end && (raw[b + 1] == '+' || raw[b + 1] == '-') then b + 2 else b + 1;
      assert Exponent(raw, b, signed, ExponentEnd(raw, b, end));
    } else {
      assert ExponentEnd(raw, b, end) == b;
      assert Exponent(raw, b, b, b);
    }
  }

  /**
   * Where no reference starts: the longest literal, the longest word, or one character. A body ends the text, or
   * before white space or a bracket.
   */
  lemma OrdinaryExactly(v: Vocabulary, raw: string, from: nat, end: nat)
    requires from < end <= |raw| && (end < |raw| ==> !IsDigit(raw[end]))
    ensures var x := OrdinaryAt(v, raw, from, end);
            if Literal(raw, from, from + 1) || (raw[from] == '.' && Literal(raw, from, from + 2)) then
              && Literal(raw, from, x.end) && (forall j :: x.end < j <= end ==> !Literal(raw, from, j))
              && (match v.finiteNumber(raw[from..x.end])
                  case Some(value) => x.token == NumberToken(value) && x.problem == None
                  case None => x.token == ErrorToken && x.problem == Some(UnexpectedChar))
            else if raw[from] == '_' || IsLetter(raw[from]) then
              && (forall k :: from <= k < x.end ==> raw[k] == '_' || IsLetter(raw[k]) || IsDigit(raw[k]))
              && (x.end < end ==> raw[x.end] != '_' && !IsLetter(raw[x.end]) && !IsDigit(raw[x.end]))
              && x.token == WordToken(UpperCase(raw[from..x.end])) && x.problem == None
            else
              && x.end == from + 1 && (x.problem == None <==> raw[from] in "(),+-*/")
              && (x.token == ErrorToken <==> x.problem == Some(UnexpectedChar))
  {
    NumberStarts(raw, from);
    if IsDigit(raw[from]) || (raw[from] == '.' && from + 1 < end && IsDigit(raw[from + 1])) {
      NumberIsLongest(raw, from, end);
    }
  }

  lemma NumberStarts(raw: string, from: nat)
    requires from < |raw|
    ensures Literal(raw, from, from + 1) <==> IsDigit(raw[from])
    ensures raw[from] == '.' ==> (Literal(raw, from, from + 2) <==> from + 1 < |raw| && IsDigit(raw[from + 1]))
  {
    if IsDigit(raw[from]) {
      assert Mantissa(raw, from, from + 1, from + 1) && Exponent(raw, from + 1, from + 1, from + 1);
    }
    if raw[from] == '.' && from + 1 < |raw| && IsDigit(raw[from + 1]) {
      assert Mantissa(raw, from, from, from + 2) && Exponent(raw, from + 2, from + 2, from + 2);
    }
  }

  // ---------------------------------------------------------------- a call over two securities

  predicate AllLetters(text: string) {
    text != "" && forall k :: 0 <= k < |text| ==> IsLetter(text[k])
  }

  lemma LettersStand(raw: string, i: nat, text: string)
    requires LiesAt(raw, i, text) && AllLetters(text)
    ensures LettersIn(raw, i, i + |text|)
  {
    assert forall k :: i <= k < i + |text| ==> raw[k] == raw[i..i + |text|][k - i];
  }

  lemma CharStands(raw: string, i: nat, c: char)
    requires LiesAt(raw, i, [c])
    ensures i < |raw| && raw[i] == c
  {
    assert raw[i] == raw[i..i + 1][0];
  }

  /** A name of up to five letters before a bracket is a word, whatever securities there are. */
  lemma NameBeforeBracket(v: Vocabulary, raw: string, i: nat, j: nat, end: nat)
    requires LettersIn(raw, i, j) && j < i + 6 && j < end <= |raw| && raw[j] == '('
    ensures LexemeAt(v, raw, i, end) == Lexeme(WordToken(UpperCase(raw[i..j])), None, i, j)
  {
    RunIs(raw, i, j, end, InWord);
    RunIs(raw, i, j, j, IsIdentifierChar);
    RunIs(raw, j, j, end, IsSpace);
    assert WordsAfter(raw, j, end, MAX_REF_TOKENS - 1) == [];
    assert Reference(v, raw, i, end) == Declined;
    RunIs(raw, i, j, end, IsWordPart);
  }

  lemma LettersAreAWord(raw: string, i: nat, j: nat, end: nat)
    requires LettersIn(raw, i, j) && j <= end <= |raw| && (j < end ==> !InWord(raw[j]))
    ensures IsWordAt(raw, (i, j), end)
  {
  }

  lemma LettersNoOperator(v: Vocabulary, text: string)
    requires AllLetters(text)
    ensures HoldsSector(v, text) <==> v.isSectorToken(text)
    ensures IsPlainWord(text)
  {
    forall n | 0 <= n < |text|
      ensures !CutsAt(v, text, n)
    {
      assert IsLetter(text[n]);
    }
  }

  /** Three words whose last is a sector. */
  lemma ThreeWords(v: Vocabulary, raw: string, i: nat, end: nat, a: string, b: string, c: string, canonical: string)
    requires AllLetters(a) && AllLetters(b) && AllLetters(c)
    requires LiesAt(raw, i, a + " " + b + " " + c)
    requires i + |a| + |b| + |c| + 2 < end <= |raw| && IsStructural(raw[i + |a| + |b| + |c| + 2])
    requires v.isSectorToken(c) && !v.isSectorToken(b) && ParsesAs(v, a + " " + b + " " + c, canonical)
    ensures var stop := i + |a| + |b| + |c| + 2;
            Lex(v, raw, i, end) == [Lexeme(RefToken(canonical), None, i, stop)] + Lex(v, raw, stop, end)
  {
    var j, k, stop := i + |a|, i + |a| + 1 + |b|, i + |a| + |b| + |c| + 2;
    var ws := [(i, j), (j + 1, k), (k + 1, stop)];
    ThreeParts(raw, i, j, k, stop, a, b, c);
    ThreeInARow(raw, i, j, k, stop, end, ws);
    ThreeEnd(v, raw, i, end, ws, stop, a, b, c);
    RecognisedBySector(v, raw, i, end, ws, stop, canonical);
  }

  lemma ThreeParts(raw: string, i: nat, j: nat, k: nat, stop: nat, a: string, b: string, c: string)
    requires AllLetters(a) && AllLetters(b) && AllLetters(c) && LiesAt(raw, i, a + " " + b + " " + c)
    requires j == i + |a| && k == j + 1 + |b| && stop == k + 1 + |c|
    ensures LettersIn(raw, i, j) && LettersIn(raw, j + 1, k) && LettersIn(raw, k + 1, stop)
    ensures raw[j] == raw[k] == ' ' && raw[i..stop] == a + " " + b + " " + c
    ensures raw[i..j] == a && raw[j + 1..k] == b && raw[k + 1..stop] == c
  {
    LiesApart(raw, i, a + " " + b + " ", c);
    LiesApart(raw, i, a + " " + b, " ");
    LiesApart(raw, i, a + " ", b);
    LiesApart(raw, i, a, " ");
    CharStands(raw, j, ' ');
    CharStands(raw, k, ' ');
    LettersStand(raw, i, a);
    LettersStand(raw, j + 1, b);
    LettersStand(raw, k + 1, c);
  }

  lemma ThreeEnd(v: Vocabulary, raw: string, i: nat, end: nat, ws: seq<(nat, nat)>, stop: nat, a: string, b: string,
                 c: string)
    requires AllLetters(a) && AllLetters(b) && AllLetters(c) && v.isSectorToken(c) && !v.isSectorToken(b)
    requires |ws| == 3 && InARow(raw, i, ws, end) && ws[0].0 == i && ws[2].1 == stop
    requires TextAt(raw, ws[0]) == a && TextAt(raw, ws[1]) == b && TextAt(raw, ws[2]) == c
    ensures EndsAtSector(v, raw, i, end, ws, stop)
  {
    LettersNoOperator(v, a);
    LettersNoOperator(v, b);
    LettersNoOperator(v, c);
  }

  lemma ThreeInARow(raw: string, i: nat, j: nat, k: nat, stop: nat, end: nat, ws: seq<(nat, nat)>)
    requires LettersIn(raw, i, j) && LettersIn(raw, j + 1, k) && LettersIn(raw, k + 1, stop) && stop < end <= |raw|
    requires raw[j] == raw[k] == ' ' && IsStructural(raw[stop])
    requires ws == [(i, j), (j + 1, k), (k + 1, stop)]
    ensures InARow(raw, i, ws, end)
  {
    LettersAreAWord(raw, i, j, end);
    TwoInARow(raw, j, j + 1, k, stop, end, ws[1..]);
  }

  lemma TwoInARow(raw: string, from: nat, i: nat, j: nat, stop: nat, end: nat, ws: seq<(nat, nat)>)
    requires LettersIn(raw, i, j) && LettersIn(raw, j + 1, stop) && stop < end <= |raw|
    requires IsBlank(raw, from, i) && raw[j] == ' ' && IsStructural(raw[stop]) && ws == [(i, j), (j + 1, stop)]
    ensures InARow(raw, from, ws, end)
  {
    LettersAreAWord(raw, i, j, end);
    LettersAreAWord(raw, j + 1, stop, end);
    var last := ws[1..];
    assert last == [(j + 1, stop)] && last[1..] == [];
    assert InARow(raw, j, last, end);
  }

  lemma TwoWords(v: Vocabulary, raw: string, i: nat, end: nat, a: string, b: string, canonical: string)
    requires AllLetters(a) && AllLetters(b) && LiesAt(raw, i, a + " " + b)
    requires i + |a| + |b| + 1 < end <= |raw| && IsStructural(raw[i + |a| + |b| + 1])
    requires v.isSectorToken(b) && ParsesAs(v, a + " " + b, canonical)
    ensures var stop := i + |a| + |b| + 1;
            Lex(v, raw, i, end) == [Lexeme(RefToken(canonical), None, i, stop)] + Lex(v, raw, stop, end)
  {
    var j, stop := i + |a|, i + |a| + |b| + 1;
    LiesApart(raw, i, a + " ", b);
    LiesApart(raw, i, a, " ");
    CharStands(raw, j, ' ');
    LettersStand(raw, i, a);
    LettersStand(raw, j + 1, b);
    var ws := [(i, j), (j + 1, stop)];
    TwoInARow(raw, i, i, j, stop, end, ws);
    LettersNoOperator(v, a);
    assert TextAt(raw, ws[0]) == a && TextAt(raw, ws[1]) == b;
    assert EndsAtSector(v, raw, i, end, ws, stop);
    RecognisedBySector(v, raw, i, end, ws, stop, canonical);
  }

  /** Where the parts of a call lie. */
  lemma CallParts(raw: string, n: string, x: string, y: string)
    requires raw == n + "(" + x + ", " + y + ")"
    ensures |raw| == |n| + |x| + |y| + 4 && LiesAt(raw, 0, n) && raw[|n|] == '(' && LiesAt(raw, |n| + 1, x)
    ensures raw[|n| + 1 + |x|] == ',' && raw[|n| + 2 + |x|] == ' ' && LiesAt(raw, |n| + 3 + |x|, y)
    ensures raw[|raw| - 1] == ')'
  {
    assert LiesAt(raw, 0, raw);
    LiesApart(raw, 0, n + "(" + x + ", " + y, ")");
    LiesApart(raw, 0, n + "(" + x + ", ", y);
    LiesApart(raw, 0, n + "(" + x, ", ");
    LiesApart(raw, |n| + 1 + |x|, ",", " ");
    LiesApart(raw, 0, n + "(", x);
    LiesApart(raw, 0, n, "(");
    CharStands(raw, |n|, '(');
    CharStands(raw, |n| + 1 + |x|, ',');
    CharStands(raw, |n| + 2 + |x|, ' ');
    CharStands(raw, |raw| - 1, ')');
  }

  lemma TokensCons(x: Lexeme, xs: seq<Lexeme>)
    ensures TokensOf([x] + xs) == [x.token] + TokensOf(xs)
  {
  }

  lemma LastBracket(v: Vocabulary, raw: string, i: nat)
    requires |raw| == i + 1 && raw[i] == ')'
    ensures TokensOf(Lex(v, raw, i, |raw|)) == [RParen]
  {
    LexFirst(v, raw, i, |raw|);
    TokensCons(LexemeAt(v, raw, i, |raw|), []);
  }

  lemma FromSecond(v: Vocabulary, raw: string, i: nat, d: string, e: string, second: string)
    requires AllLetters(d) && AllLetters(e) && LiesAt(raw, i, d + " " + e)
    requires |raw| == i + |d| + |e| + 2 && raw[|raw| - 1] == ')'
    requires v.isSectorToken(e) && ParsesAs(v, d + " " + e, second)
    ensures TokensOf(Lex(v, raw, i, |raw|)) == [RefToken(second), RParen]
  {
    TwoWords(v, raw, i, |raw|, d, e, second);
    LastBracket(v, raw, |raw| - 1);
    TokensCons(Lexeme(RefToken(second), None, i, |raw| - 1), Lex(v, raw, |raw| - 1, |raw|));
  }

  lemma FromComma(v: Vocabulary, raw: string, i: nat, tokens: seq<Token>)
    requires i + 2 < |raw| && raw[i] == ',' && raw[i + 1] == ' ' && TokensOf(Lex(v, raw, i + 2, |raw|)) == tokens
    ensures TokensOf(Lex(v, raw, i, |raw|)) == [Comma] + tokens
  {
    LexFirst(v, raw, i, |raw|);
    assert Lex(v, raw, i + 1, |raw|) == Lex(v, raw, i + 2, |raw|);
    TokensCons(LexemeAt(v, raw, i, |raw|), Lex(v, raw, i + 2, |raw|));
  }

  lemma FromFirst(v: Vocabulary, raw: string, i: nat, a: string, b: string, c: string, first: string, stop: nat,
                  tokens: seq<Token>)
    requires AllLetters(a) && AllLetters(b) && AllLetters(c) && LiesAt(raw, i, a + " " + b + " " + c)
    requires stop == i + |a| + |b| + |c| + 2 < |raw| && raw[stop] == ','
    requires v.isSectorToken(c) && !v.isSectorToken(b) && ParsesAs(v, a + " " + b + " " + c, first)
    requires TokensOf(Lex(v, raw, stop, |raw|)) == tokens
    ensures TokensOf(Lex(v, raw, i, |raw|)) == [RefToken(first)] + tokens
  {
    ThreeWords(v, raw, i, |raw|, a, b, c, first);
    TokensCons(Lexeme(RefToken(first), None, i, stop), Lex(v, raw, stop, |raw|));
  }

  lemma FromBracket(v: Vocabulary, raw: string, i: nat, tokens: seq<Token>)
    requires i < |raw| && raw[i] == '(' && TokensOf(Lex(v, raw, i + 1, |raw|)) == tokens
    ensures TokensOf(Lex(v, raw, i, |raw|)) == [LParen] + tokens
  {
    LexFirst(v, raw, i, |raw|);
    TokensCons(LexemeAt(v, raw, i, |raw|), Lex(v, raw, i + 1, |raw|));
  }

  lemma FromName(v: Vocabulary, raw: string, n: string, tokens: seq<Token>)
    requires AllLetters(n) && |n| < 6 && LiesAt(raw, 0, n) && |n| < |raw| && raw[|n|] == '('
    requires TokensOf(Lex(v, raw, |n|, |raw|)) == tokens
    ensures TokensOf(Lex(v, raw, 0, |raw|)) == [WordToken(UpperCase(n))] + tokens
  {
    LettersStand(raw, 0, n);
    NameBeforeBracket(v, raw, 0, |n|, |raw|);
    LexFirst(v, raw, 0, |raw|);
    TokensCons(LexemeAt(v, raw, 0, |raw|), Lex(v, raw, |n|, |raw|));
  }

  /** The tokens from the comma on, and from the first security on. */
  lemma CommaOnwards(v: Vocabulary, raw: string, i: nat, d: string, e: string, second: string)
    requires AllLetters(d) && AllLetters(e) && |raw| == i + |d| + |e| + 4
    requires raw[i] == ',' && raw[i + 1] == ' ' && LiesAt(raw, i + 2, d + " " + e) && raw[|raw| - 1] == ')'
    requires v.isSectorToken(e) && ParsesAs(v, d + " " + e, second)
    ensures TokensOf(Lex(v, raw, i, |raw|)) == [Comma, RefToken(second), RParen]
  {
    FromSecond(v, raw, i + 2, d, e, second);
    FromComma(v, raw, i, [RefToken(second), RParen]);
  }

  lemma FirstOnwards(v: Vocabulary, raw: string, i: nat, a: string, b: string, c: string, d: string, e: string,
                     first: string, second: string, j: nat)
    requires AllLetters(a) && AllLetters(b) && AllLetters(c) && AllLetters(d) && AllLetters(e)
    requires LiesAt(raw, i, a + " " + b + " " + c) && j == i + |a| + |b| + |c| + 2 && |raw| == j + |d| + |e| + 4
    requires raw[j] == ',' && raw[j + 1] == ' ' && LiesAt(raw, j + 2, d + " " + e) && raw[|raw| - 1] == ')'
    requires v.isSectorToken(c) && v.isSectorToken(e) && !v.isSectorToken(b)
    requires ParsesAs(v, a + " " + b + " " + c, first) && ParsesAs(v, d + " " + e, second)
    ensures TokensOf(Lex(v, raw, i, |raw|)) == [RefToken(first), Comma, RefToken(second), RParen]
  {
    CommaOnwards(v, raw, j, d, e, second);
    FromFirst(v, raw, i, a, b, c, first, j, [Comma, RefToken(second), RParen]);
  }

  /** A call of two securities, `a b c` and `d e`, whose sectors are `c` and `e`. */
  lemma CallOfTwo(v: Vocabulary, raw: string, n: string, a: string, b: string, c: string, d: string, e: string,
                  first: string, second: string)
    requires AllLetters(n) && |n| < 6 && AllLetters(a) && AllLetters(b) && AllLetters(c)
    requires AllLetters(d) && AllLetters(e)
    requires raw == n + "(" + (a + " " + b + " " + c) + ", " + (d + " " + e) + ")"
    requires v.isSectorToken(c) && v.isSectorToken(e) && !v.isSectorToken(b)
    requires ParsesAs(v, a + " " + b + " " + c, first) && ParsesAs(v, d + " " + e, second)
    ensures TokensOf(Lex(v, raw, 0, |raw|))
         == [WordToken(UpperCase(n)), LParen, RefToken(first), Comma, RefToken(second), RParen]
  {
    var x, y := a + " " + b + " " + c, d + " " + e;
    CallParts(raw, n, x, y);
    FirstOnwards(v, raw, |n| + 1, a, b, c, d, e, first, second, |n| + 1 + |x|);
    CallOnwards(v, raw, n, [RefToken(first), Comma, RefToken(second), RParen]);
  }

  lemma CallOnwards(v: Vocabulary, raw: string, n: string, tokens: seq<Token>)
    requires AllLetters(n) && |n| < 6 && LiesAt(raw, 0, n) && |n| < |raw| && raw[|n|] == '('
    requires TokensOf(Lex(v, raw, |n| + 1, |raw|)) == tokens
    ensures TokensOf(Lex(v, raw, 0, |raw|)) == [WordToken(UpperCase(n)), LParen] + tokens
  {
    FromBracket(v, raw, |n|, tokens);
    FromName(v, raw, n, [LParen] + tokens);
  }

  /** The source's own acceptance row, its name in any case. */
  lemma RatioOfSecurities(v: Vocabulary, raw: string, name: string, first: string, second: string)
    requires name == "ratio" && first == "AAPL" + " " + "US" + " " + "Equity" && second == "SPX" + " " + "Index"
    requires raw == name + "(" + first + ", " + second + ")"
    requires v.isSectorToken("Equity") && v.isSectorToken("Index") && !v.isSectorToken("US")
    requires ParsesAs(v, first, first) && ParsesAs(v, second, second)
    ensures TokensOf(Lex(v, raw, 0, |raw|))
         == [WordToken("RATIO"), LParen, RefToken(first), Comma, RefToken(second), RParen]
  {
    RatioInCapitals(name);
    CallOfTwo(v, raw, name, "AAPL", "US", "Equity", "SPX", "Index", first, second);
  }

  lemma RatioInCapitals(name: string)
    requires name == "ratio"
    ensures UpperCase(name) == "RATIO"
  {
    assert Upper('r') == 'R' && Upper('a') == 'A' && Upper('t') == 'T' && Upper('i') == 'I' && Upper('o') == 'O';
  }
}
