/** Re-quoting and re-lexing: which token lists survive the round trip, exactly, and formula bodies. */
module CommandRoundTrip {
  import opened Util
  import opened CommandTokenizer

  // ---------------------------------------------------------------- scans of a suffix

  function Shift(n: nat, r: Option<nat>): Option<nat> {
    match r case None => None case Some(k) => Some(n + k)
  }

  lemma {:induction false} ShiftBalanced(p: string, s: string, i: nat, angles: seq<nat>, parens: nat)
    requires i <= |s|
    ensures BalancedFrom(p + s, |p| + i, angles, parens) == Shift(|p|, BalancedFrom(s, i, angles, parens))
    decreases |s| - i
  {
    if i < |s| {
      assert (p + s)[|p| + i] == s[i];
      if s[i] == '<' {
        ShiftBalanced(p, s, i + 1, angles + [parens], parens);
      } else if s[i] == '(' {
        ShiftBalanced(p, s, i + 1, angles, parens + 1);
      } else if s[i] == ')' {
        ShiftBalanced(p, s, i + 1, angles, if parens > 0 then parens - 1 else 0);
      } else if s[i] == '>' && angles != [] && angles[|angles| - 1] == parens {
        if |angles| > 1 { ShiftBalanced(p, s, i + 1, angles[..|angles| - 1], parens); }
      } else {
        ShiftBalanced(p, s, i + 1, angles, parens);
      }
    }
  }

  lemma {:induction false} ShiftFlat(p: string, s: string, i: nat, depth: int)
    requires i <= |s|
    ensures FlatFrom(p + s, |p| + i, depth) == Shift(|p|, FlatFrom(s, i, depth))
    decreases |s| - i
  {
    if i < |s| {
      assert (p + s)[|p| + i] == s[i];
      ShiftFlat(p, s, i + 1, if s[i] == '<' then depth + 1 else if s[i] == '>' then depth - 1 else depth);
    }
  }

  lemma {:induction false} ShiftParens(p: string, s: string, i: nat, depth: int)
    requires i <= |s|
    ensures ParensFrom(p + s, |p| + i, depth) == Shift(|p|, ParensFrom(s, i, depth))
    decreases |s| - i
  {
    if i < |s| {
      assert (p + s)[|p| + i] == s[i];
      ShiftParens(p, s, i + 1, if s[i] == '(' then depth + 1 else if s[i] == ')' then depth - 1 else depth);
    }
  }

  lemma {:induction false} ShiftLetters(p: string, s: string, i: nat)
    requires i <= |s|
    ensures LettersEnd(p + s, |p| + i) == |p| + LettersEnd(s, i)
    decreases |s| - i
  {
    if i < |s| {
      assert (p + s)[|p| + i] == s[i];
      if IsLetter(s[i]) { ShiftLetters(p, s, i + 1); }
    }
  }

  lemma {:induction false} ShiftOrdinary(p: string, s: string, i: nat, inQuote: bool)
    requires i <= |s|
    ensures OrdinaryFrom(p + s, |p| + i, inQuote)
         == (OrdinaryFrom(s, i, inQuote).0, |p| + OrdinaryFrom(s, i, inQuote).1)
    decreases |s| - i
  {
    if i < |s| {
      assert (p + s)[|p| + i] == s[i];
      if s[i] == QUOTE {
        ShiftOrdinary(p, s, i + 1, !inQuote);
      } else if inQuote || !IsSpace(s[i]) {
        ShiftOrdinary(p, s, i + 1, inQuote);
      }
    }
  }

  lemma ShiftFormulaEnd(p: string, s: string, i: nat)
    requires i < |s|
    ensures FormulaEnd(p + s, |p| + i) == Shift(|p|, FormulaEnd(s, i))
  {
    assert (p + s)[|p| + i] == s[i];
    ShiftBalanced(p, s, i, [], 0);
    ShiftFlat(p, s, i, 0);
    ShiftBare(p, s, i);
  }

  lemma ShiftBare(p: string, s: string, i: nat)
    requires i < |s|
    ensures BareEnd(p + s, |p| + i) == Shift(|p|, BareEnd(s, i))
  {
    ShiftLetters(p, s, i);
    var h := LettersEnd(s, i);
    if h < |s| {
      assert (p + s)[|p| + h] == s[h];
      ShiftParens(p, s, h, 0);
    }
  }

  /** A lexeme does not see what lies before it. */
  lemma ShiftLexeme(p: string, s: string, i: nat)
    requires i < |s| && !IsSpace(s[i])
    ensures (p + s)[|p| + i] == s[i]
    ensures LexemeAt(p + s, |p| + i).text == LexemeAt(s, i).text
    ensures LexemeAt(p + s, |p| + i).end == |p| + LexemeAt(s, i).end
  {
    assert (p + s)[|p| + i] == s[i];
    ShiftFormulaEnd(p, s, i);
    match FormulaEnd(s, i)
    case Some(e) => assert (p + s)[|p| + i..|p| + e] == s[i..e];
    case None => ShiftOrdinary(p, s, i, false);
  }

  lemma TextsCons(t: Token, rest: seq<Token>)
    ensures Texts([t] + rest) == [t.text] + Texts(rest)
  {
  }

  lemma LexSteps(raw: string, i: nat)
    requires i < |raw|
    ensures IsSpace(raw[i]) ==> Texts(Lex(raw, i)) == Texts(Lex(raw, i + 1))
    ensures !IsSpace(raw[i]) ==> Texts(Lex(raw, i)) == [LexemeAt(raw, i).text] + Texts(Lex(raw, LexemeAt(raw, i).end))
  {
    if !IsSpace(raw[i]) {
      TextsCons(LexemeAt(raw, i), Lex(raw, LexemeAt(raw, i).end));
    }
  }

  lemma SameTexts(a: string, i: nat, x: Token, b: string, j: nat, y: Token)
    requires i < |a| && !IsSpace(a[i]) && LexemeAt(a, i) == x
    requires j < |b| && !IsSpace(b[j]) && LexemeAt(b, j) == y
    requires x.text == y.text && Texts(Lex(a, x.end)) == Texts(Lex(b, y.end))
    ensures Texts(Lex(a, i)) == Texts(Lex(b, j))
  {
    LexSteps(a, i);
    LexSteps(b, j);
  }

  lemma ShiftToken(p: string, s: string, i: nat, x: Token)
    requires i < |s| && !IsSpace(s[i]) && x == LexemeAt(s, i)
    requires Texts(Lex(p + s, |p| + x.end)) == Texts(Lex(s, x.end))
    ensures Texts(Lex(p + s, |p| + i)) == Texts(Lex(s, i))
  {
    ShiftLexeme(p, s, i);
    SameTexts(p + s, |p| + i, LexemeAt(p + s, |p| + i), s, i, x);
  }

  lemma {:induction false} ShiftLex(p: string, s: string, i: nat)
    requires i <= |s|
    ensures Texts(Lex(p + s, |p| + i)) == Texts(Lex(s, i))
    decreases |s| - i
  {
    if i < |s| {
      if IsSpace(s[i]) {
        ShiftLex(p, s, i + 1);
        assert (p + s)[|p| + i] == s[i];
      } else {
        ShiftLex(p, s, LexemeAt(s, i).end);
        ShiftToken(p, s, i, LexemeAt(s, i));
      }
    }
  }

  // ---------------------------------------------------------------- scans are stable under appending

  lemma {:induction false} StableBalanced(raw: string, s: string, i: nat, angles: seq<nat>, parens: nat)
    requires i <= |raw| && BalancedFrom(raw, i, angles, parens).Some?
    ensures BalancedFrom(raw + s, i, angles, parens) == BalancedFrom(raw, i, angles, parens)
    decreases |raw| - i
  {
    assert (raw + s)[i] == raw[i];
    if raw[i] == '<' {
      StableBalanced(raw, s, i + 1, angles + [parens], parens);
    } else if raw[i] == '(' {
      StableBalanced(raw, s, i + 1, angles, parens + 1);
    } else if raw[i] == ')' {
      StableBalanced(raw, s, i + 1, angles, if parens > 0 then parens - 1 else 0);
    } else if raw[i] == '>' && angles != [] && angles[|angles| - 1] == parens {
      if |angles| > 1 { StableBalanced(raw, s, i + 1, angles[..|angles| - 1], parens); }
    } else {
      StableBalanced(raw, s, i + 1, angles, parens);
    }
  }

  lemma {:induction false} StableParens(raw: string, s: string, i: nat, depth: int)
    requires i <= |raw| && ParensFrom(raw, i, depth).Some?
    ensures ParensFrom(raw + s, i, depth) == ParensFrom(raw, i, depth)
    decreases |raw| - i
  {
    assert (raw + s)[i] == raw[i];
    if !(raw[i] == ')' && depth - 1 == 0) {
      StableParens(raw, s, i + 1, if raw[i] == '(' then depth + 1 else if raw[i] == ')' then depth - 1 else depth);
    }
  }

  lemma {:induction false} StableLetters(raw: string, s: string, i: nat)
    requires i <= |raw| && (s == "" || !IsLetter(s[0]))
    ensures LettersEnd(raw + s, i) == LettersEnd(raw, i)
    decreases |raw| - i
  {
    if i < |raw| {
      assert (raw + s)[i] == raw[i];
      if IsLetter(raw[i]) { StableLetters(raw, s, i + 1); }
    } else if s != "" {
      assert (raw + s)[i] == s[0];
    }
  }

  /** What may follow a token on the line: nothing, or a space. */
  predicate Separated(s: string) {
    s == "" || s[0] == ' '
  }

  lemma StableHead(raw: string, s: string)
    requires raw != "" && Separated(s)
    ensures HasHead(raw + s, 0) == HasHead(raw, 0) && LettersEnd(raw + s, 0) == LettersEnd(raw, 0)
  {
    StableLetters(raw, s, 0);
    var h := LettersEnd(raw, 0);
    if h < |raw| {
      assert (raw + s)[h] == raw[h];
    } else if h < |raw + s| {
      assert (raw + s)[h] == s[0];
    }
  }

  // ---------------------------------------------------------------- safe tokens

  /** Whole under the parenthesis-aware angle scan, or a balanced bare formula. */
  predicate Closed(text: string) {
    text != "" && (if text[0] == '<' then BalancedFrom(text, 0, [], 0) else BareEnd(text, 0)) == Some(|text|)
  }

  predicate OpensFormula(text: string) {
    text != "" && (text[0] == '<' || HasHead(text, 0))
  }

  /** `KEY=value`: there is an `=`, and before the first one a key with no space in it. */
  predicate KeyedForm(text: string) {
    var eq := IndexOf(text, '=');
    eq.Some? && eq.value > 0 && !Spaced(text[..eq.value])
  }

  /** The formula the text opens with closes before the end of the text. */
  predicate ClosesEarly(text: string) {
    text != "" && FormulaEnd(text, 0).Some? && FormulaEnd(text, 0).value < |text|
  }

  /** The guards under which a text without quotes is quoted from its first character. */
  predicate QuotedWhole(text: string) {
    !IsFormulaToken(text) && (Spaced(text) || ClosesEarly(text)) && !KeyedForm(text)
  }

  /**
   * The texts that survive next to anything: closed formulas, and quote-free texts that either do not
   * begin like a formula or are quoted from their first character.
   */
  predicate Safe(text: string) {
    Closed(text) || (QUOTE !in text && (!OpensFormula(text) || QuotedWhole(text)))
  }

  /** Which texts without spaces the lexer gives back as they stand. */
  lemma RelexesExactly(t: string)
    requires t != "" && !Spaced(t)
    ensures Relexes(t) <==> FormulaEnd(t, 0) == Some(|t|) || (FormulaEnd(t, 0) == None && QUOTE !in t)
  {
    var x := LexemeAt(t, 0);
    assert Lex(t, 0) == [x] + Lex(t, x.end);
    match FormulaEnd(t, 0)
    case Some(e) => assert t[0..e] == t <==> e == |t|;
    case None =>
      if QUOTE !in t {
        PlainOrdinary(t, "");
        assert t + "" == t;
      }
  }

  /** The guards decide what the re-quoter does. */
  lemma QuotedWholeExactly(t: string)
    requires t != "" && QUOTE !in t
    ensures QuotedWhole(t) <==> QuoteToken(t)[0] == QUOTE
  {
    if !Spaced(t) {
      RelexesExactly(t);
    }
    if KeyedForm(t) {
      assert t[..IndexOf(t, '=').value + 1][0] == t[0];
    }
  }

  lemma {:induction false} OrdinaryRun(raw: string, i: nat, j: nat, inQuote: bool)
    requires i <= j <= |raw|
    requires forall k :: i <= k < j ==> raw[k] != QUOTE && (inQuote || !IsSpace(raw[k]))
    ensures OrdinaryFrom(raw, i, inQuote)
         == (raw[i..j] + OrdinaryFrom(raw, j, inQuote).0, OrdinaryFrom(raw, j, inQuote).1)
    decreases j - i
  {
    if i < j {
      OrdinaryRun(raw, i + 1, j, inQuote);
      var tail := OrdinaryFrom(raw, j, inQuote).0;
      assert raw[i..j] == [raw[i]] + raw[i + 1..j];
      assert [raw[i]] + (raw[i + 1..j] + tail) == raw[i..j] + tail;
    } else {
      var tail := OrdinaryFrom(raw, j, inQuote).0;
      assert raw[i..j] + tail == tail;
    }
  }

  /** An unquoted text without quotes or spaces is taken whole. */
  lemma PlainOrdinary(t: string, s: string)
    requires QUOTE !in t && !Spaced(t) && Separated(s)
    ensures OrdinaryFrom(t + s, 0, false) == (t, |t|)
  {
    var raw := t + s;
    assert forall k :: 0 <= k < |t| ==> raw[k] == t[k];
    OrdinaryRun(raw, 0, |t|, false);
    assert raw[0..|t|] == t;
    if s != "" { assert raw[|t|] == ' '; }
    assert t + "" == t;
  }

  /** `a"b"`, with `a` empty for a text quoted whole, is taken as `ab`. */
  lemma QuotedOrdinary(a: string, b: string, s: string, raw: string)
    requires QUOTE !in a && !Spaced(a) && QUOTE !in b && Separated(s)
    requires raw == a + [QUOTE] + b + [QUOTE] + s
    ensures OrdinaryFrom(raw, 0, false) == (a + b, |a| + |b| + 2)
  {
    QuotedShape(a, b, s);
    QuotedOrdinaryAt(raw, |a|, |a| + 1 + |b|, a, b, s);
  }

  /** Where the parts of `a"b"s` stand. */
  lemma QuotedShape(a: string, b: string, s: string)
    ensures var raw := a + [QUOTE] + b + [QUOTE] + s;
            var n, m := |a|, |a| + 1 + |b|;
            && n < m < |raw|
            && raw[..n] == a && raw[n] == QUOTE && raw[n + 1..m] == b && raw[m] == QUOTE && raw[m + 1..] == s
  {
    var front, rest := a + [QUOTE], b + [QUOTE] + s;
    assert a + [QUOTE] + b + [QUOTE] + s == front + rest;
    assert front[..|a|] == a && front[|a|] == QUOTE;
    TailShape(b, s);
    SlicesOf(front, rest, |b|);
  }

  lemma TailShape(b: string, s: string)
    ensures var rest := b + [QUOTE] + s; rest[..|b|] == b && rest[|b|] == QUOTE && rest[|b| + 1..] == s
  {
  }

  lemma SlicesOf(front: string, rest: string, k: nat)
    requires 0 < |front| && k < |rest|
    ensures var raw, n := front + rest, |front|;
            && raw[..n - 1] == front[..n - 1] && raw[n - 1] == front[n - 1]
            && raw[n..n + k] == rest[..k] && raw[n + k] == rest[k] && raw[n + k + 1..] == rest[k + 1..]
  {
  }

  lemma QuotedOrdinaryAt(raw: string, n: nat, m: nat, a: string, b: string, s: string)
    requires n < m < |raw| && raw[n] == QUOTE && raw[m] == QUOTE
    requires raw[..n] == a && raw[n + 1..m] == b && raw[m + 1..] == s
    requires QUOTE !in a && !Spaced(a) && QUOTE !in b && Separated(s)
    ensures OrdinaryFrom(raw, 0, false) == (a + b, m + 1)
  {
    OrdinaryStops(raw, m + 1, s);
    QuotedTail(raw, n + 1, m, b);
    assert OrdinaryFrom(raw, n, false) == OrdinaryFrom(raw, n + 1, true);
    assert forall k :: 0 <= k < n ==> raw[k] == a[k];
    OrdinaryRun(raw, 0, n, false);
    assert raw[0..n] == raw[..n];
  }

  lemma OrdinaryStops(raw: string, i: nat, s: string)
    requires i <= |raw| && raw[i..] == s && Separated(s)
    ensures OrdinaryFrom(raw, i, false) == ("", i)
  {
    if s != "" { assert raw[i] == s[0]; }
  }

  lemma QuotedTail(raw: string, i: nat, m: nat, b: string)
    requires i <= m < |raw| && raw[i..m] == b && raw[m] == QUOTE && QUOTE !in b
    requires OrdinaryFrom(raw, m + 1, false) == ("", m + 1)
    ensures OrdinaryFrom(raw, i, true) == (b, m + 1)
  {
    assert forall k :: i <= k < m ==> raw[k] == b[k - i];
    OrdinaryRun(raw, i, m, true);
    assert b + "" == b;
  }

  /** How a text is re-quoted: as it stands, from the first `=` on, or whole. */
  datatype Quoting = Bare | Keyed(eq: nat) | Whole

  predicate QuotedAs(t: string, how: Quoting) {
    match how
    case Bare => QuoteToken(t) == t
    case Keyed(eq) =>
      && eq < |t| && t[eq] == '=' && eq > 0 && !Spaced(t[..eq])
      && QuoteToken(t) == t[..eq + 1] + [QUOTE] + t[eq + 1..] + [QUOTE]
    case Whole => QuoteToken(t) == [QUOTE] + t + [QUOTE]
  }

  lemma HowQuoted(t: string) returns (how: Quoting)
    ensures QuotedAs(t, how)
    ensures how == Bare ==> IsFormulaToken(t) || (!Spaced(t) && Relexes(t) && t != "")
    ensures how != Bare && t != "" ==> !IsFormulaToken(t)
  {
    if t == "" {
      how := Whole;
      assert [QUOTE] + t + [QUOTE] == [QUOTE, QUOTE];
    } else if IsFormulaToken(t) || (!Spaced(t) && Relexes(t)) {
      how := Bare;
    } else {
      match IndexOf(t, '=')
      case None => how := Whole;
      case Some(eq) => how := if eq > 0 && !Spaced(t[..eq]) then Keyed(eq) else Whole;
    }
  }

  lemma BareIsLong(t: string)
    ensures BareEnd(t, 0) == Some(|t|) ==> |t| >= 3
  {
    if HasHead(t, 0) {
      var h := LettersEnd(t, 0);
      assert ParensFrom(t, h, 0) == ParensFrom(t, h + 1, 1);
    }
  }

  /** A closed text is spelled as it stands. */
  lemma ClosedIsBare(t: string)
    requires Closed(t)
    ensures QuoteToken(t) == t
  {
    if t[0] == '<' {
      assert AngleEnd(t, 0) == Some(|t|);
      if |t| < 3 {
        assert t[0..|t|] == t;
        assert LexemeAt(t, 0) == Token(t, 0, |t|);
        assert Lex(t, 0) == [LexemeAt(t, 0)] + Lex(t, |t|);
        assert !IsSpace(t[|t| - 1]);
        assert !Spaced(t) && Relexes(t);
      }
    } else {
      BareIsLong(t);
    }
  }

  /** The first lexeme of a line that starts with a safe token's spelling is that token, whole. */
  lemma FirstLexeme(t: string, s: string)
    requires Safe(t) && Separated(s)
    ensures var q := QuoteToken(t);
            !IsSpace((q + s)[0]) && LexemeAt(q + s, 0) == Token(t, 0, |q|)
  {
    if Closed(t) {
      ClosedIsBare(t);
      ClosedLexeme(t, s);
    } else {
      var how := HowQuoted(t);
      if t != "" {
        QuotedWholeExactly(t);
      }
      match how
      case Bare => PlainLexeme(t, s);
      case Keyed(eq) => KeyedLexeme(t, eq, s);
      case Whole => WholeLexeme(t, s);
    }
  }

  lemma PlainLexeme(t: string, s: string)
    requires QUOTE !in t && !OpensFormula(t) && t != "" && Separated(s)
    requires IsFormulaToken(t) || (!Spaced(t) && Relexes(t))
    ensures !IsSpace((t + s)[0]) && LexemeAt(t + s, 0) == Token(t, 0, |t|)
  {
    StableHead(t, s);
    assert (t + s)[0] == t[0];
    assert !IsFormulaToken(t);
    PlainOrdinary(t, s);
  }

  lemma KeyedLexeme(t: string, eq: nat, s: string)
    requires QUOTE !in t && !OpensFormula(t) && Separated(s)
    requires eq < |t| && t[eq] == '=' && eq > 0 && !Spaced(t[..eq])
    ensures var q := t[..eq + 1] + [QUOTE] + t[eq + 1..] + [QUOTE];
            !IsSpace((q + s)[0]) && LexemeAt(q + s, 0) == Token(t, 0, |q|)
  {
    var a, b := t[..eq + 1], t[eq + 1..];
    var q := a + [QUOTE] + b + [QUOTE];
    assert t == a + b;
    SpacedNext(t, eq);
    QuotedOrdinary(a, b, s, q + s);
    KeyedHead(t, eq);
    StableHead(q, s);
    assert (q + s)[0] == t[0] == t[..eq][0];
    assert FormulaEnd(q + s, 0) == None;
  }

  lemma WholeLexeme(t: string, s: string)
    requires QUOTE !in t && Separated(s)
    ensures var q := [QUOTE] + t + [QUOTE];
            !IsSpace((q + s)[0]) && LexemeAt(q + s, 0) == Token(t, 0, |q|)
  {
    var q := [QUOTE] + t + [QUOTE];
    assert q + s == "" + [QUOTE] + t + [QUOTE] + s;
    QuotedOrdinary("", t, s, q + s);
    assert (q + s)[0] == QUOTE;
    assert LettersEnd(q + s, 0) == 0;
    assert "" + t == t;
  }

  lemma SpacedNext(t: string, eq: nat)
    requires eq < |t| && t[eq] == '=' && !Spaced(t[..eq])
    ensures !Spaced(t[..eq + 1])
  {
    assert t[..eq + 1] == t[..eq] + ['='];
  }

  lemma ClosedLexeme(t: string, s: string)
    requires Closed(t) && Separated(s)
    ensures !IsSpace((t + s)[0]) && LexemeAt(t + s, 0) == Token(t, 0, |t|)
  {
    assert (t + s)[0] == t[0] && (t + s)[0..|t|] == t;
    if t[0] == '<' {
      StableBalanced(t, s, 0, [], 0);
    } else {
      StableHead(t, s);
      StableParens(t, s, LettersEnd(t, 0), 0);
    }
  }

  /** Quoting from `=` on leaves the head as it was. */
  lemma KeyedHead(t: string, eq: nat)
    requires eq < |t| && t[eq] == '='
    ensures var q := t[..eq + 1] + [QUOTE] + t[eq + 1..] + [QUOTE];
            HasHead(q, 0) == HasHead(t, 0) && q[0] == t[0] && LettersEnd(q, 0) == LettersEnd(t, 0)
  {
    var a := t[..eq + 1];
    var q := a + [QUOTE] + t[eq + 1..] + [QUOTE];
    assert t == a + t[eq + 1..];
    assert q == a + ([QUOTE] + t[eq + 1..] + [QUOTE]);
    LettersWithin(a, t[eq + 1..], 0);
    LettersWithin(a, [QUOTE] + t[eq + 1..] + [QUOTE], 0);
    assert a[eq] == '=';
    var h := LettersEnd(a, 0);
    assert h <= eq;
    assert q[h] == a[h] == t[h];
  }

  lemma {:induction false} LettersWithin(a: string, s: string, i: nat)
    requires i < |a| && !IsLetter(a[|a| - 1])
    ensures LettersEnd(a + s, i) == LettersEnd(a, i) < |a|
    decreases |a| - i
  {
    assert (a + s)[i] == a[i];
    if IsLetter(a[i]) {
      LettersWithin(a, s, i + 1);
    }
  }

  /** Every list of safe texts comes back from its joined line exactly. */
  lemma {:induction false} RoundTrip(texts: seq<string>)
    requires forall i :: 0 <= i < |texts| ==> Safe(texts[i])
    ensures Texts(Lex(JoinTokens(texts), 0)) == texts
    decreases |texts|
  {
    if |texts| == 1 {
      FirstLexeme(texts[0], "");
      var q := QuoteToken(texts[0]);
      assert q + "" == q;
      assert Lex(q, 0) == [LexemeAt(q, 0)] + Lex(q, |q|);
    } else if texts != [] {
      FirstLexeme(texts[0], " " + JoinTokens(texts[1..]));
      LexFirst(texts[0], JoinTokens(texts[1..]));
      RoundTrip(texts[1..]);
      assert texts == [texts[0]] + texts[1..];
    }
  }

  /** A first token that comes back leaves the rest of the line to be lexed on its own. */
  lemma LexFirst(t: string, rest: string)
    requires var raw := QuoteToken(t) + (" " + rest);
             !IsSpace(raw[0]) && LexemeAt(raw, 0) == Token(t, 0, |QuoteToken(t)|)
    ensures Texts(Lex(QuoteToken(t) + " " + rest, 0)) == [t] + Texts(Lex(rest, 0))
  {
    var q := QuoteToken(t);
    var raw := q + " " + rest;
    assert raw == q + (" " + rest);
    FirstToken(raw, t, |q|);
    AfterSpace(q, rest, raw);
  }

  lemma FirstToken(raw: string, t: string, k: nat)
    requires raw != "" && !IsSpace(raw[0]) && LexemeAt(raw, 0) == Token(t, 0, k)
    ensures Texts(Lex(raw, 0)) == [t] + Texts(Lex(raw, k))
  {
    LexSteps(raw, 0);
  }

  lemma AfterSpace(q: string, rest: string, raw: string)
    requires raw == q + " " + rest
    ensures Texts(Lex(raw, |q|)) == Texts(Lex(rest, 0))
  {
    assert raw[|q|] == ' ';
    LexSteps(raw, |q|);
    ShiftLex(q + " ", rest, 0);
  }

  // ---------------------------------------------------------------- nothing weaker than safe will do

  /** The state of the balanced scan after a text it does not close in. */
  function AnglesAfter(raw: string, i: nat, angles: seq<nat>, parens: nat): (seq<nat>, nat)
    decreases |raw| - i
  {
    if i >= |raw| then (angles, parens)
    else if raw[i] == '<' then AnglesAfter(raw, i + 1, angles + [parens], parens)
    else if raw[i] == '(' then AnglesAfter(raw, i + 1, angles, parens + 1)
    else if raw[i] == ')' then AnglesAfter(raw, i + 1, angles, if parens > 0 then parens - 1 else 0)
    else if raw[i] == '>' && angles != [] && angles[|angles| - 1] == parens then
      AnglesAfter(raw, i + 1, angles[..|angles| - 1], parens)
    else AnglesAfter(raw, i + 1, angles, parens)
  }

  lemma {:induction false} ResumeAngles(raw: string, s: string, i: nat, angles: seq<nat>, parens: nat)
    requires i <= |raw| && angles != [] && BalancedFrom(raw, i, angles, parens) == None
    ensures var (a, p) := AnglesAfter(raw, i, angles, parens);
            a != [] && BalancedFrom(raw + s, i, angles, parens) == BalancedFrom(raw + s, |raw|, a, p)
    decreases |raw| - i
  {
    if i < |raw| {
      assert (raw + s)[i] == raw[i];
      if raw[i] == '<' {
        ResumeAngles(raw, s, i + 1, angles + [parens], parens);
      } else if raw[i] == '(' {
        ResumeAngles(raw, s, i + 1, angles, parens + 1);
      } else if raw[i] == ')' {
        ResumeAngles(raw, s, i + 1, angles, if parens > 0 then parens - 1 else 0);
      } else if raw[i] == '>' && angles[|angles| - 1] == parens {
        ResumeAngles(raw, s, i + 1, angles[..|angles| - 1], parens);
      } else {
        ResumeAngles(raw, s, i + 1, angles, parens);
      }
    }
  }

  function Repeat(ch: char, n: nat): (s: string)
    ensures |s| == n && forall k :: 0 <= k < n ==> s[k] == ch
  {
    seq(n, _ => ch)
  }

  /** What closes every open angle: parentheses down to none, up to the angle's own depth, then `>`. */
  function Closers(angles: seq<nat>, parens: nat): (s: string)
    ensures forall k :: 0 <= k < |s| ==> s[k] == '(' || s[k] == ')' || s[k] == '>'
    ensures angles != [] ==> s != ""
    decreases |angles|
  {
    if angles == [] then ""
    else
      var top := angles[|angles| - 1];
      Repeat(')', parens) + Repeat('(', top) + ">" + Closers(angles[..|angles| - 1], top)
  }

  lemma {:induction false} SkipCloses(raw: string, i: nat, n: nat, angles: seq<nat>, parens: nat)
    requires i + n <= |raw| && n <= parens && forall k :: i <= k < i + n ==> raw[k] == ')'
    ensures BalancedFrom(raw, i, angles, parens) == BalancedFrom(raw, i + n, angles, parens - n)
    decreases n
  {
    if n > 0 { SkipCloses(raw, i + 1, n - 1, angles, parens - 1); }
  }

  lemma {:induction false} SkipOpens(raw: string, i: nat, n: nat, angles: seq<nat>, parens: nat)
    requires i + n <= |raw| && forall k :: i <= k < i + n ==> raw[k] == '('
    ensures BalancedFrom(raw, i, angles, parens) == BalancedFrom(raw, i + n, angles, parens + n)
    decreases n
  {
    if n > 0 { SkipOpens(raw, i + 1, n - 1, angles, parens + 1); }
  }

  lemma {:induction false} ClosersClose(raw: string, i: nat, angles: seq<nat>, parens: nat)
    requires i <= |raw| && angles != [] && raw[i..] == Closers(angles, parens)
    ensures BalancedFrom(raw, i, angles, parens) == Some(|raw|)
    decreases |angles|
  {
    var n := |angles| - 1;
    var top := angles[n];
    var k := CloseOne(raw, i, angles, parens);
    SkipBoth(raw, i, parens, top, angles);
    if n > 0 {
      ClosersClose(raw, k + 1, angles[..n], top);
    }
    CloseStep(raw, k, angles);
  }

  /** The front of the closers brings the scan to the `>` at the depth of the innermost angle. */
  lemma CloseOne(raw: string, i: nat, angles: seq<nat>, parens: nat) returns (k: nat)
    requires i <= |raw| && angles != [] && raw[i..] == Closers(angles, parens)
    ensures k < |raw| && raw[k] == '>'
    ensures raw[k + 1..] == Closers(angles[..|angles| - 1], angles[|angles| - 1])
    ensures k == i + parens + angles[|angles| - 1]
    ensures forall m :: i <= m < i + parens ==> raw[m] == ')'
    ensures forall m :: i + parens <= m < k ==> raw[m] == '('
  {
    var top := angles[|angles| - 1];
    k := i + parens + top;
    Pieces(raw, i, Repeat(')', parens), Repeat('(', top), Closers(angles[..|angles| - 1], top));
    SliceAll(raw, i, i + parens, ')');
    SliceAll(raw, i + parens, k, '(');
  }

  lemma SkipBoth(raw: string, i: nat, parens: nat, top: nat, angles: seq<nat>)
    requires i + parens + top <= |raw|
    requires forall k :: i <= k < i + parens ==> raw[k] == ')'
    requires forall k :: i + parens <= k < i + parens + top ==> raw[k] == '('
    ensures BalancedFrom(raw, i, angles, parens) == BalancedFrom(raw, i + parens + top, angles, top)
  {
    SkipCloses(raw, i, parens, angles, parens);
    SkipOpens(raw, i + parens, top, angles, 0);
  }

  lemma CloseStep(raw: string, k: nat, angles: seq<nat>)
    requires k < |raw| && raw[k] == '>' && angles != []
    ensures BalancedFrom(raw, k, angles, angles[|angles| - 1])
         == if |angles| == 1 then Some(k + 1) else BalancedFrom(raw, k + 1, angles[..|angles| - 1],
             angles[|angles| - 1])
  {
  }

  lemma SpaceStep(raw: string, i: nat, angles: seq<nat>, parens: nat)
    requires i < |raw| && raw[i] == ' '
    ensures BalancedFrom(raw, i, angles, parens) == BalancedFrom(raw, i + 1, angles, parens)
  {
  }

  lemma AngleStep(raw: string)
    requires raw != "" && raw[0] == '<'
    ensures BalancedFrom(raw, 0, [], 0) == BalancedFrom(raw, 1, [0], 0)
  {
    assert [] + [0] == [0];
  }

  lemma ParenStep(raw: string, i: nat, depth: int)
    requires i < |raw|
    ensures raw[i] == ' ' ==> ParensFrom(raw, i, depth) == ParensFrom(raw, i + 1, depth)
    ensures raw[i] == '(' ==> ParensFrom(raw, i, depth) == ParensFrom(raw, i + 1, depth + 1)
  {
  }

  lemma Pieces(raw: string, i: nat, a: string, b: string, rest: string)
    requires i <= |raw| && raw[i..] == a + b + ">" + rest
    ensures i + |a| + |b| < |raw| && raw[i + |a| + |b|] == '>'
    ensures raw[i..i + |a|] == a && raw[i + |a|..i + |a| + |b|] == b && raw[i + |a| + |b| + 1..] == rest
  {
    var s := a + b + ">" + rest;
    var n := |a| + |b|;
    assert raw == raw[..i] + s;
    assert raw[i + n] == s[n];
    assert raw[i..i + |a|] == s[..|a|] == a;
    assert raw[i + |a|..i + n] == s[|a|..n] == b;
    assert raw[i + n + 1..] == s[n + 1..] == rest;
  }

  lemma SliceAll(raw: string, i: nat, j: nat, ch: char)
    requires i <= j <= |raw| && raw[i..j] == Repeat(ch, j - i)
    ensures forall k :: i <= k < j ==> raw[k] == ch
  {
    assert forall k :: i <= k < j ==> raw[k] == raw[i..j][k - i];
  }

  function DepthAfter(raw: string, i: nat, depth: nat): nat
    decreases |raw| - i
  {
    if i >= |raw| then depth
    else if raw[i] == '(' then DepthAfter(raw, i + 1, depth + 1)
    else if raw[i] == ')' && depth > 0 then DepthAfter(raw, i + 1, depth - 1)
    else DepthAfter(raw, i + 1, depth)
  }

  lemma {:induction false} ResumeParens(raw: string, s: string, i: nat, depth: nat)
    requires i <= |raw| && depth > 0 && ParensFrom(raw, i, depth) == None
    ensures DepthAfter(raw, i, depth) > 0
    ensures ParensFrom(raw + s, i, depth) == ParensFrom(raw + s, |raw|, DepthAfter(raw, i, depth))
    decreases |raw| - i
  {
    if i < |raw| {
      assert (raw + s)[i] == raw[i];
      ResumeParens(raw, s, i + 1,
                   if raw[i] == '(' then depth + 1 else if raw[i] == ')' then depth - 1 else depth);
    }
  }

  lemma {:induction false} ParensClose(raw: string, i: nat, depth: nat)
    requires i + depth == |raw| && depth > 0 && forall k :: i <= k < |raw| ==> raw[k] == ')'
    ensures ParensFrom(raw, i, depth) == Some(|raw|)
    decreases depth
  {
    if depth > 1 { ParensClose(raw, i + 1, depth - 1); }
  }

  /** A text of brackets alone is safe and is spelled as it stands. */
  lemma BracketsAreBare(u: string)
    requires u != "" && forall k :: 0 <= k < |u| ==> u[k] == '(' || u[k] == ')' || u[k] == '>'
    ensures Safe(u) && QuoteToken(u) == u
  {
    assert LettersEnd(u, 0) == 0;
    assert FormulaEnd(u, 0) == None && !IsFormulaToken(u);
    assert u + "" == u;
    PlainOrdinary(u, "");
    assert LexemeAt(u, 0) == Token(u, 0, |u|);
    assert Lex(u, 0) == [LexemeAt(u, 0)] + Lex(u, |u|);
    assert !Spaced(u) && Relexes(u);
  }

  /** The line of `t` and `u` does not begin with `t`. */
  ghost predicate Loses(t: string, u: string) {
    Safe(u) && Texts(Lex(JoinTokens([t, u]), 0)) != [t, u]
  }

  lemma FirstTextDiffers(t: string, u: string)
    requires Safe(u)
    requires var raw := QuoteToken(t) + " " + QuoteToken(u); !IsSpace(raw[0]) && LexemeAt(raw, 0).text != t
    ensures Loses(t, u)
  {
    var raw := QuoteToken(t) + " " + QuoteToken(u);
    assert [t, u][1..] == [u];
    assert JoinTokens([u]) == QuoteToken(u);
    assert JoinTokens([t, u]) == QuoteToken(t) + " " + JoinTokens([t, u][1..]);
    var x := LexemeAt(raw, 0);
    assert Lex(raw, 0) == [x] + Lex(raw, x.end);
    TextsCons(x, Lex(raw, x.end));
  }

  /** A spelling starts as its text does, or with a quote. */
  lemma SpellingShape(t: string)
    requires t != ""
    ensures var q := QuoteToken(t);
            && |q| >= |t|
            && (q[0] == QUOTE || (q[0] == t[0] && HasHead(q, 0) == HasHead(t, 0)))
  {
    var how := HowQuoted(t);
    match how
    case Bare =>
    case Keyed(eq) => KeyedHead(t, eq);
    case Whole =>
  }

  /** A front of the spelling that ends with a bracket is the text only when the text is spelled as it stands. */
  lemma FrontIsNotText(t: string, k: nat)
    requires t != "" && k <= |QuoteToken(t)| && k > 0 && QuoteToken(t)[0] != QUOTE
    requires QuoteToken(t)[k - 1] == '>' || QuoteToken(t)[k - 1] == ')'
    requires QuoteToken(t)[..k] == t
    ensures QuoteToken(t) == t && k == |t|
  {
    var how := HowQuoted(t);
    if how.Keyed? {
      KeyedFront(t, QuoteToken(t), how.eq, k);
    }
  }

  /** A keyed spelling repeats every character after the `=` one place later, so no front of it can be the text. */
  lemma KeyedFront(t: string, q: string, eq: nat, k: nat)
    requires eq < |t| && t[eq] == '=' && q == t[..eq + 1] + [QUOTE] + t[eq + 1..] + [QUOTE]
    requires 0 < k <= |q| && (q[k - 1] == '>' || q[k - 1] == ')')
    ensures q[..k] != t
  {
    if k == |t| {
      if t[k - 1] == q[k - 1] {
        assert forall j :: eq + 1 < j <= k - 1 ==> q[j] == t[j - 1];
        var m := FirstChange(t, q, eq + 1, k - 1);
        assert q[..k][m] != t[m];
      } else {
        assert q[..k][k - 1] != t[k - 1];
      }
    }
  }

  /** A text repeated one place later from a quote on differs from itself before anything that is no quote. */
  lemma {:induction false} FirstChange(t: string, q: string, from: nat, j: nat) returns (m: nat)
    requires from <= j < |t| && j < |q| && q[from] == QUOTE && t[j] != QUOTE
    requires forall k :: from < k <= j ==> q[k] == t[k - 1]
    ensures from <= m <= j && t[m] != q[m]
  {
    if j == from || t[j - 1] != t[j] {
      m := j;
    } else {
      m := FirstChange(t, q, from, j - 1);
    }
  }

  /** A closed front of the spelling of a text that is not closed is not that text. */
  lemma FrontIsText(t: string, k: nat)
    requires !Closed(t) && t != "" && QuoteToken(t)[0] != QUOTE && QuoteToken(t)[0] == t[0]
    requires (if t[0] == '<' then BalancedFrom(QuoteToken(t), 0, [], 0) else BareEnd(QuoteToken(t), 0)) == Some(k)
    ensures QuoteToken(t)[..k] != t
  {
    if QuoteToken(t)[..k] == t {
      FrontIsNotText(t, k);
    }
  }

  /** A text that is not safe is lost next to some safe one. */
  lemma UnsafeLoses(t: string)
    requires !Safe(t)
    ensures exists u :: Loses(t, u)
  {
    var q := QuoteToken(t);
    SpellingShape(t);
    if q[0] != QUOTE && q[0] == '<' {
      UnsafeAngle(t);
    } else if q[0] != QUOTE && HasHead(q, 0) {
      UnsafeHead(t);
    } else {
      UnsafeQuote(t);
    }
  }

  lemma UnsafeAngle(t: string)
    requires !Safe(t) && t != "" && QuoteToken(t)[0] == '<' && |QuoteToken(t)| >= |t| && t[0] == '<'
    ensures exists u :: Loses(t, u)
  {
    var q := QuoteToken(t);
    if BalancedFrom(q, 0, [], 0).Some? {
      ClosedTooSoon(t, BalancedFrom(q, 0, [], 0).value);
    } else {
      assert [] + [0] == [0];
      OpenAngle(t);
    }
  }

  lemma StableFormulaEnd(q: string, s: string)
    requires q != "" && Separated(s)
    requires (if q[0] == '<' then BalancedFrom(q, 0, [], 0) else BareEnd(q, 0)).Some?
    ensures FormulaEnd(q + s, 0) == if q[0] == '<' then BalancedFrom(q, 0, [], 0) else BareEnd(q, 0)
  {
    assert (q + s)[0] == q[0];
    if q[0] == '<' {
      StableBalanced(q, s, 0, [], 0);
    } else {
      StableHead(q, s);
      StableParens(q, s, LettersEnd(q, 0), 0);
    }
  }

  /** The spelling closes, but not as the text: the same bracket closes it on any line. */
  lemma ClosedTooSoon(t: string, k: nat)
    requires !Closed(t) && t != "" && QuoteToken(t)[0] != QUOTE && QuoteToken(t)[0] == t[0]
    requires (if t[0] == '<' then BalancedFrom(QuoteToken(t), 0, [], 0) else BareEnd(QuoteToken(t), 0)) == Some(k)
    ensures exists u :: Loses(t, u)
  {
    var q, u := QuoteToken(t), ")";
    BracketsAreBare(u);
    StableFormulaEnd(q, " " + u);
    NoSpaceFirst(t);
    FrontIsText(t, k);
    FrontLexeme(q, " " + u, k);
    assert q + (" " + u) == q + " " + QuoteToken(u);
    FirstTextDiffers(t, u);
    assert Loses(t, u);
  }

  lemma FrontLexeme(q: string, s: string, k: nat)
    requires q != "" && !IsSpace(q[0]) && k <= |q| && FormulaEnd(q + s, 0) == Some(k)
    ensures !IsSpace((q + s)[0]) && LexemeAt(q + s, 0).text == q[..k]
  {
    assert (q + s)[0] == q[0] && (q + s)[0..k] == q[..k];
  }

  lemma OpenAngle(t: string)
    requires t != "" && QuoteToken(t)[0] == '<' && |QuoteToken(t)| >= |t|
    requires BalancedFrom(QuoteToken(t), 1, [0], 0) == None
    ensures exists u :: Loses(t, u)
  {
    var u := AngleTakesAll(QuoteToken(t));
    WholeLineLoses(t, u);
  }

  lemma AngleTakesAll(q: string) returns (u: string)
    requires q != "" && q[0] == '<' && BalancedFrom(q, 1, [0], 0) == None
    ensures Safe(u) && QuoteToken(u) == u
    ensures (q + (" " + u))[0] == '<' && FormulaEnd(q + (" " + u), 0) == Some(|q + (" " + u)|)
  {
    var (a, p) := AnglesAfter(q, 1, [0], 0);
    ResumeAngles(q, "", 1, [0], 0);
    u := Closers(a, p);
    BracketsAreBare(u);
    var raw := q + (" " + u);
    ResumeAngles(q, " " + u, 1, [0], 0);
    SuffixAt(q, u);
    ClosersClose(raw, |q| + 1, a, p);
    SpaceStep(raw, |q|, a, p);
    AngleStep(raw);
  }

  lemma SuffixAt(q: string, u: string)
    requires q != ""
    ensures var raw := q + (" " + u);
            raw[0] == q[0] && raw[|q|] == ' ' && raw[|q| + 1..] == u && |raw| == |q| + 1 + |u|
  {
  }

  /** One lexeme that takes the whole line is longer than the text. */
  lemma WholeLineLoses(t: string, u: string)
    requires Safe(u) && QuoteToken(u) == u && |QuoteToken(t)| >= |t|
    requires var raw := QuoteToken(t) + (" " + u); !IsSpace(raw[0]) && FormulaEnd(raw, 0) == Some(|raw|)
    ensures exists u :: Loses(t, u)
  {
    var raw := QuoteToken(t) + (" " + u);
    assert raw == QuoteToken(t) + " " + QuoteToken(u);
    assert raw[0..|raw|] == raw;
    FirstTextDiffers(t, u);
    assert Loses(t, u);
  }

  lemma UnsafeHead(t: string)
    requires !Safe(t) && t != "" && HasHead(QuoteToken(t), 0) && |QuoteToken(t)| >= |t| && HasHead(t, 0)
    requires QuoteToken(t)[0] != QUOTE
    ensures exists u :: Loses(t, u)
  {
    var q := QuoteToken(t);
    SpellingShape(t);
    if BareEnd(q, 0).Some? {
      ClosedTooSoon(t, BareEnd(q, 0).value);
    } else {
      OpenParens(t);
    }
  }

  lemma OpenParens(t: string)
    requires t != "" && HasHead(QuoteToken(t), 0) && BareEnd(QuoteToken(t), 0) == None && |QuoteToken(t)| >= |t|
    ensures exists u :: Loses(t, u)
  {
    NoSpaceFirst(t);
    var u := ParensTakeAll(QuoteToken(t));
    WholeLineLoses(t, u);
  }

  lemma ParensTakeAll(q: string) returns (u: string)
    requires q != "" && HasHead(q, 0) && BareEnd(q, 0) == None
    ensures Safe(u) && QuoteToken(u) == u
    ensures (q + (" " + u))[0] == q[0] && FormulaEnd(q + (" " + u), 0) == Some(|q + (" " + u)|)
  {
    var h := LettersEnd(q, 0);
    ParenStep(q, h, 0);
    ResumeParens(q, "", h + 1, 1);
    var d := DepthAfter(q, h + 1, 1);
    u := Repeat(')', d);
    BracketsAreBare(u);
    ResumeParens(q, " " + u, h + 1, 1);
    ParensFill(q, d, u);
  }

  lemma ParensFill(q: string, d: nat, u: string)
    requires HasHead(q, 0) && d > 0 && u == Repeat(')', d)
    requires var h := LettersEnd(q, 0);
             ParensFrom(q + (" " + u), h + 1, 1) == ParensFrom(q + (" " + u), |q|, d)
    ensures (q + (" " + u))[0] == q[0] && FormulaEnd(q + (" " + u), 0) == Some(|q + (" " + u)|)
  {
    var raw := q + (" " + u);
    StableHead(q, " " + u);
    SuffixAt(q, u);
    ParensAfterSpace(raw, |q|, d, u);
    BareIsAll(raw);
  }

  lemma ParensAfterSpace(raw: string, i: nat, d: nat, u: string)
    requires d > 0 && u == Repeat(')', d) && i < |raw| && raw[i] == ' ' && raw[i + 1..] == u && |raw| == i + 1 + d
    ensures ParensFrom(raw, i, d) == Some(|raw|)
  {
    SliceAll(raw, i + 1, |raw|, ')');
    SpaceThenParens(raw, i, d);
  }

  lemma SpaceThenParens(raw: string, i: nat, depth: nat)
    requires i + 1 + depth == |raw| && depth > 0 && raw[i] == ' '
    requires forall k :: i + 1 <= k < |raw| ==> raw[k] == ')'
    ensures ParensFrom(raw, i, depth) == Some(|raw|)
  {
    ParenStep(raw, i, depth);
    ParensClose(raw, i + 1, depth);
  }

  lemma BareIsAll(raw: string)
    requires HasHead(raw, 0) && ParensFrom(raw, LettersEnd(raw, 0) + 1, 1) == Some(|raw|)
    ensures FormulaEnd(raw, 0) == Some(|raw|)
  {
    ParenStep(raw, LettersEnd(raw, 0), 0);
  }

  /** Otherwise the lexeme is an ordinary one, which never carries a quote, and the text does. */
  lemma UnsafeQuote(t: string)
    requires !Safe(t)
    requires QuoteToken(t)[0] == QUOTE || (QuoteToken(t)[0] != '<' && !HasHead(QuoteToken(t), 0))
    requires t != ""
    ensures exists u :: Loses(t, u)
  {
    var q := QuoteToken(t);
    SpellingShape(t);
    if QUOTE !in t {
      QuotedWholeExactly(t);
    }
    assert QUOTE in t;
    var u := ")";
    BracketsAreBare(u);
    var raw := q + " " + u;
    assert raw == q + (" " + u) && raw[0] == q[0];
    StableHead(q, " " + u);
    NoSpaceFirst(t);
    assert FormulaEnd(raw, 0) == None;
    FirstTextDiffers(t, u);
    assert Loses(t, u);
  }

  /** No spelling starts with a space. */
  lemma NoSpaceFirst(t: string)
    ensures !IsSpace(QuoteToken(t)[0])
  {
    var how := HowQuoted(t);
    match how
    case Bare => if IsSpace(t[0]) { assert !Spaced(t) ==> false; FormulaFirst(t); }
    case Keyed(eq) => assert t[0] == t[..eq][0];
    case Whole =>
  }

  lemma FormulaFirst(t: string)
    ensures IsFormulaToken(t) ==> !IsSpace(t[0])
  {
    if IsFormulaToken(t) && t[0] != '<' {
      assert HasHead(t, 0);
    }
  }

  /** A text survives next to every safe text exactly when it is safe itself. */
  lemma SafeExactly(t: string)
    ensures Safe(t) <==> forall u :: Safe(u) ==> Texts(Lex(JoinTokens([t, u]), 0)) == [t, u]
  {
    if Safe(t) {
      forall u | Safe(u)
        ensures Texts(Lex(JoinTokens([t, u]), 0)) == [t, u]
      {
        RoundTrip([t, u]);
      }
    } else {
      UnsafeLoses(t);
      var u :| Loses(t, u);
    }
  }

  /** `<A` and `B>` are each one token, and come back together as one. */
  lemma SplitAngleIsLost()
    ensures Relexes("<A") && Relexes("B>") && !Safe("<A")
    ensures Texts(Lex(JoinTokens(["<A", "B>"]), 0)) == ["<A B>"]
  {
    OpenAngleAlone();
    CloseAngleAlone();
    var raw := "<A B>";
    assert ["<A", "B>"][1..] == ["B>"];
    assert JoinTokens(["<A", "B>"]) == "<A" + " " + "B>" == raw;
    AnglesJoined();
  }

  lemma OpenAngleAlone()
    ensures Relexes("<A") && !Safe("<A") && QuoteToken("<A") == "<A"
  {
    assert FlatFrom("<A", 1, 1) == None;
    assert BalancedFrom("<A", 1, [0], 0) == None;
    assert [] + [0] == [0];
    assert AngleEnd("<A", 0) == None;
    PlainOrdinary("<A", "");
    assert "<A" + "" == "<A";
    assert LexemeAt("<A", 0) == Token("<A", 0, 2);
    assert Lex("<A", 0) == [LexemeAt("<A", 0)] + Lex("<A", 2);
  }

  lemma CloseAngleAlone()
    ensures Relexes("B>") && QuoteToken("B>") == "B>"
  {
    PlainOrdinary("B>", "");
    assert "B>" + "" == "B>";
    assert LettersEnd("B>", 0) == 1;
    assert LexemeAt("B>", 0) == Token("B>", 0, 2);
    assert Lex("B>", 0) == [LexemeAt("B>", 0)] + Lex("B>", 2);
  }

  lemma AnglesJoined()
    ensures Texts(Lex("<A B>", 0)) == ["<A B>"]
  {
    var raw := "<A B>";
    assert [] + [0] == [0];
    assert BalancedFrom(raw, 4, [0], 0) == Some(5);
    assert BalancedFrom(raw, 3, [0], 0) == Some(5);
    assert BalancedFrom(raw, 1, [0], 0) == Some(5);
    assert raw[0..5] == raw;
    assert LexemeAt(raw, 0) == Token(raw, 0, 5);
    assert Lex(raw, 0) == [LexemeAt(raw, 0)] + Lex(raw, 5);
  }
}
