/** One token, re-quoted and lexed on its own: which texts come back, exactly. */
module CommandSingleToken {
  import opened Util
  import opened CommandTokenizer
  import opened CommandRoundTrip

  /** The text's own spelling lexes to the text and nothing else. */
  predicate ComesBack(text: string) {
    Texts(Lex(QuoteToken(text), 0)) == [text]
  }

  // ---------------------------------------------------------------- a quote changes no scan

  lemma {:induction false} QuoteInBalanced(a: string, s: string, i: nat, angles: seq<nat>, parens: nat)
    requires i <= |a|
    ensures BalancedFrom(a + [QUOTE] + s, i, angles, parens).Some? <==> BalancedFrom(a + s, i, angles, parens).Some?
    decreases |a| - i
  {
    if i == |a| {
      assert (a + [QUOTE] + s)[i] == QUOTE;
      ShiftBalanced(a + [QUOTE], s, 0, angles, parens);
      ShiftBalanced(a, s, 0, angles, parens);
    } else {
      assert (a + [QUOTE] + s)[i] == (a + s)[i] == a[i];
      if a[i] == '<' {
        QuoteInBalanced(a, s, i + 1, angles + [parens], parens);
      } else if a[i] == '(' {
        QuoteInBalanced(a, s, i + 1, angles, parens + 1);
      } else if a[i] == ')' {
        QuoteInBalanced(a, s, i + 1, angles, if parens > 0 then parens - 1 else 0);
      } else if a[i] == '>' && angles != [] && angles[|angles| - 1] == parens {
        if |angles| > 1 { QuoteInBalanced(a, s, i + 1, angles[..|angles| - 1], parens); }
      } else {
        QuoteInBalanced(a, s, i + 1, angles, parens);
      }
    }
  }

  lemma {:induction false} QuoteInFlat(a: string, s: string, i: nat, depth: int)
    requires i <= |a|
    ensures FlatFrom(a + [QUOTE] + s, i, depth).Some? <==> FlatFrom(a + s, i, depth).Some?
    decreases |a| - i
  {
    if i == |a| {
      assert (a + [QUOTE] + s)[i] == QUOTE;
      ShiftFlat(a + [QUOTE], s, 0, depth);
      ShiftFlat(a, s, 0, depth);
    } else {
      assert (a + [QUOTE] + s)[i] == (a + s)[i] == a[i];
      QuoteInFlat(a, s, i + 1, if a[i] == '<' then depth + 1 else if a[i] == '>' then depth - 1 else depth);
    }
  }

  lemma {:induction false} QuoteInParens(a: string, s: string, i: nat, depth: int)
    requires i <= |a|
    ensures ParensFrom(a + [QUOTE] + s, i, depth).Some? <==> ParensFrom(a + s, i, depth).Some?
    decreases |a| - i
  {
    if i == |a| {
      assert (a + [QUOTE] + s)[i] == QUOTE;
      ShiftParens(a + [QUOTE], s, 0, depth);
      ShiftParens(a, s, 0, depth);
    } else {
      assert (a + [QUOTE] + s)[i] == (a + s)[i] == a[i];
      QuoteInParens(a, s, i + 1, if a[i] == '(' then depth + 1 else if a[i] == ')' then depth - 1 else depth);
    }
  }

  /** A `KEY="…"` spelling opens a formula that closes if and only if its text does. */
  lemma KeyedCloses(t: string, eq: nat)
    requires eq < |t| && t[eq] == '='
    ensures var q := t[..eq + 1] + [QUOTE] + t[eq + 1..] + [QUOTE];
            FormulaEnd(q, 0).Some? <==> FormulaEnd(t, 0).Some?
  {
    var a, b := t[..eq + 1], t[eq + 1..];
    assert t == a + b;
    KeyedHead(t, eq);
    TwoQuotesInAngle(a, b);
    var h := LettersEnd(t, 0);
    if HasHead(t, 0) {
      HeadIsBefore(t, eq);
      TwoQuotesInParens(a, b, h);
    }
  }

  lemma HeadIsBefore(t: string, eq: nat)
    requires eq < |t| && t[eq] == '='
    ensures LettersEnd(t, 0) <= eq
  {
    assert !IsLetter(t[eq]);
  }

  lemma TwoQuotesInAngle(a: string, b: string)
    ensures AngleEnd(a + [QUOTE] + b + [QUOTE], 0).Some? <==> AngleEnd(a + b, 0).Some?
  {
    var one := a + [QUOTE] + b;
    assert one + "" == one && a + [QUOTE] + b + [QUOTE] == one + [QUOTE] + "";
    QuoteInBalanced(a, b, 0, [], 0);
    QuoteInBalanced(one, "", 0, [], 0);
    QuoteInFlat(a, b, 0, 0);
    QuoteInFlat(one, "", 0, 0);
  }

  lemma TwoQuotesInParens(a: string, b: string, h: nat)
    requires h <= |a|
    ensures ParensFrom(a + [QUOTE] + b + [QUOTE], h, 0).Some? <==> ParensFrom(a + b, h, 0).Some?
  {
    var one := a + [QUOTE] + b;
    assert one + "" == one && a + [QUOTE] + b + [QUOTE] == one + [QUOTE] + "";
    QuoteInParens(a, b, h, 0);
    QuoteInParens(one, "", h, 0);
  }

  // ---------------------------------------------------------------- the exact condition

  lemma OneLexeme(q: string, t: string)
    requires q != "" && !IsSpace(q[0]) && LexemeAt(q, 0) == Token(t, 0, |q|)
    ensures Texts(Lex(q, 0)) == [t]
  {
    assert Lex(q, 0) == [LexemeAt(q, 0)] + Lex(q, |q|);
  }

  lemma OtherLexeme(q: string, t: string)
    requires q != "" && !IsSpace(q[0]) && LexemeAt(q, 0).text != t
    ensures Texts(Lex(q, 0)) != [t]
  {
    LexSteps(q, 0);
    assert Texts(Lex(q, 0))[0] == LexemeAt(q, 0).text;
  }

  /**
   * A text comes back from its own spelling if and only if it is empty, or a formula whole, or holds no quote and is
   * not spelled `KEY="…"` behind a formula that closes.
   */
  lemma ComesBackExactly(t: string)
    ensures ComesBack(t) <==>
              t == "" || FormulaEnd(t, 0) == Some(|t|) || (QUOTE !in t && !(KeyedForm(t) && FormulaEnd(t, 0).Some?))
  {
    if t == "" {
      WholeLexeme("", "");
      assert [QUOTE] + "" + [QUOTE] + "" == [QUOTE, QUOTE];
      OneLexeme([QUOTE, QUOTE], "");
    } else {
      NoSpaceFirst(t);
      if IsFormulaToken(t) {
        FormulaComesBack(t);
      } else if !Spaced(t) && Relexes(t) {
        RelexesExactly(t);
      } else if KeyedForm(t) {
        KeyedComesBack(t, IndexOf(t, '=').value);
      } else {
        WholeComesBack(t);
      }
    }
  }

  lemma FormulaComesBack(t: string)
    requires IsFormulaToken(t) && !IsSpace(t[0])
    ensures ComesBack(t) && FormulaEnd(t, 0) == Some(|t|)
  {
    assert t[0..|t|] == t;
    OneLexeme(t, t);
  }

  /** What is not spelled as it stands is no formula whole. */
  lemma NotWhole(t: string)
    requires t != "" && !IsFormulaToken(t) && (Spaced(t) || !Relexes(t))
    ensures FormulaEnd(t, 0) != Some(|t|)
  {
    if FormulaEnd(t, 0) == Some(|t|) {
      BareIsLong(t);
      assert t[0] == '<' && |t| <= 2;
      assert t[|t| - 1] == '>';
      RelexesExactly(t);
    }
  }

  lemma KeyedComesBack(t: string, eq: nat)
    requires !IsFormulaToken(t) && (Spaced(t) || !Relexes(t)) && KeyedForm(t) && Some(eq) == IndexOf(t, '=')
    ensures ComesBack(t) <==> QUOTE !in t && FormulaEnd(t, 0) == None
    ensures FormulaEnd(t, 0) != Some(|t|)
  {
    var q := t[..eq + 1] + [QUOTE] + t[eq + 1..] + [QUOTE];
    NotWhole(t);
    NoSpaceFirst(t);
    KeyedCloses(t, eq);
    match FormulaEnd(q, 0)
    case Some(e) =>
      FormulaLast(q, e);
      KeyedFront(t, q, eq, e);
      assert q[0..e] == q[..e];
      OtherLexeme(q, t);
    case None =>
      if QUOTE in t {
        OtherLexeme(q, t);
      } else {
        KeyedAlone(t, eq);
        OneLexeme(q, t);
      }
  }

  lemma FormulaLast(q: string, e: nat)
    requires q != "" && FormulaEnd(q, 0) == Some(e)
    ensures 0 < e <= |q| && (q[e - 1] == '>' || q[e - 1] == ')')
  {
  }

  lemma KeyedAlone(t: string, eq: nat)
    requires QUOTE !in t && eq < |t| && t[eq] == '=' && eq > 0 && !Spaced(t[..eq])
    requires var q := t[..eq + 1] + [QUOTE] + t[eq + 1..] + [QUOTE]; !IsSpace(q[0]) && FormulaEnd(q, 0) == None
    ensures var q := t[..eq + 1] + [QUOTE] + t[eq + 1..] + [QUOTE]; LexemeAt(q, 0) == Token(t, 0, |q|)
  {
    var a, b := t[..eq + 1], t[eq + 1..];
    var q := a + [QUOTE] + b + [QUOTE];
    assert t == a + b && q + "" == q;
    SpacedNext(t, eq);
    QuotedOrdinary(a, b, "", q);
  }

  lemma WholeComesBack(t: string)
    requires t != "" && !IsFormulaToken(t) && (Spaced(t) || !Relexes(t)) && !KeyedForm(t)
    ensures ComesBack(t) <==> QUOTE !in t
    ensures FormulaEnd(t, 0) != Some(|t|)
  {
    var q := [QUOTE] + t + [QUOTE];
    NotWhole(t);
    assert q + "" == q && QuoteToken(t) == q;
    if QUOTE in t {
      assert LettersEnd(q, 0) == 0;
      OtherLexeme(q, t);
    } else {
      WholeLexeme(t, "");
      OneLexeme(q, t);
    }
  }

  // ---------------------------------------------------------------- the tokens of a line

  lemma {:induction false} CutBalanced(raw: string, e: nat, i: nat, angles: seq<nat>, parens: nat)
    requires i <= e <= |raw| && BalancedFrom(raw, i, angles, parens) == Some(e)
    ensures BalancedFrom(raw[..e], i, angles, parens) == Some(e)
    decreases e - i
  {
    assert i < e && raw[..e][i] == raw[i];
    if raw[i] == '<' {
      CutBalanced(raw, e, i + 1, angles + [parens], parens);
    } else if raw[i] == '(' {
      CutBalanced(raw, e, i + 1, angles, parens + 1);
    } else if raw[i] == ')' {
      CutBalanced(raw, e, i + 1, angles, if parens > 0 then parens - 1 else 0);
    } else if raw[i] == '>' && angles != [] && angles[|angles| - 1] == parens {
      if |angles| > 1 { CutBalanced(raw, e, i + 1, angles[..|angles| - 1], parens); }
    } else {
      CutBalanced(raw, e, i + 1, angles, parens);
    }
  }

  lemma {:induction false} CutFlat(raw: string, e: nat, i: nat, depth: int)
    requires i <= e <= |raw| && FlatFrom(raw, i, depth) == Some(e)
    ensures FlatFrom(raw[..e], i, depth) == Some(e)
    decreases e - i
  {
    assert i < e && raw[..e][i] == raw[i];
    if !(raw[i] == '>' && depth - 1 == 0) {
      CutFlat(raw, e, i + 1, if raw[i] == '<' then depth + 1 else if raw[i] == '>' then depth - 1 else depth);
    }
  }

  lemma {:induction false} CutParens(raw: string, e: nat, i: nat, depth: int)
    requires i <= e <= |raw| && ParensFrom(raw, i, depth) == Some(e)
    ensures ParensFrom(raw[..e], i, depth) == Some(e)
    decreases e - i
  {
    assert i < e && raw[..e][i] == raw[i];
    if !(raw[i] == ')' && depth - 1 == 0) {
      CutParens(raw, e, i + 1, if raw[i] == '(' then depth + 1 else if raw[i] == ')' then depth - 1 else depth);
    }
  }

  /** A formula cut where it ends is a formula whole. */
  lemma CutFormula(raw: string, e: nat)
    requires 0 < e <= |raw| && FormulaEnd(raw, 0) == Some(e)
    ensures FormulaEnd(raw[..e], 0) == Some(e)
  {
    var front := raw[..e];
    assert front[0] == raw[0] && raw == front + raw[e..];
    if raw[0] == '<' && AngleEnd(raw, 0).Some? {
      CutAngle(raw, e);
    } else {
      CutBare(raw, e);
    }
  }

  lemma CutAngle(raw: string, e: nat)
    requires 0 < e <= |raw| && AngleEnd(raw, 0) == Some(e)
    ensures AngleEnd(raw[..e], 0) == Some(e)
  {
    assert raw == raw[..e] + raw[e..];
    if BalancedFrom(raw, 0, [], 0).Some? {
      CutBalanced(raw, e, 0, [], 0);
    } else {
      if BalancedFrom(raw[..e], 0, [], 0).Some? {
        StableBalanced(raw[..e], raw[e..], 0, [], 0);
      }
      CutFlat(raw, e, 0, 0);
    }
  }

  lemma CutBare(raw: string, e: nat)
    requires 0 < e <= |raw| && BareEnd(raw, 0) == Some(e)
    ensures BareEnd(raw[..e], 0) == Some(e) && raw[0] != '<'
  {
    var h, front := LettersEnd(raw, 0), raw[..e];
    assert raw == front + raw[e..] && front[h] == raw[h];
    LettersWithin(front, raw[e..], 0);
    CutParens(raw, e, h, 0);
  }

  /** Every token of a line is a formula whole or holds no quote. */
  lemma {:induction false} TokenTexts(raw: string, i: nat, t: string)
    requires i <= |raw| && t in Texts(Lex(raw, i))
    ensures QUOTE !in t || (t != "" && FormulaEnd(t, 0) == Some(|t|))
    decreases |raw| - i
  {
    if i < |raw| {
      LexSteps(raw, i);
      if IsSpace(raw[i]) {
        TokenTexts(raw, i + 1, t);
      } else if t != LexemeAt(raw, i).text {
        TokenTexts(raw, LexemeAt(raw, i).end, t);
      } else {
        LexemeText(raw, i);
      }
    }
  }

  lemma LexemeText(raw: string, i: nat)
    requires i < |raw| && !IsSpace(raw[i])
    ensures var t := LexemeAt(raw, i).text; QUOTE !in t || (t != "" && FormulaEnd(t, 0) == Some(|t|))
  {
    match FormulaEnd(raw, i)
    case Some(e) =>
      var s := raw[i..];
      assert raw == raw[..i] + s;
      ShiftFormulaEnd(raw[..i], s, 0);
      CutFormula(s, e - i);
      assert s[..e - i] == raw[i..e];
    case None =>
  }

  /** So a token of a line comes back unless it is spelled `KEY="…"` behind a formula that closes too soon. */
  lemma TokensComeBack(raw: string, t: string)
    requires t in Texts(Lex(raw, 0))
    ensures ComesBack(t) <==> !(KeyedForm(t) && ClosesEarly(t))
  {
    TokenTexts(raw, 0, t);
    TokenComesBack(t);
  }

  lemma TokenComesBack(t: string)
    requires QUOTE !in t || (t != "" && FormulaEnd(t, 0) == Some(|t|))
    ensures ComesBack(t) <==> !(KeyedForm(t) && ClosesEarly(t))
  {
    ComesBackExactly(t);
  }

  // ---------------------------------------------------------------- two inputs

  /** The token `<A=B>'` of the line `""<A=B>'` is spelled `<A="B>'"`, whose first token is `<A="B>`. */
  lemma KeyInAngle(raw: string, t: string, q: string)
    requires raw == "\"\"<A=B>'" && t == "<A=B>'" && q == "<A=\"B>'\""
    ensures Texts(Lex(raw, 0)) == [t] && QuoteToken(t) == q
    ensures LexemeAt(q, 0).text == "<A=\"B>" && !ComesBack(t)
  {
    TokenOfLine(raw, t);
    AngleClosesAt(t, 5);
    AngleClosesAt(q, 6);
    assert q[0..6] == "<A=\"B>";
    SpellingInAngle(t, q);
    ComesBackExactly(t);
  }

  lemma TokenOfLine(raw: string, t: string)
    requires raw == [QUOTE, QUOTE] + t && t != "" && QUOTE !in t && !Spaced(t)
    ensures Texts(Lex(raw, 0)) == [t]
  {
    assert forall k :: 2 <= k < |raw| ==> raw[k] == t[k - 2];
    assert LettersEnd(raw, 0) == 0;
    OrdinaryRun(raw, 2, |raw|, false);
    assert raw[2..] == t && t + "" == t;
    assert OrdinaryFrom(raw, 0, false) == OrdinaryFrom(raw, 1, true) == OrdinaryFrom(raw, 2, false);
    OneLexeme(raw, t);
  }

  /** A text whose one angle bracket is closed by its first `>` and that has no parenthesis. */
  lemma AngleClosesAt(t: string, e: nat)
    requires 1 < e <= |t| && t[0] == '<' && t[e - 1] == '>'
    requires forall k :: 0 < k < e - 1 ==> t[k] !in "<>()"
    ensures FormulaEnd(t, 0) == Some(e)
  {
    SkipPlain(t, 1, e - 1, [0]);
    assert [] + [0] == [0];
  }

  lemma {:induction false} SkipPlain(t: string, i: nat, j: nat, angles: seq<nat>)
    requires i <= j <= |t| && forall k :: i <= k < j ==> t[k] !in "<>()"
    ensures BalancedFrom(t, i, angles, 0) == BalancedFrom(t, j, angles, 0)
    decreases j - i
  {
    if i < j {
      SkipPlain(t, i + 1, j, angles);
    }
  }

  lemma SpellingInAngle(t: string, q: string)
    requires t == "<A=B>'" && q == "<A=\"B>'\"" && FormulaEnd(t, 0) == Some(5)
    ensures KeyedForm(t) && QuoteToken(t) == q
  {
    FirstEquals(t, 2);
    RelexesExactly(t);
    assert t[..3] == "<A=" && t[3..] == "B>'";
  }

  lemma FirstEquals(t: string, eq: nat)
    requires eq < |t| && t[eq] == '=' && '=' !in t[..eq]
    ensures IndexOf(t, '=') == Some(eq)
  {
    var k := IndexOf(t, '=').value;
    assert forall j :: 0 <= j < k ==> t[j] == t[..k][j];
    assert forall j :: 0 <= j < eq ==> t[j] == t[..eq][j];
  }

  /** A formula can hold a quote, and comes back with it. */
  lemma QuoteInAngle(t: string)
    requires t == "<\"A>"
    ensures QUOTE in t && Texts(Lex(t, 0)) == [t] && ComesBack(t)
  {
    AngleClosesAt(t, 4);
    assert t[0..4] == t;
    OneLexeme(t, t);
    ComesBackExactly(t);
  }
}
