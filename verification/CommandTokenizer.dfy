/**
 * The command line's lexer and its inverse, the re-quoter.
 *
 * Every scanning loop is a method proved against a recursive function of the same scan; the round-trip
 * results are about those functions.
 */
module CommandTokenizer {
  import opened Util

  /** One lexeme with its half-open span in the raw text. */
  datatype Token = Token(text: string, start: nat, end: nat)

  const QUOTE: char := '"'
  const MAX_HEAD_LETTERS: nat := 32

  predicate IsSpace(ch: char) { ch == ' ' || ch == '\t' }
  predicate IsLetter(ch: char) { 'A' <= ch <= 'Z' || 'a' <= ch <= 'z' }

  // ---------------------------------------------------------------- the closing scans

  /** The index past the `>` that closes the outermost `<` at its own parenthesis depth. */
  function BalancedFrom(raw: string, i: nat, angles: seq<nat>, parens: nat): (r: Option<nat>)
    ensures r.Some? ==> i < r.value <= |raw| && raw[r.value - 1] == '>'
    decreases |raw| - i
  {
    if i >= |raw| then None
    else if raw[i] == '<' then BalancedFrom(raw, i + 1, angles + [parens], parens)
    else if raw[i] == '(' then BalancedFrom(raw, i + 1, angles, parens + 1)
    else if raw[i] == ')' then BalancedFrom(raw, i + 1, angles, if parens > 0 then parens - 1 else 0)
    else if raw[i] == '>' && angles != [] && angles[|angles| - 1] == parens then
      if |angles| == 1 then Some(i + 1) else BalancedFrom(raw, i + 1, angles[..|angles| - 1], parens)
    else BalancedFrom(raw, i + 1, angles, parens)
  }

  method CloseAngleBalanced(raw: string, from: nat) returns (r: Option<nat>)
    ensures r == BalancedFrom(raw, from, [], 0)
  {
    var angles: seq<nat> := [];
    var parens := 0;
    var i := from;
    while i < |raw|
      invariant 0 <= parens
      invariant BalancedFrom(raw, from, [], 0) == BalancedFrom(raw, i, angles, parens)
      decreases |raw| - i
    {
      var ch := raw[i];
      if ch == '<' {
        angles := angles + [parens];
      } else if ch == '(' {
        parens := parens + 1;
      } else if ch == ')' {
        if parens > 0 { parens := parens - 1; }
      } else if ch == '>' {
        if |angles| > 0 && angles[|angles| - 1] == parens {
          angles := angles[..|angles| - 1];
          if |angles| == 0 { return Some(i + 1); }
        }
      }
      i := i + 1;
    }
    r := None;
  }

  /** `>` closes `<` whatever the parentheses are doing. */
  function FlatFrom(raw: string, i: nat, depth: int): (r: Option<nat>)
    ensures r.Some? ==> i < r.value <= |raw| && raw[r.value - 1] == '>'
    decreases |raw| - i
  {
    if i >= |raw| then None
    else if raw[i] == '<' then FlatFrom(raw, i + 1, depth + 1)
    else if raw[i] == '>' then if depth - 1 == 0 then Some(i + 1) else FlatFrom(raw, i + 1, depth - 1)
    else FlatFrom(raw, i + 1, depth)
  }

  method CloseAngleFlat(raw: string, from: nat) returns (r: Option<nat>)
    ensures r == FlatFrom(raw, from, 0)
  {
    var depth := 0;
    var i := from;
    while i < |raw|
      invariant FlatFrom(raw, from, 0) == FlatFrom(raw, i, depth)
      decreases |raw| - i
    {
      var ch := raw[i];
      if ch == '<' {
        depth := depth + 1;
      } else if ch == '>' {
        depth := depth - 1;
        if depth == 0 { return Some(i + 1); }
      }
      i := i + 1;
    }
    r := None;
  }

  function AngleEnd(raw: string, from: nat): (r: Option<nat>)
    ensures r.Some? ==> from < r.value <= |raw| && raw[r.value - 1] == '>'
  {
    var balanced := BalancedFrom(raw, from, [], 0);
    if balanced == None then FlatFrom(raw, from, 0) else balanced
  }

  method CloseAngle(raw: string, from: nat) returns (r: Option<nat>)
    ensures r == AngleEnd(raw, from)
  {
    r := CloseAngleBalanced(raw, from);
    if r == None {
      r := CloseAngleFlat(raw, from);
    }
  }

  function LettersEnd(raw: string, i: nat): (j: nat)
    ensures i <= j && (j <= |raw| || j == i)
    ensures forall k :: i <= k < j ==> IsLetter(raw[k])
    ensures j < |raw| ==> !IsLetter(raw[j])
    decreases |raw| - i
  {
    if i < |raw| && IsLetter(raw[i]) then LettersEnd(raw, i + 1) else i
  }

  /** A bare formula's head: one to 32 letters and an open parenthesis. */
  predicate HasHead(raw: string, from: nat) {
    var h := LettersEnd(raw, from);
    from < h <= from + MAX_HEAD_LETTERS && h < |raw| && raw[h] == '('
  }

  function ParensFrom(raw: string, i: nat, depth: int): (r: Option<nat>)
    ensures r.Some? ==> i < r.value <= |raw| && raw[r.value - 1] == ')'
    decreases |raw| - i
  {
    if i >= |raw| then None
    else if raw[i] == '(' then ParensFrom(raw, i + 1, depth + 1)
    else if raw[i] == ')' then if depth - 1 == 0 then Some(i + 1) else ParensFrom(raw, i + 1, depth - 1)
    else ParensFrom(raw, i + 1, depth)
  }

  /** The index past the `)` that balances the bare formula at `from`. */
  function BareEnd(raw: string, from: nat): (r: Option<nat>)
    ensures r.Some? ==> from < r.value <= |raw| && raw[r.value - 1] == ')'
  {
    if HasHead(raw, from) then ParensFrom(raw, LettersEnd(raw, from), 0) else None
  }

  method CloseBareFormula(raw: string, from: nat) returns (r: Option<nat>)
    ensures r == BareEnd(raw, from)
  {
    var i := from;
    while i < |raw| && IsLetter(raw[i])
      invariant from <= i && (i <= |raw| || i == from)
      invariant LettersEnd(raw, from) == LettersEnd(raw, i)
      decreases |raw| - i
    {
      i := i + 1;
    }
    if !(from < i <= from + MAX_HEAD_LETTERS && i < |raw| && raw[i] == '(') {
      return None;
    }
    ghost var h := i;
    var depth := 0;
    while i < |raw|
      invariant ParensFrom(raw, h, 0) == ParensFrom(raw, i, depth)
      decreases |raw| - i
    {
      var ch := raw[i];
      if ch == '(' {
        depth := depth + 1;
      } else if ch == ')' {
        depth := depth - 1;
        if depth == 0 { return Some(i + 1); }
      }
      i := i + 1;
    }
    r := None;
  }

  // ---------------------------------------------------------------- the lexer

  /** Where the formula starting at `i` ends, if one does. */
  function FormulaEnd(raw: string, i: nat): (r: Option<nat>)
    requires i < |raw|
    ensures r.Some? ==> i < r.value <= |raw|
  {
    var angle := if raw[i] == '<' then AngleEnd(raw, i) else None;
    if angle == None then BareEnd(raw, i) else angle
  }

  /** An ordinary token from `i`: quotes switch modes and are dropped; a space outside them ends it. */
  function OrdinaryFrom(raw: string, i: nat, inQuote: bool): (r: (string, nat))
    requires i <= |raw|
    ensures i <= r.1 <= |raw|
    ensures QUOTE !in r.0
    decreases |raw| - i
  {
    if i == |raw| then ("", i)
    else if raw[i] == QUOTE then OrdinaryFrom(raw, i + 1, !inQuote)
    else if !inQuote && IsSpace(raw[i]) then ("", i)
    else var rest := OrdinaryFrom(raw, i + 1, inQuote); ([raw[i]] + rest.0, rest.1)
  }

  /** The lexeme at a character that is not a space. */
  function LexemeAt(raw: string, i: nat): (t: Token)
    requires i < |raw| && !IsSpace(raw[i])
    ensures t.start == i && i < t.end <= |raw|
  {
    match FormulaEnd(raw, i)
    case Some(e) => Token(raw[i..e], i, e)
    case None =>
      var (text, e) := OrdinaryFrom(raw, i, false);
      assert e > i;
      Token(text, i, e)
  }

  function Lex(raw: string, i: nat): seq<Token>
    requires i <= |raw|
    decreases |raw| - i
  {
    if i == |raw| then []
    else if IsSpace(raw[i]) then Lex(raw, i + 1)
    else var t := LexemeAt(raw, i); [t] + Lex(raw, t.end)
  }

  method Tokenize(raw: string) returns (tokens: seq<Token>)
    ensures tokens == Lex(raw, 0)
  {
    tokens := [];
    var i := 0;
    while i < |raw|
      invariant i <= |raw|
      invariant Lex(raw, 0) == tokens + Lex(raw, i)
      decreases |raw| - i
    {
      if IsSpace(raw[i]) {
        i := i + 1;
        continue;
      }
      var start := i;
      ghost var t := LexemeAt(raw, start);
      ghost var before := tokens;
      var angle: Option<nat> := None;
      if raw[i] == '<' { angle := CloseAngle(raw, i); }
      var formulaEnd := angle;
      if angle == None { formulaEnd := CloseBareFormula(raw, i); }
      if formulaEnd.Some? {
        tokens := tokens + [Token(raw[start..formulaEnd.value], start, formulaEnd.value)];
        i := formulaEnd.value;
      } else {
        var text: string;
        text, i := TakeOrdinary(raw, i);
        tokens := tokens + [Token(text, start, i)];
      }
      assert before + ([t] + Lex(raw, t.end)) == tokens + Lex(raw, i);
    }
  }

  method TakeOrdinary(raw: string, start: nat) returns (text: string, i: nat)
    requires start <= |raw|
    ensures (text, i) == OrdinaryFrom(raw, start, false)
  {
    text := "";
    i := start;
    var inQuote := false;
    assert "" + OrdinaryFrom(raw, start, false).0 == OrdinaryFrom(raw, start, false).0;
    while i < |raw|
      invariant start <= i <= |raw|
      invariant OrdinaryFrom(raw, start, false)
             == (text + OrdinaryFrom(raw, i, inQuote).0, OrdinaryFrom(raw, i, inQuote).1)
    {
      var ch := raw[i];
      if ch == QUOTE {
        inQuote := !inQuote;
        i := i + 1;
        continue;
      }
      if !inQuote && IsSpace(ch) {
        break;
      }
      assert text + ([ch] + OrdinaryFrom(raw, i + 1, inQuote).0)
          == (text + [ch]) + OrdinaryFrom(raw, i + 1, inQuote).0;
      text := text + [ch];
      i := i + 1;
    }
    assert text + "" == text;
  }

  function Texts(tokens: seq<Token>): (r: seq<string>)
    ensures |r| == |tokens| && forall i :: 0 <= i < |r| ==> r[i] == tokens[i].text
  {
    seq(|tokens|, i requires 0 <= i < |tokens| => tokens[i].text)
  }

  /** Spans are inside the text, not empty and strictly ordered, with only spaces outside them. */
  predicate Spans(raw: string, i: nat, tokens: seq<Token>)
    requires i <= |raw|
    decreases |tokens|
  {
    if tokens == [] then forall k :: i <= k < |raw| ==> IsSpace(raw[k])
    else
      && i <= tokens[0].start < tokens[0].end <= |raw|
      && (forall k :: i <= k < tokens[0].start ==> IsSpace(raw[k]))
      && !IsSpace(raw[tokens[0].start])
      && Spans(raw, tokens[0].end, tokens[1..])
  }

  lemma {:induction false} LexSpans(raw: string, i: nat)
    requires i <= |raw|
    ensures Spans(raw, i, Lex(raw, i))
    decreases |raw| - i
  {
    if i < |raw| {
      if IsSpace(raw[i]) {
        LexSpans(raw, i + 1);
      } else {
        var t := LexemeAt(raw, i);
        LexSpans(raw, t.end);
        assert Lex(raw, i)[1..] == Lex(raw, t.end);
      }
    }
  }

  // ---------------------------------------------------------------- formula tokens

  predicate IsFormulaToken(text: string) {
    |text| >= 3 && (if text[0] == '<' then AngleEnd(text, 0) else BareEnd(text, 0)) == Some(|text|)
  }

  /** The characters `trim` removes. */
  predicate IsTrimmed(ch: char) {
    || '\t' <= ch <= '\r' || ch == ' ' || ch == '\U{00A0}' || ch == '\U{1680}'
    || '\U{2000}' <= ch <= '\U{200A}' || ch == '\U{2028}' || ch == '\U{2029}'
    || ch == '\U{202F}' || ch == '\U{205F}' || ch == '\U{3000}' || ch == '\U{FEFF}'
  }

  function TrimLeft(s: string): string {
    if s != "" && IsTrimmed(s[0]) then TrimLeft(s[1..]) else s
  }

  function TrimRight(s: string): string {
    if s != "" && IsTrimmed(s[|s| - 1]) then TrimRight(s[..|s| - 1]) else s
  }

  function Trim(s: string): string {
    TrimRight(TrimLeft(s))
  }

  /** The formula inside a formula token. */
  function FormulaBody(text: string): Option<string> {
    if !IsFormulaToken(text) then None
    else Some(if text[0] == '<' then Trim(text[1..|text| - 1]) else Trim(text))
  }

  /** The single-token spelling of a formula body. */
  function FormulaTokenText(body: string): string {
    var wrapped := "<" + body + ">";
    if FormulaBody(wrapped) == Some(body) then wrapped
    else if IsFormulaToken(body) then body else wrapped
  }

  // ---------------------------------------------------------------- re-quoting

  function IndexOf(text: string, ch: char): (r: Option<nat>)
    ensures r.Some? ==> r.value < |text| && text[r.value] == ch && ch !in text[..r.value]
    ensures r.None? ==> ch !in text
  {
    if text == "" then None
    else if text[0] == ch then Some(0)
    else
      match IndexOf(text[1..], ch)
      case None => None
      case Some(k) =>
        assert text[..k + 1] == [text[0]] + text[1..][..k];
        Some(k + 1)
  }

  predicate Spaced(text: string) {
    exists i :: 0 <= i < |text| && IsSpace(text[i])
  }

  /** Does the lexer give the text back as it stands? */
  predicate Relexes(text: string) {
    var tokens := Lex(text, 0);
    |tokens| == 1 && tokens[0].text == text
  }

  function QuoteToken(text: string): (q: string)
    ensures q != ""
  {
    if text == "" then [QUOTE, QUOTE]
    else if IsFormulaToken(text) then text
    else if !Spaced(text) && Relexes(text) then text
    else
      match IndexOf(text, '=')
      case Some(eq) =>
        if eq > 0 && !Spaced(text[..eq]) then text[..eq + 1] + [QUOTE] + text[eq + 1..] + [QUOTE]
        else [QUOTE] + text + [QUOTE]
      case None => [QUOTE] + text + [QUOTE]
  }

  function JoinTokens(texts: seq<string>): string {
    if texts == [] then ""
    else if |texts| == 1 then QuoteToken(texts[0])
    else QuoteToken(texts[0]) + " " + JoinTokens(texts[1..])
  }
}
