/**
 * Where the command line's tokens end, said of the text: which bracket closes, what a head is, which quotes are
 * open, and what `trim` leaves.
 */
module TokenizerLaws {
  import opened Util
  import opened CommandTokenizer

  // ---------------------------------------------------------------- counting

  /** How often a character stands in `[i, j)`. */
  function Count(raw: string, c: char, i: nat, j: nat): nat {
    if j <= i || j > |raw| then 0 else Count(raw, c, i, j - 1) + if raw[j - 1] == c then 1 else 0
  }

  lemma {:induction false} CountFrom(raw: string, c: char, i: nat, j: nat)
    requires i < j <= |raw|
    ensures Count(raw, c, i, j) == (if raw[i] == c then 1 else 0) + Count(raw, c, i + 1, j)
  {
    if i + 1 < j {
      CountFrom(raw, c, i, j - 1);
    }
  }

  /** The first index past a `close` at which as many have closed as opened, counted from `i` with `depth` open. */
  predicate Closes(raw: string, open: char, close: char, i: nat, depth: int, r: nat) {
    && i < r <= |raw| && raw[r - 1] == close
    && depth + Count(raw, open, i, r) == Count(raw, close, i, r)
  }

  predicate ClosesFirst(raw: string, open: char, close: char, i: nat, depth: int, r: nat) {
    Closes(raw, open, close, i, depth, r) && forall k :: i < k < r ==> !Closes(raw, open, close, i, depth, k)
  }

  /** How many are open behind a character. */
  function Next(c: char, open: char, close: char, depth: int): int {
    if c == open then depth + 1 else if c == close then depth - 1 else depth
  }

  lemma ClosesStep(raw: string, open: char, close: char, i: nat, depth: int, next: int, r: nat)
    requires i < |raw| && i + 1 < r && open != close && next == Next(raw[i], open, close, depth)
    ensures Closes(raw, open, close, i, depth, r) <==> Closes(raw, open, close, i + 1, next, r)
  {
    if r <= |raw| {
      CountFrom(raw, open, i, r);
      CountFrom(raw, close, i, r);
    }
  }

  lemma ClosesHere(raw: string, open: char, close: char, i: nat, depth: int)
    requires i < |raw| && open != close
    ensures Closes(raw, open, close, i, depth, i + 1) <==> raw[i] == close && depth == 1
  {
    CountFrom(raw, open, i, i + 1);
    CountFrom(raw, close, i, i + 1);
  }

  lemma FirstStep(raw: string, open: char, close: char, i: nat, depth: int, next: int, r: nat)
    requires i < |raw| && open != close && !(raw[i] == close && depth == 1)
    requires next == Next(raw[i], open, close, depth)
    ensures ClosesFirst(raw, open, close, i, depth, r) <==> ClosesFirst(raw, open, close, i + 1, next, r)
  {
    ClosesHere(raw, open, close, i, depth);
    if i + 1 < r {
      ClosesStep(raw, open, close, i, depth, next, r);
      if ClosesFirst(raw, open, close, i, depth, r) {
        var after := i + 1;
        forall k: nat | after < k < r
          ensures !Closes(raw, open, close, after, next, k)
        {
          ClosesStep(raw, open, close, i, depth, next, k);
        }
      }
      if ClosesFirst(raw, open, close, i + 1, next, r) {
        forall k: nat | i < k < r
          ensures !Closes(raw, open, close, i, depth, k)
        {
          if i + 1 < k {
            ClosesStep(raw, open, close, i, depth, next, k);
          }
        }
      }
    }
  }

  /** Without regard to parentheses, `<` is closed where the angle brackets first balance. */
  lemma {:induction false} FlatExactly(raw: string, i: nat, depth: int, r: nat)
    ensures FlatFrom(raw, i, depth) == Some(r) <==> ClosesFirst(raw, '<', '>', i, depth, r)
    decreases |raw| - i
  {
    if i < |raw| {
      ClosesHere(raw, '<', '>', i, depth);
      if !(raw[i] == '>' && depth == 1) {
        var next := Next(raw[i], '<', '>', depth);
        FirstStep(raw, '<', '>', i, depth, next, r);
        FlatExactly(raw, i + 1, next, r);
      }
    }
  }

  /** A parenthesis is closed where the parentheses first balance. */
  lemma {:induction false} ParensExactly(raw: string, i: nat, depth: int, r: nat)
    ensures ParensFrom(raw, i, depth) == Some(r) <==> ClosesFirst(raw, '(', ')', i, depth, r)
    decreases |raw| - i
  {
    if i < |raw| {
      ClosesHere(raw, '(', ')', i, depth);
      if !(raw[i] == ')' && depth == 1) {
        var next := Next(raw[i], '(', ')', depth);
        FirstStep(raw, '(', ')', i, depth, next, r);
        ParensExactly(raw, i + 1, next, r);
      }
    }
  }

  /** One to 32 letters and an opening parenthesis. */
  predicate IsHead(raw: string, from: nat, n: nat) {
    && 1 <= n <= 32 && from + n < |raw| && raw[from + n] == '('
    && forall k :: from <= k < from + n ==> 'A' <= raw[k] <= 'Z' || 'a' <= raw[k] <= 'z'
  }

  lemma {:induction false} LettersUpTo(raw: string, i: nat, j: nat)
    requires i <= j <= |raw| && (forall k :: i <= k < j ==> IsLetter(raw[k])) && (j < |raw| ==> !IsLetter(raw[j]))
    ensures LettersEnd(raw, i) == j
    decreases j - i
  {
    if i < j {
      LettersUpTo(raw, i + 1, j);
    }
  }

  /** A bare formula is a head, and runs to where the parentheses first balance. */
  lemma BareExactly(raw: string, from: nat, r: nat)
    ensures BareEnd(raw, from) == Some(r) <==>
              exists n :: IsHead(raw, from, n) && ClosesFirst(raw, '(', ')', from + n, 0, r)
  {
    var h := LettersEnd(raw, from);
    if n: nat :| IsHead(raw, from, n) && ClosesFirst(raw, '(', ')', from + n, 0, r) {
      LettersUpTo(raw, from, from + n);
    }
    if HasHead(raw, from) {
      assert IsHead(raw, from, h - from);
      ParensExactly(raw, h, 0, r);
    }
  }

  // ---------------------------------------------------------------- properly nested formulas

  /** A text of properly nested brackets; directly inside parentheses a `>` is an ordinary character. */
  datatype Item = Plain(c: char) | Greater | Paren(items: seq<Item>) | Angle(items: seq<Item>)

  predicate Nested(items: seq<Item>, inParen: bool) {
    forall x :: x in items ==> NestedItem(x, inParen)
  }

  predicate NestedItem(x: Item, inParen: bool) {
    match x
    case Plain(c) => c !in "<>()"
    case Greater => inParen
    case Paren(items) => forall y :: y in items ==> NestedItem(y, true)
    case Angle(items) => forall y :: y in items ==> NestedItem(y, false)
  }

  function TextOf(items: seq<Item>): string {
    if items == [] then "" else ItemText(items[0]) + TextOf(items[1..])
  }

  function ItemText(x: Item): (t: string)
    ensures t != ""
  {
    match x
    case Plain(c) => [c]
    case Greater => ">"
    case Paren(items) => "(" + TextOf(items) + ")"
    case Angle(items) => "<" + TextOf(items) + ">"
  }

  /** Some bracket is open, none from deeper parentheses, and the last not from here when directly inside some. */
  predicate Fits(angles: seq<nat>, parens: nat, inParen: bool) {
    && angles != [] && (forall k :: 0 <= k < |angles| ==> angles[k] <= parens)
    && (inParen ==> angles[|angles| - 1] < parens)
  }

  /** A character that is no bracket, or a `>` that closes nothing. */
  lemma OverPlain(raw: string, i: nat, c: char, angles: seq<nat>, parens: nat)
    requires LiesAt(raw, i, [c]) && angles != []
    requires c !in "<>()" || (c == '>' && angles[|angles| - 1] != parens)
    ensures BalancedFrom(raw, i, angles, parens) == BalancedFrom(raw, i + 1, angles, parens)
  {
    assert raw[i] == raw[i..i + 1][0];
  }

  /** The scan runs over nested text with its state unchanged. */
  lemma {:induction false} RunsOver(raw: string, i: nat, items: seq<Item>, angles: seq<nat>, parens: nat, inParen: bool)
    requires LiesAt(raw, i, TextOf(items)) && Nested(items, inParen)
    requires Fits(angles, parens, inParen)
    ensures BalancedFrom(raw, i, angles, parens) == BalancedFrom(raw, i + |TextOf(items)|, angles, parens)
    decreases items, 0
  {
    if items != [] {
      var first, rest := ItemText(items[0]), TextOf(items[1..]);
      LiesApart(raw, i, first, rest);
      RunsOverItem(raw, i, items[0], angles, parens, inParen);
      RunsOver(raw, i + |first|, items[1..], angles, parens, inParen);
      assert i + |first| + |rest| == i + |TextOf(items)|;
    }
  }

  lemma {:induction false} RunsOverItem(raw: string, i: nat, x: Item, angles: seq<nat>, parens: nat, inParen: bool)
    requires LiesAt(raw, i, ItemText(x)) && NestedItem(x, inParen)
    requires Fits(angles, parens, inParen)
    ensures BalancedFrom(raw, i, angles, parens) == BalancedFrom(raw, i + |ItemText(x)|, angles, parens)
    decreases x, 1
  {
    match x
    case Plain(c) => OverPlain(raw, i, c, angles, parens);
    case Greater => OverPlain(raw, i, '>', angles, parens);
    case Paren(items) =>
      var inner := TextOf(items);
      Enclosed(raw, i, '(', inner, ')');
      RunsOver(raw, i + 1, items, angles, parens + 1, true);
      OverParen(raw, i, i + 1 + |inner|, angles, parens);
    case Angle(items) =>
      var inner := TextOf(items);
      Enclosed(raw, i, '<', inner, '>');
      RunsOver(raw, i + 1, items, angles + [parens], parens, false);
      OverAngle(raw, i, i + 1 + |inner|, angles, parens);
  }

  lemma Enclosed(raw: string, i: nat, open: char, inner: string, close: char)
    requires LiesAt(raw, i, [open] + inner + [close])
    ensures i + 1 + |inner| < |raw| && raw[i] == open && LiesAt(raw, i + 1, inner) && raw[i + 1 + |inner|] == close
  {
    LiesApart(raw, i, [open] + inner, [close]);
    LiesApart(raw, i, [open], inner);
    assert raw[i] == raw[i..i + 1][0];
    assert raw[i + 1 + |inner|] == raw[i + 1 + |inner|..i + 1 + |inner| + 1][0];
  }

  /** Over the bracket at `i` and the one at `j` that closes it, when the scan runs over what is between. */
  lemma OverParen(raw: string, i: nat, j: nat, angles: seq<nat>, parens: nat)
    requires i < j < |raw| && raw[i] == '(' && raw[j] == ')'
    requires BalancedFrom(raw, i + 1, angles, parens + 1) == BalancedFrom(raw, j, angles, parens + 1)
    ensures BalancedFrom(raw, i, angles, parens) == BalancedFrom(raw, j + 1, angles, parens)
  {
  }

  lemma OverAngle(raw: string, i: nat, j: nat, angles: seq<nat>, parens: nat)
    requires i < j < |raw| && raw[i] == '<' && raw[j] == '>' && angles != []
    requires BalancedFrom(raw, i + 1, angles + [parens], parens) == BalancedFrom(raw, j, angles + [parens], parens)
    ensures BalancedFrom(raw, i, angles, parens) == BalancedFrom(raw, j + 1, angles, parens)
  {
    assert (angles + [parens])[..|angles|] == angles;
  }

  /** A properly nested formula in angle brackets is one token, whatever comes after it. */
  lemma NestedIsOneToken(raw: string, i: nat, items: seq<Item>)
    requires Nested(items, false) && LiesAt(raw, i, ItemText(Angle(items)))
    ensures var t := ItemText(Angle(items));
            i < |raw| && !IsSpace(raw[i]) && LexemeAt(raw, i) == Token(t, i, i + |t|)
  {
    Enclosed(raw, i, '<', TextOf(items), '>');
    RunsOver(raw, i + 1, items, [0], 0, false);
    assert [] + [0] == [0 as nat];
  }

  /**
   * An opening bracket whose parenthesis is never closed closes where the angle brackets alone first balance: up to
   * the end the careful scan finds nothing.
   */
  lemma UnclosedFallsBack(raw: string, items: seq<Item>, more: seq<Item>, r: nat)
    requires Nested(items, false) && Nested(more, true)
    requires raw == "<" + TextOf(items) + "(" + TextOf(more)
    ensures AngleEnd(raw, 0) == Some(r) <==> ClosesFirst(raw, '<', '>', 0, 0, r)
  {
    TwoParts(raw, TextOf(items), TextOf(more));
    NeverBalanced(raw, 1 + |TextOf(items)|, items, more);
    FlatExactly(raw, 0, 0, r);
  }

  lemma NeverBalanced(raw: string, n: nat, items: seq<Item>, more: seq<Item>)
    requires Nested(items, false) && Nested(more, true) && n == 1 + |TextOf(items)|
    requires n < |raw| && raw[0] == '<' && raw[n] == '('
    requires LiesAt(raw, 1, TextOf(items)) && LiesAt(raw, n + 1, TextOf(more)) && |raw| == n + 1 + |TextOf(more)|
    ensures BalancedFrom(raw, 0, [], 0) == None
  {
    Opened(raw, n);
    RunsOver(raw, 1, items, [0], 0, false);
    RunsOver(raw, n + 1, more, [0], 1, true);
  }

  lemma TwoParts(raw: string, a: string, b: string)
    requires raw == "<" + a + "(" + b
    ensures |raw| == |a| + |b| + 2 && raw[0] == '<' && raw[1 + |a|] == '('
    ensures LiesAt(raw, 1, a) && LiesAt(raw, |a| + 2, b)
  {
    assert raw[1..1 + |a|] == a;
    assert raw[|a| + 2..] == b;
  }

  lemma Opened(raw: string, n: nat)
    requires 0 < n < |raw| && raw[0] == '<' && raw[n] == '('
    ensures BalancedFrom(raw, 0, [], 0) == BalancedFrom(raw, 1, [0], 0)
    ensures BalancedFrom(raw, n, [0], 0) == BalancedFrom(raw, n + 1, [0], 1)
    ensures BalancedFrom(raw, |raw|, [0], 1) == None
  {
    assert [] + [0] == [0 as nat];
  }

  // ---------------------------------------------------------------- ordinary tokens

  /** The text without its quotes. */
  function Unquoted(s: string): string {
    if s == "" then "" else (if s[0] == '"' then "" else [s[0]]) + Unquoted(s[1..])
  }

  /** A space or a tab with no quote open, or the end. */
  predicate Breaks(raw: string, i: nat, e: nat, inQuote: bool) {
    || e == |raw|
    || (e < |raw| && (raw[e] == ' ' || raw[e] == '\t') && (Count(raw, '"', i, e) % 2 == 1 <==> inQuote))
  }

  lemma BreaksStep(raw: string, i: nat, e: nat, inQuote: bool)
    requires i < e <= |raw|
    ensures Breaks(raw, i, e, inQuote) <==> Breaks(raw, i + 1, e, if raw[i] == '"' then !inQuote else inQuote)
  {
    CountFrom(raw, '"', i, e);
  }

  /** An ordinary token runs to the first break, and is what stands there without its quotes. */
  lemma {:induction false} OrdinaryExactly(raw: string, i: nat, inQuote: bool)
    requires i <= |raw|
    ensures var (text, e) := OrdinaryFrom(raw, i, inQuote);
            && Breaks(raw, i, e, inQuote) && (forall k :: i <= k < e ==> !Breaks(raw, i, k, inQuote))
            && text == Unquoted(raw[i..e])
    decreases |raw| - i
  {
    if i < |raw| && (raw[i] == QUOTE || inQuote || !IsSpace(raw[i])) {
      var next := if raw[i] == '"' then !inQuote else inQuote;
      var (text, e) := OrdinaryFrom(raw, i + 1, next);
      OrdinaryExactly(raw, i + 1, next);
      assert raw[i..e] == [raw[i]] + raw[i + 1..e];
      BreaksStep(raw, i, e, inQuote);
      NoneBefore(raw, i, i + 1, e, inQuote, next);
    }
  }

  lemma NoneBefore(raw: string, i: nat, after: nat, e: nat, inQuote: bool, next: bool)
    requires i < e <= |raw| && after == i + 1 && !Breaks(raw, i, i, inQuote)
    requires next == if raw[i] == '"' then !inQuote else inQuote
    requires forall k :: after <= k < e ==> !Breaks(raw, after, k, next)
    ensures forall k :: i <= k < e ==> !Breaks(raw, i, k, inQuote)
  {
    forall k: nat | i <= k < e
      ensures !Breaks(raw, i, k, inQuote)
    {
      if i < k {
        BreaksStep(raw, i, k, inQuote);
      }
    }
  }

  /**
   * The token at a character that is neither a space nor a tab: a formula in angle brackets, or else a bare one, to
   * where it closes; an ordinary token when neither closes.
   */
  lemma TokenExactly(raw: string, i: nat)
    requires i < |raw| && raw[i] != ' ' && raw[i] != '\t'
    ensures var t := LexemeAt(raw, i);
            && Lex(raw, i) == [t] + Lex(raw, t.end) && t.start == i
            && (if raw[i] == '<' && AngleEnd(raw, i).Some? then t.end == AngleEnd(raw, i).value
                else if BareEnd(raw, i).Some? then t.end == BareEnd(raw, i).value
                else Breaks(raw, i, t.end, false) && forall k :: i <= k < t.end ==> !Breaks(raw, i, k, false))
            && t.text == (if FormulaEnd(raw, i).Some? then raw[i..t.end] else Unquoted(raw[i..t.end]))
  {
    OrdinaryExactly(raw, i, false);
  }

  // ---------------------------------------------------------------- trimming

  /** What counts as blank there, by code point. */
  lemma BlanksAre(ch: char)
    ensures IsTrimmed(ch) <==>
              || ch as int in {9, 10, 11, 12, 13, 32, 160, 5760, 8232, 8233, 8239, 8287, 12288, 65279}
              || 8192 <= ch as int <= 8202
  {
  }

  predicate Blank(s: string) {
    forall k :: 0 <= k < |s| ==> IsTrimmed(s[k])
  }

  lemma {:induction false} TrimLeftIs(s: string) returns (a: string)
    ensures s == a + TrimLeft(s) && Blank(a)
    ensures TrimLeft(s) == "" || !IsTrimmed(TrimLeft(s)[0])
  {
    a := "";
    if s != "" && IsTrimmed(s[0]) {
      var b := TrimLeftIs(s[1..]);
      a := [s[0]] + b;
      assert s == [s[0]] + s[1..];
    }
  }

  lemma {:induction false} TrimRightIs(s: string) returns (b: string)
    ensures s == TrimRight(s) + b && Blank(b)
    ensures TrimRight(s) == "" || !IsTrimmed(TrimRight(s)[|TrimRight(s)| - 1])
  {
    b := "";
    if s != "" && IsTrimmed(s[|s| - 1]) {
      var n := |s| - 1;
      var a := TrimRightIs(s[..n]);
      b := a + [s[n]];
      assert s == s[..n] + [s[n]];
    }
  }

  /** Trimming takes blanks off both ends and leaves none there. */
  lemma TrimIs(s: string) returns (a: string, b: string)
    ensures s == a + Trim(s) + b && Blank(a) && Blank(b)
    ensures Trim(s) != "" ==> !IsTrimmed(Trim(s)[0]) && !IsTrimmed(Trim(s)[|Trim(s)| - 1])
  {
    a := TrimLeftIs(s);
    b := TrimRightIs(TrimLeft(s));
    assert s == a + Trim(s) + b;
    if Trim(s) != "" {
      assert Trim(s)[0] == TrimLeft(s)[0];
    }
  }
}
