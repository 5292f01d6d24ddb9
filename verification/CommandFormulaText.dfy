/** A formula body, spelled as a token and read back, is the same body. */
module CommandFormulaText {
  import opened Util
  import opened CommandTokenizer
  import opened CommandRoundTrip

  // ---------------------------------------------------------------- trimming

  predicate AllTrimmed(s: string) {
    forall i :: 0 <= i < |s| ==> IsTrimmed(s[i])
  }

  /** Neither end of the text would be trimmed. */
  predicate Tight(s: string) {
    s == "" || (!IsTrimmed(s[0]) && !IsTrimmed(s[|s| - 1]))
  }

  lemma {:induction false} TrimLeftSplits(s: string) returns (front: string)
    ensures AllTrimmed(front) && s == front + TrimLeft(s)
    ensures TrimLeft(s) != "" ==> !IsTrimmed(TrimLeft(s)[0])
  {
    if s != "" && IsTrimmed(s[0]) {
      var rest := TrimLeftSplits(s[1..]);
      front := [s[0]] + rest;
    } else {
      front := "";
    }
  }

  lemma {:induction false} TrimRightSplits(s: string) returns (back: string)
    ensures AllTrimmed(back) && s == TrimRight(s) + back
    ensures TrimRight(s) != "" ==> !IsTrimmed(TrimRight(s)[|TrimRight(s)| - 1])
  {
    if s != "" && IsTrimmed(s[|s| - 1]) {
      var rest := TrimRightSplits(s[..|s| - 1]);
      back := rest + [s[|s| - 1]];
    } else {
      back := "";
    }
  }

  /** `trim` drops exactly the white space at both ends. */
  lemma TrimSplits(s: string) returns (front: string, back: string)
    ensures AllTrimmed(front) && AllTrimmed(back) && s == front + Trim(s) + back && Tight(Trim(s))
  {
    front := TrimLeftSplits(s);
    back := TrimRightSplits(TrimLeft(s));
    assert TrimLeft(s) == Trim(s) + back;
    assert s == front + Trim(s) + back;
    if Trim(s) != "" {
      assert Trim(s)[0] == TrimLeft(s)[0];
    }
  }

  lemma TightIsTrimmed(s: string)
    requires Tight(s)
    ensures Trim(s) == s
  {
  }

  // ---------------------------------------------------------------- white space is inert to the scans

  lemma {:induction false} InertBalanced(raw: string, i: nat, j: nat, angles: seq<nat>, parens: nat)
    requires i <= j <= |raw| && AllTrimmed(raw[i..j])
    ensures BalancedFrom(raw, i, angles, parens) == BalancedFrom(raw, j, angles, parens)
    decreases j - i
  {
    if i < j {
      assert raw[i] == raw[i..j][0];
      assert raw[i + 1..j] == raw[i..j][1..];
      InertBalanced(raw, i + 1, j, angles, parens);
    }
  }

  lemma {:induction false} InertFlat(raw: string, i: nat, j: nat, depth: int)
    requires i <= j <= |raw| && AllTrimmed(raw[i..j])
    ensures FlatFrom(raw, i, depth) == FlatFrom(raw, j, depth)
    decreases j - i
  {
    if i < j {
      assert raw[i] == raw[i..j][0];
      assert raw[i + 1..j] == raw[i..j][1..];
      InertFlat(raw, i + 1, j, depth);
    }
  }

  // ---------------------------------------------------------------- scans through a middle

  lemma ThroughCloses(p: string, b: string, s: string, angles: seq<nat>, parens: nat)
    requires BalancedFrom(b, 0, angles, parens).Some?
    ensures BalancedFrom(p + (b + s), |p|, angles, parens) == Some(|p| + BalancedFrom(b, 0, angles, parens).value)
  {
    ShiftBalanced(p, b + s, 0, angles, parens);
    StableBalanced(b, s, 0, angles, parens);
  }

  lemma ThroughPasses(p: string, b: string, s: string, angles: seq<nat>, parens: nat, a: seq<nat>, q: nat)
    requires angles != [] && BalancedFrom(b, 0, angles, parens) == None && AnglesAfter(b, 0, angles, parens) == (a, q)
    ensures a != [] && BalancedFrom(p + (b + s), |p|, angles, parens) == BalancedFrom(p + (b + s), |p| + |b|, a, q)
  {
    ResumeAngles(b, s, 0, angles, parens);
    ShiftBalanced(p, b + s, 0, angles, parens);
    ShiftBalanced(p, b + s, |b|, a, q);
  }

  function FlatAfter(raw: string, i: nat, depth: int): int
    decreases |raw| - i
  {
    if i >= |raw| then depth
    else FlatAfter(raw, i + 1, if raw[i] == '<' then depth + 1 else if raw[i] == '>' then depth - 1 else depth)
  }

  lemma {:induction false} ResumeFlat(raw: string, s: string, i: nat, depth: int)
    requires i <= |raw|
    ensures match FlatFrom(raw, i, depth)
            case Some(k) => FlatFrom(raw + s, i, depth) == Some(k)
            case None => FlatFrom(raw + s, i, depth) == FlatFrom(raw + s, |raw|, FlatAfter(raw, i, depth))
    decreases |raw| - i
  {
    if i < |raw| {
      assert (raw + s)[i] == raw[i];
      ResumeFlat(raw, s, i + 1, if raw[i] == '<' then depth + 1 else if raw[i] == '>' then depth - 1 else depth);
    }
  }

  lemma ThroughFlat(p: string, b: string, s: string, depth: int)
    ensures var raw := p + (b + s);
            match FlatFrom(b, 0, depth)
            case Some(k) => FlatFrom(raw, |p|, depth) == Some(|p| + k)
            case None => FlatFrom(raw, |p|, depth) == FlatFrom(raw, |p| + |b|, FlatAfter(b, 0, depth))
  {
    ShiftFlat(p, b + s, 0, depth);
    if FlatFrom(b, 0, depth) == None {
      FlatPasses(p, b, s, depth);
    } else {
      ResumeFlat(b, s, 0, depth);
    }
  }

  lemma FlatPasses(p: string, b: string, s: string, depth: int)
    requires FlatFrom(b, 0, depth) == None
    ensures FlatFrom(p + (b + s), |p|, depth) == FlatFrom(p + (b + s), |p| + |b|, FlatAfter(b, 0, depth))
  {
    ShiftFlat(p, b + s, 0, depth);
    ShiftFlat(p, b + s, |b|, FlatAfter(b, 0, depth));
    ResumeFlat(b, s, 0, depth);
  }

  /** Does a `>` right after `b` close an angle opened right before it? By which scan it says nothing. */
  ghost predicate ClosesBalanced(b: string) {
    BalancedFrom(b, 0, [0], 0) == None && AnglesAfter(b, 0, [0], 0).0 == [AnglesAfter(b, 0, [0], 0).1]
  }

  ghost predicate ClosesFlat(b: string) {
    FlatFrom(b, 0, 1) == None && FlatAfter(b, 0, 1) == 1
  }

  function Around(front: string, b: string, back: string): string {
    ("<" + front) + (b + (back + ">"))
  }

  /** The balanced scan of `<`, space, `b`, space, `>`. */
  lemma BalancedAround(front: string, b: string, back: string)
    requires AllTrimmed(front) && AllTrimmed(back)
    ensures match BalancedFrom(b, 0, [0], 0)
            case Some(k) => BalancedFrom(Around(front, b, back), 0, [], 0) == Some(1 + |front| + k)
            case None => BalancedFrom(Around(front, b, back), 0, [], 0)
                         == if ClosesBalanced(b) then Some(|Around(front, b, back)|) else None
  {
    var raw := Around(front, b, back);
    AngleStep(raw);
    assert raw[1..1 + |front|] == front;
    InertBalanced(raw, 1, 1 + |front|, [0], 0);
    if BalancedFrom(b, 0, [0], 0).Some? {
      ThroughCloses("<" + front, b, back + ">", [0], 0);
    } else {
      BalancedPasses(front, b, back);
    }
  }

  lemma BalancedPasses(front: string, b: string, back: string)
    requires AllTrimmed(back) && BalancedFrom(b, 0, [0], 0) == None
    ensures BalancedFrom(Around(front, b, back), 1 + |front|, [0], 0)
         == if ClosesBalanced(b) then Some(|Around(front, b, back)|) else None
  {
    var raw := Around(front, b, back);
    var (a, q) := AnglesAfter(b, 0, [0], 0);
    ThroughPasses("<" + front, b, back + ">", [0], 0, a, q);
    AroundEnd(front, b, back);
    InertBalanced(raw, 1 + |front| + |b|, |raw| - 1, a, q);
    LastAngle(raw, a, q);
  }

  lemma AroundEnd(front: string, b: string, back: string)
    ensures var raw := Around(front, b, back);
            && |raw| == |front| + |b| + |back| + 2
            && raw[1 + |front| + |b|..|raw| - 1] == back && raw[|raw| - 1] == '>'
  {
  }

  lemma LastAngle(raw: string, angles: seq<nat>, parens: nat)
    requires raw != "" && raw[|raw| - 1] == '>' && angles != []
    ensures BalancedFrom(raw, |raw| - 1, angles, parens) == if angles == [parens] then Some(|raw|) else None
  {
    assert BalancedFrom(raw, |raw|, angles, parens) == None;
    if angles[|angles| - 1] == parens && |angles| > 1 {
      assert BalancedFrom(raw, |raw|, angles[..|angles| - 1], parens) == None;
    }
  }

  lemma FlatAround(front: string, b: string, back: string)
    requires AllTrimmed(front) && AllTrimmed(back)
    ensures match FlatFrom(b, 0, 1)
            case Some(k) => FlatFrom(Around(front, b, back), 0, 0) == Some(1 + |front| + k)
            case None => FlatFrom(Around(front, b, back), 0, 0)
                         == if ClosesFlat(b) then Some(|Around(front, b, back)|) else None
  {
    var raw := Around(front, b, back);
    assert raw[0] == '<';
    assert FlatFrom(raw, 0, 0) == FlatFrom(raw, 1, 1);
    assert raw[1..1 + |front|] == front;
    InertFlat(raw, 1, 1 + |front|, 1);
    ThroughFlat("<" + front, b, back + ">", 1);
    if FlatFrom(b, 0, 1) == None {
      FlatEnd(front, b, back, FlatAfter(b, 0, 1));
    }
  }

  lemma FlatEnd(front: string, b: string, back: string, d: int)
    requires AllTrimmed(back)
    ensures FlatFrom(Around(front, b, back), 1 + |front| + |b|, d)
         == if d == 1 then Some(|Around(front, b, back)|) else None
  {
    var raw := Around(front, b, back);
    AroundEnd(front, b, back);
    InertFlat(raw, 1 + |front| + |b|, |raw| - 1, d);
    assert FlatFrom(raw, |raw|, d - 1) == None;
  }

  /** The body of an angle token can be wrapped again, however it was spaced. */
  lemma WrappedIsFormula(front: string, b: string, back: string)
    requires AllTrimmed(front) && AllTrimmed(back) && b != ""
    requires IsFormulaToken("<" + front + b + back + ">")
    ensures IsFormulaToken("<" + b + ">")
  {
    BalancedAround(front, b, back);
    FlatAround(front, b, back);
    BalancedAround("", b, "");
    FlatAround("", b, "");
    assert Around("", b, "") == "<" + b + ">";
    assert Around(front, b, back) == "<" + front + b + back + ">";
  }

  /** A formula token's body, spelled as a token, reads back as the same body. */
  lemma FormulaBodyRoundTrip(text: string)
    requires FormulaBody(text).Some? && FormulaBody(text).value != ""
    ensures var body := FormulaBody(text).value;
            FormulaBody(FormulaTokenText(body)) == Some(body)
  {
    var body := FormulaBody(text).value;
    if text[0] == '<' {
      var front, back := TrimSplits(text[1..|text| - 1]);
      assert text[|text| - 1] == '>';
      assert text == "<" + front + body + back + ">";
      WrappedIsFormula(front, body, back);
      var wrapped := "<" + body + ">";
      assert wrapped[1..|wrapped| - 1] == body;
      TightIsTrimmed(body);
    } else {
      assert HasHead(text, 0) && text[|text| - 1] == ')';
      TightIsTrimmed(text);
    }
  }
}
