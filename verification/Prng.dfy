/** The seeded generator: a linear bijection of four 32-bit words, its jump, and unbiased integers. */
module Prng {
  import opened Util

  type Word = bv32

  datatype State = State(s0: Word, s1: Word, s2: Word, s3: Word)

  const Zero := State(0, 0, 0, 0)

  // ---------------------------------------------------------------- operations on one word

  function XorWord(a: Word, b: Word): Word {
    a ^ b
  }

  function Shl9(x: Word): Word {
    x << 9
  }

  function Rotl7(x: Word): Word {
    (x << 7) | (x >> 25)
  }

  function Rotl11(x: Word): Word {
    (x << 11) | (x >> 21)
  }

  function Rotr7(x: Word): Word {
    (x >> 7) | (x << 25)
  }

  function Rotr11(x: Word): Word {
    (x >> 11) | (x << 21)
  }

  function Times5(x: Word): Word {
    x * 5
  }

  function Times9(x: Word): Word {
    x * 9
  }

  function Over5(x: Word): Word {
    x * 0xcccccccd
  }

  function Over9(x: Word): Word {
    x * 0x38e38e39
  }

  function Scramble(x: Word): Word {
    Times9(Rotl7(Times5(x)))
  }

  function Unscramble(x: Word): Word {
    Over5(Rotr7(Over9(x)))
  }

  /** Undoes `x ^ (x << 9)`. */
  function Unshift(y: Word): Word {
    XorWord(y, XorWord(Shl9(y), XorWord(Shl9(Shl9(y)), Shl9(Shl9(Shl9(y))))))
  }

  lemma XorCommutes(a: Word, b: Word)
    ensures XorWord(a, b) == XorWord(b, a)
  {
  }

  lemma XorRegroup(a: Word, b: Word, c: Word)
    ensures XorWord(XorWord(a, b), c) == XorWord(a, XorWord(b, c))
  {
  }

  lemma XorSwap(x: Word, y: Word, z: Word, w: Word)
    ensures XorWord(XorWord(x, y), XorWord(z, w)) == XorWord(XorWord(x, z), XorWord(y, w))
  {
    XorRegroup(XorWord(x, y), z, w);
    XorRegroup(x, y, z);
    XorCommutes(y, z);
    XorRegroup(x, z, y);
    XorRegroup(XorWord(x, z), y, w);
  }

  lemma XorCancels(a: Word, b: Word)
    ensures XorWord(XorWord(a, b), b) == a && XorWord(a, XorWord(b, a)) == b && XorWord(a, XorWord(a, b)) == b
  {
  }

  lemma XorThrough(a: Word, b: Word, c: Word)
    ensures XorWord(XorWord(a, b), XorWord(b, c)) == XorWord(a, c) && XorWord(XorWord(a, b), a) == b
  {
    XorRegroup(XorWord(a, b), b, c);
    XorCancels(a, b);
    XorCommutes(XorWord(a, b), a);
  }

  lemma RotationIsLinear(x: Word, y: Word)
    ensures Rotl11(XorWord(x, y)) == XorWord(Rotl11(x), Rotl11(y))
  {
  }

  lemma ShiftIsLinear(x: Word, y: Word)
    ensures Shl9(XorWord(x, y)) == XorWord(Shl9(x), Shl9(y))
  {
  }

  lemma RotationUndone(x: Word)
    ensures Rotr11(Rotl11(x)) == x && Rotl11(Rotr11(x)) == x
  {
  }

  lemma FourShiftsEmpty(x: Word)
    ensures Shl9(Shl9(Shl9(Shl9(x)))) == 0
  {
    assert (((x << 9) << 9) << 9) << 9 == 0;
  }

  lemma XorZero(x: Word)
    ensures XorWord(x, 0) == x
  {
  }

  lemma ShiftIsUndone(x: Word)
    ensures Unshift(XorWord(x, Shl9(x))) == x && XorWord(Unshift(x), Shl9(Unshift(x))) == x
  {
    var x1 := Shl9(x);
    var x2 := Shl9(x1);
    var x3 := Shl9(x2);
    FourShiftsEmpty(x);
    XorZero(x3);
    ShiftIsLinear(x2, x3);
    ShiftIsLinear(x1, x2);
    ShiftIsLinear(x, x1);
    XorThrough(x2, x3, 0);
    XorThrough(x1, x2, x3);
    XorThrough(x, x1, x2);
    XorThrough(x1, x2, 0);
    XorThrough(x, x1, 0);
    XorZero(x2);
    XorZero(x1);
    XorZero(x);
    ShiftIsLinear(x, XorWord(x1, XorWord(x2, x3)));
    ShiftIsLinear(x1, XorWord(x2, x3));
    XorCancels(x, XorWord(x1, XorWord(x2, x3)));
  }

  lemma Rotation7Undone(x: Word)
    ensures Rotr7(Rotl7(x)) == x && Rotl7(Rotr7(x)) == x
  {
  }

  lemma FactorsUndone(x: Word)
    ensures Over9(Times9(x)) == x && Times9(Over9(x)) == x && Over5(Times5(x)) == x && Times5(Over5(x)) == x
  {
  }

  /** Every word is drawn from exactly one value of the second word of the state. */
  lemma ScrambleIsBijective(x: Word)
    ensures Unscramble(Scramble(x)) == x && Scramble(Unscramble(x)) == x
  {
    FactorsUndone(Rotl7(Times5(x)));
    Rotation7Undone(Times5(x));
    FactorsUndone(x);
    Rotation7Undone(Over9(x));
    FactorsUndone(Rotr7(Over9(x)));
  }

  // ---------------------------------------------------------------- the step is a linear bijection

  function Xor(a: State, b: State): State {
    State(XorWord(a.s0, b.s0), XorWord(a.s1, b.s1), XorWord(a.s2, b.s2), XorWord(a.s3, b.s3))
  }

  /** The word drawn from a state. */
  function Drawn(s: State): Word {
    Scramble(s.s1)
  }

  /** The state after a draw. */
  function Step(s: State): State {
    var s2 := XorWord(s.s2, s.s0);
    var s3 := XorWord(s.s3, s.s1);
    State(XorWord(s.s0, s3), XorWord(s.s1, s2), XorWord(s2, Shl9(s.s1)), Rotl11(s3))
  }

  function Run(s: State, n: nat): State {
    if n == 0 then s else Step(Run(s, n - 1))
  }

  /** The state a step came from. */
  function Unstep(s: State): State {
    var s3 := Rotr11(s.s3);
    var s0 := XorWord(s.s0, s3);
    var s1 := Unshift(XorWord(s.s1, s.s2));
    State(s0, s1, XorWord(XorWord(s.s1, s1), s0), XorWord(s3, s1))
  }

  lemma StepIsUndone(s: State)
    ensures Unstep(Step(s)) == s
  {
    var m, w := XorWord(s.s2, s.s0), XorWord(s.s3, s.s1);
    RotationUndone(w);
    XorCancels(s.s0, w);
    XorThrough(s.s1, m, Shl9(s.s1));
    ShiftIsUndone(s.s1);
    XorCancels(s.s2, s.s0);
    XorCancels(s.s3, s.s1);
  }

  lemma StepUndoes(s: State)
    ensures Step(Unstep(s)) == s
  {
    var w, y := Rotr11(s.s3), XorWord(s.s1, s.s2);
    var u0, u1 := XorWord(s.s0, w), Unshift(y);
    XorCancels(w, u1);
    RotationUndone(s.s3);
    XorCancels(s.s0, w);
    XorCancels(XorWord(s.s1, u1), u0);
    XorCancels(u1, s.s1);
    XorRegroup(s.s1, u1, Shl9(u1));
    ShiftIsUndone(y);
    XorCancels(s.s1, s.s2);
  }

  lemma StepIsBijective(s: State)
    ensures Unstep(Step(s)) == s && Step(Unstep(s)) == s
  {
    StepIsUndone(s);
    StepUndoes(s);
  }

  lemma StepIsLinear(a: State, b: State)
    ensures Step(Xor(a, b)) == Xor(Step(a), Step(b))
  {
    XorSwap(a.s3, b.s3, a.s1, b.s1);
    XorSwap(a.s2, b.s2, a.s0, b.s0);
    XorSwap(a.s0, b.s0, XorWord(a.s3, a.s1), XorWord(b.s3, b.s1));
    XorSwap(a.s1, b.s1, XorWord(a.s2, a.s0), XorWord(b.s2, b.s0));
    XorSwap(XorWord(a.s2, a.s0), XorWord(b.s2, b.s0), Shl9(a.s1), Shl9(b.s1));
    RotationIsLinear(XorWord(a.s3, a.s1), XorWord(b.s3, b.s1));
    ShiftIsLinear(a.s1, b.s1);
  }

  lemma {:induction false} RunIsLinear(a: State, b: State, n: nat)
    ensures Run(Xor(a, b), n) == Xor(Run(a, n), Run(b, n))
  {
    if n > 0 {
      RunIsLinear(a, b, n - 1);
      StepIsLinear(Run(a, n - 1), Run(b, n - 1));
    }
  }

  /** However many draws, a state is all zero only when it started so; and different states stay different. */
  lemma {:induction false} NeverZero(s: State, n: nat)
    ensures Run(s, n) == Zero <==> s == Zero
  {
    if n > 0 {
      NeverZero(s, n - 1);
      StepIsBijective(Run(s, n - 1));
      StepIsBijective(Zero);
    }
  }

  lemma {:induction false} RunIsInjective(a: State, b: State, n: nat)
    requires Run(a, n) == Run(b, n)
    ensures a == b
  {
    if n > 0 {
      StepIsBijective(Run(a, n - 1));
      StepIsBijective(Run(b, n - 1));
      RunIsInjective(a, b, n - 1);
    }
  }

  lemma {:induction false} RunAfterStep(s: State, n: nat)
    ensures Run(Step(s), n) == Step(Run(s, n))
  {
    if n > 0 {
      RunAfterStep(s, n - 1);
    }
  }

  // ---------------------------------------------------------------- what draws tell

  /** Undoing the scramble gives back the state's second word. */
  lemma DrawTellsSecondWord(s: State)
    ensures Unscramble(Drawn(s)) == s.s1
  {
    ScrambleIsBijective(s.s1);
  }

  /** Two states with the same second word before and after a step agree on what the step adds to it. */
  lemma SecondWordTells(a: State, b: State)
    requires a.s1 == b.s1 && Step(a).s1 == Step(b).s1
    ensures XorWord(a.s2, a.s0) == XorWord(b.s2, b.s0)
  {
    XorCancels(a.s1, XorWord(a.s2, a.s0));
    XorCancels(a.s1, XorWord(b.s2, b.s0));
    XorCommutes(a.s1, XorWord(a.s2, a.s0));
    XorCommutes(a.s1, XorWord(b.s2, b.s0));
  }

  lemma SameSum(x: Word, y: Word, z: Word)
    requires XorWord(x, z) == XorWord(y, z) || XorWord(z, x) == XorWord(z, y)
    ensures x == y
  {
    XorCommutes(x, z);
    XorCommutes(y, z);
    XorCancels(x, z);
    XorCancels(y, z);
  }

  /** Three second words in a row tell the first word after one step. */
  lemma FirstWordTold(a: State, b: State)
    requires a.s1 == b.s1 && Step(a).s1 == Step(b).s1 && Step(Step(a)).s1 == Step(Step(b)).s1
    ensures Step(a).s0 == Step(b).s0 && Step(a).s2 == Step(b).s2
  {
    SecondWordTells(a, b);
    SecondWordTells(Step(a), Step(b));
    SameSum(Step(a).s0, Step(b).s0, Step(a).s2);
  }

  lemma FourthWordTold(a: State, b: State)
    requires a.s0 == b.s0 && a.s1 == b.s1 && Step(a).s0 == Step(b).s0
    ensures a.s3 == b.s3
  {
    SameSum(XorWord(a.s3, a.s1), XorWord(b.s3, b.s1), a.s0);
    SameSum(a.s3, b.s3, a.s1);
  }

  lemma FourWordsTell(a: State, b: State, a1: State, b1: State, a2: State, b2: State)
    requires a1 == Step(a) && b1 == Step(b) && a2 == Step(a1) && b2 == Step(b1)
    requires a.s1 == b.s1 && a1.s1 == b1.s1 && a2.s1 == b2.s1 && Step(a2).s1 == Step(b2).s1
    ensures a == b
  {
    FirstWordTold(a, b);
    FirstWordTold(a1, b1);
    FourthWordTold(a1, b1);
    StepIsBijective(a);
    StepIsBijective(b);
  }

  /** Four draws in a row come from one state only. */
  lemma FourDrawsTellTheState(a: State, b: State)
    requires forall k :: 0 <= k < 4 ==> Drawn(Run(a, k)) == Drawn(Run(b, k))
    ensures a == b
  {
    SameSecondWord(Run(a, 0), Run(b, 0));
    SameSecondWord(Run(a, 1), Run(b, 1));
    SameSecondWord(Run(a, 2), Run(b, 2));
    SameSecondWord(Run(a, 3), Run(b, 3));
    FourWordsTell(a, b, Run(a, 1), Run(b, 1), Run(a, 2), Run(b, 2));
  }

  lemma SameSecondWord(a: State, b: State)
    requires Drawn(a) == Drawn(b)
    ensures a.s1 == b.s1
  {
    DrawTellsSecondWord(a);
    DrawTellsSecondWord(b);
  }

  /** The first eight draws for the seed 42, from its state. */
  lemma PublishedDraws(seed42: State)
    requires seed42 == State(4256320204, 2986959751, 2303388788, 2794250740)
    ensures Drawn(seed42) == 3544145829 && Drawn(Run(seed42, 1)) == 1070992761
    ensures Drawn(Run(seed42, 2)) == 1896181240 && Drawn(Run(seed42, 3)) == 1326277344
    ensures Drawn(Run(seed42, 4)) == 547560806 && Drawn(Run(seed42, 5)) == 2145414502
    ensures Drawn(Run(seed42, 6)) == 1196061847 && Drawn(Run(seed42, 7)) == 1147294115
  {
    assert Run(seed42, 0) == seed42;
    assert Run(seed42, 1) == State(3912747199, 3337733439, 1715447992, 739481764);
    assert Run(seed42, 2) == State(64328996, 1241097528, 1820466695, 317513559);
    assert Run(seed42, 3) == State(1489039179, 648949275, 2619210531, 2882763480);
    assert Run(seed42, 4) == State(3585981320, 3799202419, 2558599784, 3936754795);
    assert Run(seed42, 5) == State(3714620816, 2941232019, 2873655264, 2838544454);
    assert Run(seed42, 6) == State(3675782725, 3647947235, 3915891824, 4213090355);
    assert Run(seed42, 7) == State(4184217493, 3944709078, 3975412789, 2404286739);
  }

  // ---------------------------------------------------------------- the jump

  const JUMP: seq<Word> := [0x8764000b, 0xf542d2d3, 0x6fa035c3, 0x77f2db5b]

  /** Coefficient `k` of the jump polynomial. */
  predicate JumpBit(k: nat) {
    k < 128 && BitOf(JUMP[k / 32], k % 32)
  }

  predicate BitOf(word: Word, bit: nat)
    requires bit < 32
  {
    word & ((1 as Word) << bit) != 0
  }

  type Polynomial = nat -> bool

  /** The states `k` draws on, for every coefficient below `n` that is set, added up. */
  function SumOfRuns(bits: Polynomial, s: State, n: nat): State {
    if n == 0 then Zero
    else if bits(n - 1) then Xor(SumOfRuns(bits, s, n - 1), Run(s, n - 1))
    else SumOfRuns(bits, s, n - 1)
  }

  function Jumped(s: State): State {
    SumOfRuns(JumpBit, s, 128)
  }

  lemma XorShuffle(a: State, b: State, c: State, d: State)
    ensures Xor(Xor(a, b), Xor(c, d)) == Xor(Xor(a, c), Xor(b, d))
  {
    XorSwap(a.s0, b.s0, c.s0, d.s0);
    XorSwap(a.s1, b.s1, c.s1, d.s1);
    XorSwap(a.s2, b.s2, c.s2, d.s2);
    XorSwap(a.s3, b.s3, c.s3, d.s3);
  }

  lemma ZeroIsFixed()
    ensures Xor(Zero, Zero) == Zero && Step(Zero) == Zero
  {
  }

  lemma {:induction false} SumIsLinear(bits: Polynomial, a: State, b: State, n: nat)
    ensures SumOfRuns(bits, Xor(a, b), n) == Xor(SumOfRuns(bits, a, n), SumOfRuns(bits, b, n))
  {
    if n == 0 {
      ZeroIsFixed();
    } else {
      SumIsLinear(bits, a, b, n - 1);
      RunIsLinear(a, b, n - 1);
      XorShuffle(SumOfRuns(bits, a, n - 1), SumOfRuns(bits, b, n - 1), Run(a, n - 1), Run(b, n - 1));
    }
  }

  lemma {:induction false} SumAfterStep(bits: Polynomial, s: State, n: nat)
    ensures SumOfRuns(bits, Step(s), n) == Step(SumOfRuns(bits, s, n))
  {
    if n == 0 {
      ZeroIsFixed();
    } else {
      SumAfterStep(bits, s, n - 1);
      RunAfterStep(s, n - 1);
      StepIsLinear(SumOfRuns(bits, s, n - 1), Run(s, n - 1));
    }
  }

  lemma JumpIsLinear(a: State, b: State)
    ensures Jumped(Xor(a, b)) == Xor(Jumped(a), Jumped(b))
  {
    SumIsLinear(JumpBit, a, b, 128);
  }

  /** Whatever the polynomial, jump then draw leaves the same words as draw then jump, however many draws. */
  lemma {:induction false} SumCommutes(bits: Polynomial, s: State, m: nat, n: nat)
    ensures SumOfRuns(bits, Run(s, n), m) == Run(SumOfRuns(bits, s, m), n)
  {
    if n > 0 {
      SumCommutes(bits, s, m, n - 1);
      SumAfterStep(bits, Run(s, n - 1), m);
    }
  }

  lemma JumpCommutes(s: State, n: nat)
    ensures Jumped(Run(s, n)) == Run(Jumped(s), n)
  {
    SumCommutes(JumpBit, s, 128, n);
  }

  // ---------------------------------------------------------------- integers without bias

  const TWO_32: nat := 0x1_0000_0000

  /** Draws at or above it are refused. */
  function Limit(m: nat): nat
    requires 1 <= m <= TWO_32
  {
    TWO_32 - TWO_32 % m
  }

  /** How many numbers below `n` leave remainder `r`. */
  function CountResidue(n: nat, m: nat, r: nat): nat
    requires m > 0
  {
    if n == 0 then 0 else CountResidue(n - 1, m, r) + if (n - 1) % m == r then 1 else 0
  }

  lemma {:induction false} CountInBlock(k: nat, m: nat, r: nat, i: nat)
    requires r < m && i <= m
    ensures CountResidue(k * m + i, m, r) == CountResidue(k * m, m, r) + if r < i then 1 else 0
  {
    if i > 0 {
      CountInBlock(k, m, r, i - 1);
      Remainder(k, m, i - 1);
      assert k * m + i - 1 == k * m + (i - 1);
    }
  }

  lemma QuotientIsUnique(q: int, r: nat, k: int, i: nat, m: nat)
    requires q * m + r == k * m + i && r < m && i < m
    ensures q == k && r == i
  {
    var d := q - k;
    assert d * m == i - r;
    if d >= 1 {
      AtLeastOnce(d, m);
    } else if d <= -1 {
      AtLeastOnce(-d, m);
    }
  }

  lemma AtLeastOnce(d: int, m: nat)
    requires d >= 1
    ensures d * m >= m
  {
  }

  lemma Remainder(k: nat, m: nat, i: nat)
    requires i < m
    ensures (k * m + i) % m == i
  {
    var n := k * m + i;
    QuotientIsUnique(n / m, n % m, k, i, m);
  }

  lemma {:induction false} CountIsEven(k: nat, m: nat, r: nat)
    requires r < m
    ensures CountResidue(k * m, m, r) == k
  {
    if k > 0 {
      CountIsEven(k - 1, m, r);
      CountInBlock(k - 1, m, r, m);
      assert (k - 1) * m + m == k * m;
    }
  }

  /** Of the draws that are kept, every remainder has equally many; and fewer than `m` draws are refused. */
  lemma NextIntIsUnbiased(m: nat, r: nat)
    requires 1 <= m <= TWO_32 && r < m
    ensures CountResidue(Limit(m), m, r) == TWO_32 / m
    ensures TWO_32 - m < Limit(m) <= TWO_32
  {
    var q := TWO_32 / m;
    assert TWO_32 == q * m + TWO_32 % m;
    CountIsEven(q, m, r);
  }

  // ---------------------------------------------------------------- the generator

  /** A checkpoint: the words and the variate not yet used. */
  datatype Checkpoint = Checkpoint(words: State, spare: Option<real>)

  /** The number drawn from a state. */
  function Number(s: State): (n: nat)
    ensures n < TWO_32
  {
    Drawn(s) as nat
  }

  lemma RemainderBounds(n: nat, m: nat)
    requires m > 0
    ensures 0 <= n % m < m && (n < m ==> n % m == n)
  {
  }

  predicate Accepted(s: State, n: nat, limit: nat) {
    Number(Run(s, n)) < limit
  }

  /** A draw is accepted when the whole block of `m` numbers it lies in fits below 2^32. */
  lemma AcceptedBlocks(s: State, n: nat, m: nat)
    requires 1 <= m <= TWO_32
    ensures var x := Number(Run(s, n));
            Accepted(s, n, Limit(m)) <==> x - x % m + m <= 0x1_0000_0000
  {
    WholeBlocks(Number(Run(s, n)), TWO_32, m);
  }

  lemma WholeBlocks(x: nat, n: nat, m: nat)
    requires m > 0 && x < n
    ensures x < n - n % m <==> x - x % m + m <= n
  {
    var p, q := x / m, n / m;
    assert x == p * m + x % m && n == q * m + n % m;
    if p < q {
      AtLeastOnce(q - p, m);
      assert (q - p) * m == q * m - p * m;
    } else {
      AtMost(q, p, m);
    }
  }

  lemma AtMost(a: nat, b: nat, m: nat)
    requires a <= b
    ensures a * m <= b * m
  {
  }

  /** The index of the first draw below the limit. */
  function FirstAccepted(s: State, n: nat, bound: nat, limit: nat): (r: nat)
    requires n <= bound && Accepted(s, bound, limit)
    ensures n <= r <= bound && Accepted(s, r, limit)
    ensures forall k :: n <= k < r ==> !Accepted(s, k, limit)
    decreases bound - n
  {
    if Accepted(s, n, limit) then n else FirstAccepted(s, n + 1, bound, limit)
  }

  lemma EverythingBelow(s: State, bound: nat)
    ensures Limit(TWO_32) == TWO_32 && Accepted(s, 0, TWO_32) && Accepted(s, bound, TWO_32)
    ensures FirstAccepted(s, 0, bound, TWO_32) == 0
  {
  }

  lemma JumpBitAt(w: nat, bit: nat)
    requires w < 4 && bit < 32
    ensures JumpBit(32 * w + bit) == BitOf(JUMP[w], bit)
  {
  }

  class Xoshiro128StarStar {
    var words: State
    var spare: Option<real>

    ghost predicate Valid()
      reads this
    {
      words != Zero
    }

    constructor (from: Checkpoint)
      requires from.words != Zero
      ensures Valid() && words == from.words && spare == from.spare
    {
      words, spare := from.words, from.spare;
    }

    /** The raw draw. */
    method NextUint32() returns (result: Word)
      modifies this
      ensures (Valid() <==> old(Valid())) && words == Step(old(words)) && spare == old(spare)
      ensures result == Drawn(old(words))
    {
      var s0, s1, s2, s3 := words.s0, words.s1, words.s2, words.s3;
      result := Scramble(s1);
      var t := Shl9(s1);
      s2 := XorWord(s2, s0);
      s3 := XorWord(s3, s1);
      s1 := XorWord(s1, s2);
      s0 := XorWord(s0, s3);
      s2 := XorWord(s2, t);
      s3 := Rotl11(s3);
      NeverZero(words, 1);
      assert Run(words, 1) == Step(Run(words, 0)) == Step(words);
      words := State(s0, s1, s2, s3);
    }

    /** One more draw of a run, as a number. */
    method DrawNumber(ghost start: State, ghost n: nat) returns (x: nat)
      requires words == Run(start, n)
      modifies this
      ensures words == Run(start, n + 1) && spare == old(spare) && x == Number(Run(start, n))
    {
      var word := NextUint32();
      x := word as nat;
    }

    /**
     * A number below `max`, unless `max` is out of range. `bound` is a draw known to be accepted: the source's loop has
     * no bound of its own.
     */
    method NextInt(max: int, ghost bound: nat) returns (r: Option<nat>)
      requires 1 <= max <= TWO_32 ==> Accepted(words, bound, Limit(max))
      modifies this
      ensures (Valid() <==> old(Valid())) && spare == old(spare)
      ensures r.None? <==> max <= 0 || max > TWO_32
      ensures r.None? ==> words == old(words)
      ensures r.Some? ==>
                var n := FirstAccepted(old(words), 0, bound, Limit(max));
                && words == Run(old(words), n + 1)
                && r.value == Number(Run(old(words), n)) % max < max
    {
      if max <= 0 || max > TWO_32 { return None; }
      assert Run(words, 0) == words;
      if max == TWO_32 {
        var word := DrawNumber(words, 0);
        NeverZero(old(words), 1);
        RemainderBounds(word, TWO_32);
        EverythingBelow(old(words), bound);
        return Some(word);
      }
      var limit := Limit(max);
      ghost var n := FirstAccepted(words, 0, bound, limit);
      var x := DrawBelow(limit, bound);
      NeverZero(old(words), n + 1);
      RemainderBounds(x, max);
      r := Some(x % max);
    }

    /** Draws until one is below the limit. */
    method DrawBelow(limit: nat, ghost bound: nat) returns (x: nat)
      requires Accepted(words, bound, limit)
      modifies this
      ensures spare == old(spare)
      ensures var n := FirstAccepted(old(words), 0, bound, limit);
              words == Run(old(words), n + 1) && x == Number(Run(old(words), n))
    {
      ghost var n, start := 0, words;
      assert Run(words, 0) == words;
      x := DrawNumber(start, 0);
      while x >= limit
        invariant spare == old(spare)
        invariant n <= bound && words == Run(start, n + 1) && x == Number(Run(start, n))
        invariant FirstAccepted(start, n, bound, limit) == FirstAccepted(start, 0, bound, limit)
        decreases bound - n
      {
        n := n + 1;
        x := DrawNumber(start, n);
      }
      assert Accepted(start, n, limit);
    }

    /** One coefficient of a jump. */
    method JumpBitOf(selected: bool, j0: State, ghost start: State, ghost k: nat) returns (j: State)
      requires words == Run(start, k) && selected == JumpBit(k) && j0 == SumOfRuns(JumpBit, start, k)
      modifies this
      ensures words == Run(start, k + 1) && j == SumOfRuns(JumpBit, start, k + 1)
    {
      j := if selected then Xor(j0, words) else j0;
      assert j == SumOfRuns(JumpBit, start, k + 1);
      var _ := DrawNumber(start, k);
    }

    /** The part of a jump that one word of the polynomial selects. */
    method JumpWord(w: nat, j0: State, ghost start: State) returns (j: State)
      requires w < 4 && words == Run(start, 32 * w) && j0 == SumOfRuns(JumpBit, start, 32 * w)
      modifies this
      ensures words == Run(start, 32 * w + 32) && j == SumOfRuns(JumpBit, start, 32 * w + 32)
    {
      j := j0;
      ghost var k := 32 * w;
      for bit := 0 to 32
        invariant k == 32 * w + bit && words == Run(start, k) && j == SumOfRuns(JumpBit, start, k)
      {
        JumpBitAt(w, bit);
        j := JumpBitOf(BitOf(JUMP[w], bit), j, start, k);
        k := k + 1;
      }
    }

    /** A long way ahead: the sum of the states that the polynomial selects. */
    method Jump()
      modifies this
      ensures words == Jumped(old(words)) && spare == None
    {
      var j := Zero;
      assert Run(words, 0) == words;
      for w := 0 to 4
        invariant words == Run(old(words), 32 * w) && j == SumOfRuns(JumpBit, old(words), 32 * w)
      {
        j := JumpWord(w, j, old(words));
      }
      words, spare := j, None;
    }

    method GetState() returns (s: Checkpoint)
      ensures s == Checkpoint(words, spare)
    {
      s := Checkpoint(words, spare);
    }

    /** A generator of its own, at the same point of the same stream. */
    method Clone() returns (twin: Xoshiro128StarStar)
      requires Valid()
      ensures fresh(twin) && twin.Valid() && twin.words == words && twin.spare == spare
    {
      var state := GetState();
      twin := new Xoshiro128StarStar(state);
    }
  }

  /** A generator from a checkpoint, refused when it could only draw zeros. */
  method PrngFromState(from: Checkpoint) returns (r: Option<Xoshiro128StarStar>)
    ensures r.None? <==> from.words == Zero
    ensures r.Some? ==> fresh(r.value) && r.value.Valid() && r.value.words == from.words && r.value.spare == from.spare
  {
    if from.words.s0 | from.words.s1 | from.words.s2 | from.words.s3 == 0 {
      return None;
    }
    var made := new Xoshiro128StarStar(from);
    r := Some(made);
  }
}
