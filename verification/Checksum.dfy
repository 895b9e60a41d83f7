/** The Bech32m checksum (section "Checksum" of BIP-173 with the constant of
    section "Bech32m" of BIP-350), as in protocol/bech32m.go. A checksum state is
    a 30-bit word; one step is linear over exclusive or and has no kernel, which
    is what makes the six check characters exist, be unique and catch every
    single-character error. */
module Checksum {
  import opened Bits

  const BECH32M: nat := 0x2bc830a3
  const GENERATORS: seq<nat> := [0x3b6a57b2, 0x26508e6d, 0x1ea119fa, 0x3d4233dd, 0x2a1462b3]

  /** The generators selected by the bits of `top`. */
  function Feedback(generators: seq<nat>, top: nat): (r: nat) {
    if generators == [] then 0
    else Xor(if top % 2 == 1 then generators[0] else 0, Feedback(generators[1..], top / 2))
  }

  function Mix(c: nat): (r: nat) {
    Xor(Shift(Low(c, 25), 5), Feedback(GENERATORS, High(c, 25)))
  }

  /** One step of the checksum over a 5-bit value. */
  function Step(c: nat, v: nat): (r: nat) {
    Xor(Mix(c), v)
  }

  /** The state after a sequence of values. */
  ghost function Run(c: nat, values: seq<nat>): (r: nat) {
    Fold(Step, c, values)
  }

  ghost function Fold(step: (nat, nat) -> nat, c: nat, values: seq<nat>): (r: nat) {
    if values == [] then c else step(Fold(step, c, values[..|values| - 1]), values[|values| - 1])
  }

  lemma {:induction false} FoldAppend(step: (nat, nat) -> nat, c: nat, a: seq<nat>, b: seq<nat>)
    ensures Fold(step, c, a + b) == Fold(step, Fold(step, c, a), b)
  {
    if b == [] {
      assert a + b == a;
    } else {
      var n := |b| - 1;
      FoldAppend(step, c, a, b[..n]);
      assert (a + b)[..|a| + n] == a + b[..n];
    }
  }

  method Polymod(values: seq<nat>) returns (checksum: nat)
    ensures checksum == Run(1, values)
  {
    checksum := 1;
    for i := 0 to |values|
      invariant checksum == Run(1, values[..i])
    {
      assert values[..i + 1][..i] == values[..i];
      var top := High(checksum, 25);
      checksum := Xor(Shift(Low(checksum, 25), 5), values[i]);
      ghost var shifted := checksum;
      var bits := top;
      for index := 0 to |GENERATORS|
        invariant Xor(checksum, Feedback(GENERATORS[index..], bits)) == Xor(shifted, Feedback(GENERATORS, top))
      {
        assert GENERATORS[index..][1..] == GENERATORS[index + 1..];
        var picked := if bits % 2 == 1 then GENERATORS[index] else 0;
        XorAssociates(checksum, picked, Feedback(GENERATORS[index + 1..], bits / 2));
        if bits % 2 == 1 {
          checksum := Xor(checksum, GENERATORS[index]);
        } else {
          XorZero(checksum);
        }
        bits := bits / 2;
      }
      XorZero(checksum);
      var moved, v, f := Shift(Low(Run(1, values[..i]), 25), 5), values[i], Feedback(GENERATORS, top);
      XorAssociates(moved, v, f);
      XorCommutes(v, f);
      XorAssociates(moved, f, v);
    }
    assert values[..|values|] == values;
  }

  // --- Linearity -------------------------------------------------------------

  lemma PickLinear(g: nat, a: nat, b: nat)
    ensures (if Xor(a, b) % 2 == 1 then g else 0) == Xor(if a % 2 == 1 then g else 0, if b % 2 == 1 then g else 0)
  {
    XorHalves(a, b);
    XorSelf(g);
    XorZero(g);
  }

  lemma {:induction false} FeedbackLinear(generators: seq<nat>, a: nat, b: nat)
    ensures Feedback(generators, Xor(a, b)) == Xor(Feedback(generators, a), Feedback(generators, b))
  {
    if generators == [] {
      XorZero(0);
    } else {
      FeedbackLinear(generators[1..], a / 2, b / 2);
      XorHalves(a, b);
      PickLinear(generators[0], a, b);
      XorShuffle(if a % 2 == 1 then generators[0] else 0, if b % 2 == 1 then generators[0] else 0,
                 Feedback(generators[1..], a / 2), Feedback(generators[1..], b / 2));
    }
  }

  lemma MixLinear(c: nat, d: nat)
    ensures Mix(Xor(c, d)) == Xor(Mix(c), Mix(d))
  {
    XorLow(c, d, 25);
    XorHigh(c, d, 25);
    XorShifts(Low(c, 25), Low(d, 25), 5);
    FeedbackLinear(GENERATORS, High(c, 25), High(d, 25));
    XorShuffle(Shift(Low(c, 25), 5), Shift(Low(d, 25), 5), Feedback(GENERATORS, High(c, 25)),
               Feedback(GENERATORS, High(d, 25)));
  }

  lemma StepLinear(c: nat, d: nat, v: nat, w: nat)
    ensures Step(Xor(c, d), Xor(v, w)) == Xor(Step(c, v), Step(d, w))
  {
    MixLinear(c, d);
    XorShuffle(Mix(c), Mix(d), v, w);
  }

  function Zeros(n: nat): (r: seq<nat>) {
    seq(n, _ => 0)
  }

  /** Two runs over the same values keep their difference: it evolves as if the
      values were zero. */
  lemma {:induction false} RunDifference(c: nat, d: nat, values: seq<nat>)
    ensures Xor(Run(c, values), Run(d, values)) == Run(Xor(c, d), Zeros(|values|))
  {
    if values != [] {
      var n := |values| - 1;
      RunDifference(c, d, values[..n]);
      StepLinear(Run(c, values[..n]), Run(d, values[..n]), values[n], values[n]);
      XorSelf(values[n]);
      assert Zeros(n + 1)[..n] == Zeros(n);
    }
  }

  /** Appended values enter as if run from zero. */
  lemma {:induction false} RunSplits(c: nat, values: seq<nat>)
    ensures Run(c, values) == Xor(Run(c, Zeros(|values|)), Run(0, values))
  {
    if values == [] {
      XorZero(c);
    } else {
      var n := |values| - 1;
      var x, y, v := Run(c, Zeros(n)), Run(0, values[..n]), values[n];
      RunSplits(c, values[..n]);
      assert Zeros(n + 1)[..n] == Zeros(n);
      assert Run(c, Zeros(n + 1)) == Step(x, 0) && Run(0, values) == Step(y, v);
      StepLinear(x, y, 0, v);
      XorZero(v);
    }
  }

  // --- Six check values ------------------------------------------------------

  lemma Pow2Values()
    ensures Pow2(5) == 32 && Pow2(10) == 1024 && Pow2(15) == 32768 && Pow2(20) == 1048576
    ensures Pow2(25) == 33554432 && Pow2(30) == 1073741824
  {
    assert Pow2(5) == 32;
    Pow2Add(5, 5);
    Pow2Add(10, 5);
    Pow2Add(15, 5);
    Pow2Add(20, 5);
    Pow2Add(25, 5);
  }

  lemma {:induction false} FeedbackZero(generators: seq<nat>)
    ensures Feedback(generators, 0) == 0
  {
    if generators != [] {
      FeedbackZero(generators[1..]);
      XorZero(0);
    }
  }

  lemma ShiftFive(a: nat)
    ensures Shift(a, 5) == 32 * a
  {
    assert Shift(a, 1) == 2 * a;
    assert Shift(a, 3) == 4 * Shift(a, 1);
    assert Shift(a, 5) == 4 * Shift(a, 3);
  }

  /** Below 25 bits a step only shifts the value in. */
  lemma StepShiftsIn(c: nat, v: nat)
    requires c < Pow2(25) && v < 32
    ensures Step(c, v) == 32 * c + v
  {
    Pow2Values();
    SmallWord(c, 25);
    FeedbackZero(GENERATORS);
    XorZero(Shift(c, 5));
    XorFills(c, v, 5);
    ShiftFive(c);
  }

  lemma {:induction false} NumBound(digits: seq<int>)
    requires Digits(digits, 32)
    ensures 0 <= Num(digits, 32) < Pow2(5 * |digits|)
  {
    if digits != [] {
      NumBound(digits[..|digits| - 1]);
      Pow2Add(5 * (|digits| - 1), 5);
      assert Pow2(5) == 32;
    }
  }

  lemma {:induction false} RunFromZero(values: seq<nat>)
    requires |values| <= 6 && Digits(values, 32)
    ensures Run(0, values) == Num(values, 32)
  {
    if values != [] {
      var front := values[..|values| - 1];
      RunFromZero(front);
      NumBound(front);
      Pow2Monotone(5 * |front|, 25);
      StepShiftsIn(Num(front, 32), values[|values| - 1]);
    }
  }

  lemma {:induction false} Pow2Monotone(a: nat, b: nat)
    requires a <= b
    ensures Pow2(a) <= Pow2(b)
  {
    if a < b {
      Pow2Monotone(a, b - 1);
    }
  }

  /** The checksum of a body followed by six check values is the constant exactly
      when the six values spell one particular 30-bit number. */
  lemma CheckValues(body: seq<nat>, check: seq<nat>)
    requires |check| == 6 && Digits(check, 32)
    ensures Run(1, body + check) == BECH32M <==> Num(check, 32) == Xor(Run(1, body + Zeros(6)), BECH32M)
  {
    var c := Run(1, body);
    var tail := Run(1, body + Zeros(6));
    FoldAppend(Step, 1, body, check);
    FoldAppend(Step, 1, body, Zeros(6));
    RunSplits(c, check);
    RunFromZero(check);
    var n := Num(check, 32);
    NumBound(check);
    XorCancels(tail, n);
    XorCancels(n, tail);
    XorCommutes(tail, n);
    XorCommutes(BECH32M, tail);
    XorCancels(BECH32M, tail);
  }

  // --- Single errors ---------------------------------------------------------

  ghost function Halved(generators: seq<nat>): (r: seq<nat>) {
    if generators == [] then [] else [generators[0] / 2] + Halved(generators[1..])
  }

  /** The lowest bit of the feedback: the parity of the selected odd generators. */
  ghost predicate Odd(generators: seq<nat>, top: nat) {
    generators != [] && (top % 2 == 1 && generators[0] % 2 == 1) != Odd(generators[1..], top / 2)
  }

  lemma {:induction false} FeedbackHalves(generators: seq<nat>, top: nat)
    ensures Feedback(generators, top) % 2 == (if Odd(generators, top) then 1 else 0)
    ensures Feedback(generators, top) / 2 == Feedback(Halved(generators), top)
  {
    if generators != [] {
      FeedbackHalves(generators[1..], top / 2);
      XorHalves(if top % 2 == 1 then generators[0] else 0, Feedback(generators[1..], top / 2));
      assert Halved(generators)[1..] == Halved(generators[1..]);
    }
  }

  /** The five bits of a top value. */
  ghost predicate TopBits(top: nat, b: seq<bool>) {
    |b| == 5 && top == Bit(b[0]) + 2 * (Bit(b[1]) + 2 * (Bit(b[2]) + 2 * (Bit(b[3]) + 2 * Bit(b[4]))))
  }

  function Bit(b: bool): (r: nat) {
    if b then 1 else 0
  }

  lemma OddStep(g: nat, rest: seq<nat>, b: bool, top: nat)
    ensures Odd([g] + rest, Bit(b) + 2 * top) == ((b && g % 2 == 1) != Odd(rest, top))
    ensures Halved([g] + rest) == [g / 2] + Halved(rest)
  {
    var all, n := [g] + rest, Bit(b) + 2 * top;
    assert all[1..] == rest && all[0] == g;
    assert n / 2 == top && (n % 2 == 1 <==> b);
  }

  /** An even number of odd generators is selected. */
  ghost predicate Balanced(g: seq<nat>, b: seq<bool>)
    requires |g| == |b| == 5
  {
    (b[0] && g[0] % 2 == 1) == ((b[1] && g[1] % 2 == 1) != ((b[2] && g[2] % 2 == 1) !=
      ((b[3] && g[3] % 2 == 1) != (b[4] && g[4] % 2 == 1))))
  }

  ghost function HalvedFive(g: seq<nat>): (r: seq<nat>)
    requires |g| == 5
  {
    [g[0] / 2, g[1] / 2, g[2] / 2, g[3] / 2, g[4] / 2]
  }

  lemma OneBit(f: nat, g: seq<nat>, top: nat, b: seq<bool>)
    requires f % 2 == 0 && |g| == 5 && f == Feedback(g, top) && TopBits(top, b)
    ensures f / 2 == Feedback(HalvedFive(g), top) && Balanced(g, b)
  {
    FeedbackHalves(g, top);
    OddStep(g[4], [], b[4], 0);
    OddStep(g[3], [g[4]], b[3], Bit(b[4]));
    OddStep(g[2], [g[3], g[4]], b[2], Bit(b[3]) + 2 * Bit(b[4]));
    OddStep(g[1], [g[2], g[3], g[4]], b[1], Bit(b[2]) + 2 * (Bit(b[3]) + 2 * Bit(b[4])));
    OddStep(g[0], [g[1], g[2], g[3], g[4]], b[0], Bit(b[1]) + 2 * (Bit(b[2]) + 2 * (Bit(b[3]) + 2 * Bit(b[4]))));
    assert [g[4]] + [] == [g[4]] && [g[3]] + [g[4]] == [g[3], g[4]];
    assert [g[2]] + [g[3], g[4]] == [g[2], g[3], g[4]];
    assert [g[1]] + [g[2], g[3], g[4]] == [g[1], g[2], g[3], g[4]];
    assert [g[0]] + [g[1], g[2], g[3], g[4]] == g;
    assert Halved(g) == HalvedFive(g);
  }

  /** Zero bits of the feedback, as equations over the top bits. */
  lemma {:induction false} ZeroBits(k: nat, low: nat, f: nat, g: seq<nat>, top: nat, b: seq<bool>)
    requires |g| == 5 && f == Shift(low, k) && f == Feedback(g, top) && TopBits(top, b)
    ensures BalancedBits(k, g, b)
    decreases k
  {
    if k > 0 {
      assert f == 2 * Shift(low, k - 1);
      OneBit(f, g, top, b);
      ZeroBits(k - 1, low, f / 2, HalvedFive(g), top, b);
    }
  }

  ghost predicate BalancedBits(k: nat, g: seq<nat>, b: seq<bool>)
    requires |g| == |b| == 5
    decreases k
  {
    k > 0 ==> Balanced(g, b) && BalancedBits(k - 1, HalvedFive(g), b)
  }

  lemma BitsOf(top: nat) returns (b: seq<bool>)
    requires top < 32
    ensures TopBits(top, b)
  {
    b := [top % 2 == 1, top / 2 % 2 == 1, top / 4 % 2 == 1, top / 8 % 2 == 1, top / 16 % 2 == 1];
  }

  lemma OnlyZeroBalances(g: seq<nat>, b: seq<bool>)
    requires g == GENERATORS && |b| == 5 && BalancedBits(5, g, b)
    ensures b == [false, false, false, false, false]
  {
    var g1 := HalvedFive(g);
    var g2 := HalvedFive(g1);
    var g3 := HalvedFive(g2);
    var g4 := HalvedFive(g3);
    assert Balanced(g, b) && Balanced(g1, b) && Balanced(g2, b);
    assert BalancedBits(2, g3, b);
    assert Balanced(g3, b) && Balanced(g4, b);
    assert g1 == [0x1db52bd9, 0x13284736, 0x0f508cfd, 0x1ea119ee, 0x150a3159];
    assert g2 == [0x0eda95ec, 0x0994239b, 0x07a8467e, 0x0f508cf7, 0x0a8518ac];
    assert g3 == [0x076d4af6, 0x04ca11cd, 0x03d4233f, 0x07a8467b, 0x05428c56];
    assert g4 == [0x03b6a57b, 0x026508e6, 0x01ea119f, 0x03d4233d, 0x02a1462b];
  }

  ghost predicate Independent(g: seq<nat>)
    requires |g| == 5
  {
    forall b: seq<bool> | |b| == 5 && BalancedBits(5, g, b) :: b == [false, false, false, false, false]
  }

  lemma FeedbackHasNoKernel(g: seq<nat>, top: nat, low: nat)
    requires |g| == 5 && Independent(g) && top < 32 && Shift(low, 5) == Feedback(g, top)
    ensures top == 0
  {
    var b := BitsOf(top);
    ZeroBits(5, low, Shift(low, 5), g, top, b);
  }

  /** The low five bits of the generators are linearly independent. */
  lemma LowBitsIndependent()
    ensures Independent(GENERATORS)
  {
    forall b: seq<bool> | |b| == 5 && BalancedBits(5, GENERATORS, b) ensures b == [false, false, false, false, false] {
      OnlyZeroBalances(GENERATORS, b);
    }
  }

  lemma {:induction false} TopBound(d: nat, k: nat, m: nat)
    requires d < Pow2(k + m)
    ensures High(d, k) < Pow2(m)
    decreases k
  {
    if k > 0 {
      TopBound(d / 2, k - 1, m);
    }
  }

  /** A step over zero loses nothing: only zero goes to zero. */
  lemma MixHasNoKernel(d: nat)
    requires d < Pow2(30) && Mix(d) == 0
    ensures d == 0
  {
    Pow2Values();
    var low, top := Low(d, 25), High(d, 25);
    TopBound(d, 25, 5);
    XorCancels(Shift(low, 5), Feedback(GENERATORS, top));
    LowBitsIndependent();
    FeedbackHasNoKernel(GENERATORS, top, low);
    FeedbackZero(GENERATORS);
    ShiftBelow(low, 5);
    SmallWord(d, 25);
  }

  lemma {:induction false} FeedbackBound(generators: seq<nat>, top: nat)
    requires forall i | 0 <= i < |generators| :: generators[i] < Pow2(30)
    ensures Feedback(generators, top) < Pow2(30)
  {
    if generators != [] {
      FeedbackBound(generators[1..], top / 2);
      XorBound(if top % 2 == 1 then generators[0] else 0, Feedback(generators[1..], top / 2), 30);
    }
  }

  lemma StepBound(c: nat, v: nat)
    requires v < 32
    ensures Step(c, v) < Pow2(30)
  {
    Pow2Values();
    FeedbackBound(GENERATORS, High(c, 25));
    ShiftFive(Low(c, 25));
    XorBound(Shift(Low(c, 25), 5), Feedback(GENERATORS, High(c, 25)), 30);
    XorBound(Mix(c), v, 30);
  }

  lemma {:induction false} DifferenceSurvives(d: nat, n: nat)
    requires 0 < d < Pow2(30)
    ensures 0 < Run(d, Zeros(n)) < Pow2(30)
  {
    if n > 0 {
      DifferenceSurvives(d, n - 1);
      assert Zeros(n)[..n - 1] == Zeros(n - 1);
      var c := Run(d, Zeros(n - 1));
      StepBound(c, 0);
      XorZero(Mix(c));
      if Mix(c) == 0 {
        MixHasNoKernel(c);
      }
    }
  }

  lemma StepTellsValuesApart(c: nat, v: nat, w: nat)
    requires v != w && v < 32 && w < 32
    ensures 0 < Xor(Step(c, v), Step(c, w)) < Pow2(30)
  {
    StepBound(c, v);
    StepBound(c, w);
    XorBound(Step(c, v), Step(c, w), 30);
    XorShuffle(Mix(c), v, Mix(c), w);
    XorSelf(Mix(c));
    XorZero(Xor(v, w));
    XorCancels(v, w);
  }

  lemma FoldOne(step: (nat, nat) -> nat, c: nat, values: seq<nat>, i: nat)
    requires i < |values|
    ensures Fold(step, c, values) == Fold(step, step(Fold(step, c, values[..i]), values[i]), values[i + 1..])
  {
    var front := values[..i] + [values[i]];
    assert front[..i] == values[..i];
    assert values == front + values[i + 1..];
    FoldAppend(step, c, front, values[i + 1..]);
  }

  /** Changing one value changes the checksum. */
  lemma SingleErrorDetected(values: seq<nat>, i: nat, v: nat)
    requires i < |values| && values[i] < 32 && v < 32 && v != values[i]
    ensures Run(1, values[i := v]) != Run(1, values)
  {
    var changed, tail := values[i := v], values[i + 1..];
    assert changed[..i] == values[..i] && changed[i + 1..] == tail;
    FoldOne(Step, 1, values, i);
    FoldOne(Step, 1, changed, i);
    var c := Run(1, values[..i]);
    StepTellsValuesApart(c, values[i], v);
    RunDifference(Step(c, values[i]), Step(c, v), tail);
    DifferenceSurvives(Xor(Step(c, values[i]), Step(c, v)), |tail|);
    XorCancels(Run(Step(c, values[i]), tail), Run(Step(c, v), tail));
  }
}
