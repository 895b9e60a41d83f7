/** Arithmetic of fixed-width unsigned words as integers: powers of two, digit
    sequences and exclusive or. */
module Bits {

  function Pow2(k: nat): (r: nat)
    ensures r >= 1
  {
    if k == 0 then 1 else 2 * Pow2(k - 1)
  }

  lemma {:induction false} Pow2Add(a: nat, b: nat)
    ensures Pow2(a + b) == Pow2(a) * Pow2(b)
  {
    if b > 0 {
      Pow2Add(a, b - 1);
    }
  }

  // --- Digits ----------------------------------------------------------------

  /** The number a digit sequence spells, most significant digit first. */
  ghost function Num(digits: seq<int>, base: nat): (r: int) {
    if digits == [] then 0 else Num(digits[..|digits| - 1], base) * base + digits[|digits| - 1]
  }

  ghost predicate Digits(digits: seq<int>, base: nat) {
    forall i | 0 <= i < |digits| :: 0 <= digits[i] < base
  }

  lemma NumAppend(digits: seq<int>, d: int, base: nat)
    ensures Num(digits + [d], base) == Num(digits, base) * base + d
  {
    assert (digits + [d])[..|digits|] == digits;
  }

  lemma MulGap(x: int, y: int, base: nat)
    requires x > y
    ensures x * base >= y * base + base
  {
    var k := x - y - 1;
    assert x * base == (y + 1 + k) * base == y * base + base + k * base;
  }

  lemma DivideUnique(q: int, r: int, q': int, r': int, base: nat)
    requires 0 <= r < base && 0 <= r' < base && q * base + r == q' * base + r'
    ensures q == q' && r == r'
  {
    if q > q' {
      MulGap(q, q', base);
    } else if q < q' {
      MulGap(q', q, base);
    }
  }

  /** Digit sequences of equal length spell different numbers. */
  lemma {:induction false} NumInjective(a: seq<int>, b: seq<int>, base: nat)
    requires |a| == |b| && Digits(a, base) && Digits(b, base) && Num(a, base) == Num(b, base)
    ensures a == b
  {
    if a != [] {
      var n := |a| - 1;
      DivideUnique(Num(a[..n], base), a[n], Num(b[..n], base), b[n], base);
      NumInjective(a[..n], b[..n], base);
      assert a == a[..n] + [a[n]] && b == b[..n] + [b[n]];
    }
  }

  // --- Exclusive or ----------------------------------------------------------

  /** Bitwise exclusive or of two unsigned integers. */
  function Xor(a: nat, b: nat): (r: nat)
    decreases a + b
  {
    if a == 0 && b == 0 then 0 else (if a % 2 == b % 2 then 0 else 1) + 2 * Xor(a / 2, b / 2)
  }

  lemma XorHalves(a: nat, b: nat)
    ensures Xor(a, b) % 2 == (if a % 2 == b % 2 then 0 else 1) && Xor(a, b) / 2 == Xor(a / 2, b / 2)
  {
  }

  lemma {:induction false} XorZero(a: nat)
    ensures Xor(a, 0) == a && Xor(0, a) == a
  {
    if a > 0 {
      XorZero(a / 2);
    }
  }

  lemma {:induction false} XorSelf(a: nat)
    ensures Xor(a, a) == 0
  {
    if a > 0 {
      XorSelf(a / 2);
    }
  }

  lemma {:induction false} XorCommutes(a: nat, b: nat)
    ensures Xor(a, b) == Xor(b, a)
    decreases a + b
  {
    if a > 0 || b > 0 {
      XorCommutes(a / 2, b / 2);
    }
  }

  lemma {:induction false} XorAssociates(a: nat, b: nat, c: nat)
    ensures Xor(Xor(a, b), c) == Xor(a, Xor(b, c))
    decreases a + b + c
  {
    if a > 0 || b > 0 || c > 0 {
      XorAssociates(a / 2, b / 2, c / 2);
      XorHalves(a, b);
      XorHalves(b, c);
      XorHalves(Xor(a, b), c);
      XorHalves(a, Xor(b, c));
      SameHalves(Xor(Xor(a, b), c), Xor(a, Xor(b, c)));
    }
  }

  lemma SameHalves(x: nat, y: nat)
    requires x / 2 == y / 2 && x % 2 == y % 2
    ensures x == y
  {
  }

  lemma XorShuffle(a: nat, b: nat, c: nat, d: nat)
    ensures Xor(Xor(a, b), Xor(c, d)) == Xor(Xor(a, c), Xor(b, d))
  {
    XorAssociates(a, b, Xor(c, d));
    XorAssociates(b, c, d);
    XorCommutes(b, c);
    XorAssociates(c, b, d);
    XorAssociates(a, c, Xor(b, d));
  }

  /** Values with the same exclusive or are the same. */
  lemma XorCancels(a: nat, b: nat)
    ensures Xor(a, b) == 0 <==> a == b
    ensures Xor(Xor(a, b), b) == a
  {
    XorSelf(b);
    XorAssociates(a, b, b);
    XorZero(a);
    XorZero(b);
    XorSelf(a);
  }

  lemma {:induction false} XorBound(a: nat, b: nat, k: nat)
    requires a < Pow2(k) && b < Pow2(k)
    ensures Xor(a, b) < Pow2(k)
    decreases k
  {
    if k > 0 {
      XorBound(a / 2, b / 2, k - 1);
      XorHalves(a, b);
    }
  }

  // --- Shifts and masks ------------------------------------------------------

  /** The low k bits. */
  function Low(a: nat, k: nat): (r: nat)
    ensures r < Pow2(k)
    decreases k
  {
    if k == 0 then 0 else 2 * Low(a / 2, k - 1) + a % 2
  }

  /** A shift right by k bits. */
  function High(a: nat, k: nat): (r: nat)
    decreases k
  {
    if k == 0 then a else High(a / 2, k - 1)
  }

  /** A shift left by k bits. */
  function Shift(a: nat, k: nat): (r: nat) {
    if k == 0 then a else 2 * Shift(a, k - 1)
  }

  lemma {:induction false} SplitWord(a: nat, k: nat)
    ensures a == Shift(High(a, k), k) + Low(a, k)
    decreases k
  {
    if k > 0 {
      SplitWord(a / 2, k - 1);
    }
  }

  lemma {:induction false} ShiftBelow(a: nat, k: nat)
    ensures a > 0 ==> Shift(a, k) >= Pow2(k)
    ensures a == 0 ==> Shift(a, k) == 0
  {
    if k > 0 {
      ShiftBelow(a, k - 1);
    }
  }

  /** A word below 2^k is its own low bits. */
  lemma SmallWord(a: nat, k: nat)
    ensures High(a, k) == 0 <==> a < Pow2(k)
    ensures a < Pow2(k) ==> Low(a, k) == a
  {
    SplitWord(a, k);
    ShiftBelow(High(a, k), k);
  }

  lemma XorJoins(x: nat, p: nat, y: nat, q: nat)
    requires p < 2 && q < 2
    ensures Xor(2 * x + p, 2 * y + q) == 2 * Xor(x, y) + (if p == q then 0 else 1)
  {
    XorHalves(2 * x + p, 2 * y + q);
  }

  /** Splitting at a bit position commutes with exclusive or. */
  lemma {:induction false} XorLow(a: nat, b: nat, k: nat)
    ensures Low(Xor(a, b), k) == Xor(Low(a, k), Low(b, k))
    decreases k
  {
    if k > 0 {
      XorLow(a / 2, b / 2, k - 1);
      XorHalves(a, b);
      XorJoins(Low(a / 2, k - 1), a % 2, Low(b / 2, k - 1), b % 2);
    }
  }

  lemma {:induction false} XorHigh(a: nat, b: nat, k: nat)
    ensures High(Xor(a, b), k) == Xor(High(a, k), High(b, k))
    decreases k
  {
    if k > 0 {
      XorHigh(a / 2, b / 2, k - 1);
      XorHalves(a, b);
    }
  }

  lemma {:induction false} XorShifts(a: nat, b: nat, k: nat)
    ensures Xor(Shift(a, k), Shift(b, k)) == Shift(Xor(a, b), k)
  {
    if k > 0 {
      XorShifts(a, b, k - 1);
      XorJoins(Shift(a, k - 1), 0, Shift(b, k - 1), 0);
    }
  }

  /** Filling empty low bits is addition. */
  lemma {:induction false} XorFills(a: nat, v: nat, k: nat)
    requires v < Pow2(k)
    ensures Xor(Shift(a, k), v) == Shift(a, k) + v
    decreases k
  {
    if k == 0 {
      XorZero(a);
    } else {
      XorFills(a, v / 2, k - 1);
      XorJoins(Shift(a, k - 1), 0, v / 2, v % 2);
    }
  }
}
