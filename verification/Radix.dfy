/** Regrouping of bits between digit widths, as convertBits of
    protocol/bech32m.go does it: the output holds the bits of the input. */
module Radix {
  import opened Bits
  import opened Wrappers

  /** The low `k` bits of a word, most significant first. */
  ghost function BitsOf(x: nat, k: nat): (r: seq<bool>)
    ensures |r| == k
    decreases k
  {
    if k == 0 then [] else BitsOf(x / 2, k - 1) + [x % 2 == 1]
  }

  ghost function Off(n: nat): (r: seq<bool>)
    ensures |r| == n
  {
    seq(n, _ => false)
  }

  /** The bits of a digit sequence. */
  ghost function Flat(digits: seq<nat>, width: nat): (r: seq<bool>) {
    if digits == [] then [] else Flat(digits[..|digits| - 1], width) + BitsOf(digits[|digits| - 1], width)
  }

  lemma {:induction false} FlatLength(digits: seq<nat>, width: nat)
    ensures |Flat(digits, width)| == |digits| * width
  {
    if digits != [] {
      FlatLength(digits[..|digits| - 1], width);
      assert (|digits| - 1) * width + width == |digits| * width;
    }
  }

  lemma FlatAppend(digits: seq<nat>, d: nat, width: nat)
    ensures Flat(digits + [d], width) == Flat(digits, width) + BitsOf(d, width)
  {
    assert (digits + [d])[..|digits|] == digits;
  }

  lemma {:induction false} ShiftIn(x: nat, v: nat, b: nat, f: nat)
    requires v < Pow2(f)
    ensures BitsOf(Shift(x, f) + v, b + f) == BitsOf(x, b) + BitsOf(v, f)
    decreases f
  {
    if f > 0 {
      ShiftIn(x, v / 2, b, f - 1);
    }
  }

  lemma {:induction false} KeepLow(x: nat, width: nat, k: nat)
    requires k <= width
    ensures BitsOf(Low(x, width), k) == BitsOf(x, k)
    decreases k
  {
    if k > 0 {
      KeepLow(x / 2, width - 1, k - 1);
    }
  }

  lemma {:induction false} ShiftOut(x: nat, a: nat, b: nat)
    ensures BitsOf(x, a + b) == BitsOf(High(x, b), a) + BitsOf(x, b)
    decreases b
  {
    if b > 0 {
      ShiftOut(x / 2, a, b - 1);
    }
  }

  lemma {:induction false} ZeroBits(k: nat)
    ensures BitsOf(0, k) == Off(k)
  {
    if k > 0 {
      ZeroBits(k - 1);
    }
  }

  lemma {:induction false} BitsDetermine(x: nat, y: nat, k: nat)
    requires x < Pow2(k) && y < Pow2(k) && BitsOf(x, k) == BitsOf(y, k)
    ensures x == y
    decreases k
  {
    if k > 0 {
      var a, b := BitsOf(x, k), BitsOf(y, k);
      assert a[..k - 1] == BitsOf(x / 2, k - 1) && b[..k - 1] == BitsOf(y / 2, k - 1);
      assert a[k - 1] == b[k - 1];
      BitsDetermine(x / 2, y / 2, k - 1);
    }
  }

  lemma SameParts<T>(a: seq<T>, b: seq<T>, c: seq<T>, d: seq<T>)
    requires a + b == c + d && |b| == |d|
    ensures a == c && b == d
  {
    assert a == (a + b)[..|a|] && c == (c + d)[..|c|];
    assert b == (a + b)[|a|..] && d == (c + d)[|c|..];
  }

  lemma EmptyFlat(digits: seq<nat>, width: nat)
    requires width > 0
    ensures Flat(digits, width) == [] <==> digits == []
  {
  }

  lemma LastDigits(a: seq<nat>, b: seq<nat>, width: nat)
    requires a != [] && b != [] && Digits(a, Pow2(width)) && Digits(b, Pow2(width)) && Flat(a, width) == Flat(b, width)
    ensures Flat(a[..|a| - 1], width) == Flat(b[..|b| - 1], width) && a[|a| - 1] == b[|b| - 1]
  {
    var x, y := a[|a| - 1], b[|b| - 1];
    SameParts(Flat(a[..|a| - 1], width), BitsOf(x, width), Flat(b[..|b| - 1], width), BitsOf(y, width));
    BitsDetermine(x, y, width);
  }

  /** Digit sequences with the same bits are the same. */
  lemma {:induction false} FlatDetermines(a: seq<nat>, b: seq<nat>, width: nat)
    requires width > 0 && Digits(a, Pow2(width)) && Digits(b, Pow2(width)) && Flat(a, width) == Flat(b, width)
    ensures a == b
  {
    EmptyFlat(a, width);
    EmptyFlat(b, width);
    if a != [] && b != [] {
      LastDigits(a, b, width);
      FlatDetermines(a[..|a| - 1], b[..|b| - 1], width);
      assert a == a[..|a| - 1] + [a[|a| - 1]] && b == b[..|b| - 1] + [b[|b| - 1]];
    }
  }

  // --- The regrouping loop ---------------------------------------------------

  /** The bits read so far are the bits written so far, followed by the `pending`
      low bits of the accumulator. */
  ghost predicate Regrouped(input: seq<nat>, output: seq<nat>, accumulator: nat, pending: nat, from: nat, to: nat) {
    Digits(output, Pow2(to)) && Flat(input, from) == Flat(output, to) + BitsOf(accumulator, pending)
  }

  lemma ReadBits(accumulator: nat, v: nat, pending: nat, from: nat, width: nat)
    requires v < Pow2(from) && pending + from <= width
    ensures BitsOf(Low(Shift(accumulator, from) + v, width), pending + from)
              == BitsOf(accumulator, pending) + BitsOf(v, from)
  {
    KeepLow(Shift(accumulator, from) + v, width, pending + from);
    ShiftIn(accumulator, v, pending, from);
  }

  lemma RegroupRead(input: seq<nat>, output: seq<nat>, accumulator: nat, pending: nat, from: nat, to: nat, v: nat)
    requires Regrouped(input, output, accumulator, pending, from, to) && pending < to && v < Pow2(from)
    ensures Regrouped(input + [v], output, Low(Shift(accumulator, from) + v, from + to - 1), pending + from, from, to)
  {
    FlatAppend(input, v, from);
    ReadBits(accumulator, v, pending, from, from + to - 1);
    Associates(Flat(output, to), BitsOf(accumulator, pending), BitsOf(v, from));
  }

  lemma Associates<T>(a: seq<T>, b: seq<T>, c: seq<T>)
    ensures (a + b) + c == a + (b + c)
  {
  }

  lemma RegroupWrite(input: seq<nat>, output: seq<nat>, accumulator: nat, pending: nat, from: nat, to: nat)
    requires Regrouped(input, output, accumulator, pending, from, to) && to <= pending
    ensures Regrouped(input, output + [Low(High(accumulator, pending - to), to)], accumulator, pending - to, from, to)
  {
    var rest := pending - to;
    ShiftOut(accumulator, to, rest);
    KeepLow(High(accumulator, rest), to, to);
    var d := Low(High(accumulator, rest), to);
    FlatAppend(output, d, to);
    Associates(Flat(output, to), BitsOf(d, to), BitsOf(accumulator, rest));
  }

  /** The left-aligned remainder holds the pending bits and zeros. */
  lemma LeftAligned(accumulator: nat, pending: nat, to: nat)
    requires pending < to
    ensures var d := Low(Shift(accumulator, to - pending), to);
            && BitsOf(d, to) == BitsOf(accumulator, pending) + Off(to - pending)
            && (d == 0 <==> BitsOf(accumulator, pending) == Off(pending))
  {
    var gap := to - pending;
    var d := Low(Shift(accumulator, gap), to);
    KeepLow(Shift(accumulator, gap), to, to);
    ShiftIn(accumulator, 0, pending, gap);
    ZeroBits(gap);
    ZeroBits(to);
    assert Off(to) == Off(pending) + Off(gap);
    assert BitsOf(d, to)[..pending] == BitsOf(accumulator, pending);
    if BitsOf(accumulator, pending) == Off(pending) {
      BitsDetermine(d, 0, to);
    } else {
      assert Off(to)[..pending] == Off(pending);
    }
  }

  /** `output` holds the bits of `input` and fewer than `to` zeros after them. */
  ghost predicate Padded(input: seq<nat>, from: nat, output: seq<nat>, to: nat) {
    && Digits(output, Pow2(to))
    && 0 <= |Flat(output, to)| - |Flat(input, from)| < to
    && Flat(output, to) == Flat(input, from) + Off(|Flat(output, to)| - |Flat(input, from)|)
  }

  /** `output` holds the bits of `input` but for fewer than `from`, and fewer than
      `to`, zeros at its end. */
  ghost predicate Unpadded(input: seq<nat>, from: nat, output: seq<nat>, to: nat) {
    && Digits(output, Pow2(to))
    && 0 <= |Flat(input, from)| - |Flat(output, to)| < to
    && |Flat(input, from)| - |Flat(output, to)| < from
    && Flat(input, from) == Flat(output, to) + Off(|Flat(input, from)| - |Flat(output, to)|)
  }

  /** The pending bits are those any other way of dropping zeros would drop. */
  lemma NoOtherRemainder(input: seq<nat>, output: seq<nat>, accumulator: nat, pending: nat, from: nat, to: nat,
                         other: seq<nat>)
    requires Regrouped(input, output, accumulator, pending, from, to) && pending < to
    requires Unpadded(input, from, other, to)
    ensures pending < from && BitsOf(accumulator, pending) == Off(pending)
  {
    var rest := |Flat(input, from)| - |Flat(other, to)|;
    FlatLength(output, to);
    FlatLength(other, to);
    DivideUnique(|output|, pending, |other|, rest, to);
    assert Flat(input, from)[|output| * to..] == BitsOf(accumulator, pending) == Off(rest);
  }

  lemma PaddedEnding(input: seq<nat>, output: seq<nat>, accumulator: nat, pending: nat, from: nat, to: nat)
    requires Regrouped(input, output, accumulator, pending, from, to) && pending < to
    ensures Padded(input, from, if pending > 0 then output + [Low(Shift(accumulator, to - pending), to)]
                     else output, to)
  {
    if pending > 0 {
      var last := Low(Shift(accumulator, to - pending), to);
      LeftAligned(accumulator, pending, to);
      FlatAppend(output, last, to);
      Associates(Flat(output, to), BitsOf(accumulator, pending), Off(to - pending));
      assert Digits(output + [last], Pow2(to));
    } else {
      assert Flat(output, to) == Flat(input, from) + Off(0);
    }
  }

  /** What is left in the accumulator decides whether the input is well padded. */
  lemma UnpaddedEnding(input: seq<nat>, output: seq<nat>, accumulator: nat, pending: nat, from: nat, to: nat)
    requires Regrouped(input, output, accumulator, pending, from, to) && pending < to
    ensures if pending >= from || Low(Shift(accumulator, to - pending), to) != 0
            then forall other :: !Unpadded(input, from, other, to)
            else Unpadded(input, from, output, to)
  {
    LeftAligned(accumulator, pending, to);
    if pending >= from || Low(Shift(accumulator, to - pending), to) != 0 {
      forall other ensures !Unpadded(input, from, other, to) {
        if Unpadded(input, from, other, to) {
          NoOtherRemainder(input, output, accumulator, pending, from, to, other);
        }
      }
    }
  }

  /** The inner loop: writes every whole digit the accumulator holds. */
  method WriteDigits(ghost input: seq<nat>, output: seq<nat>, accumulator: nat, bitCount: nat, ghost from: nat, to: nat)
    returns (left: nat, written: seq<nat>)
    requires Regrouped(input, output, accumulator, bitCount, from, to) && to > 0
    ensures Regrouped(input, written, accumulator, left, from, to) && left < to
  {
    left, written := bitCount, output;
    while left >= to
      invariant Regrouped(input, written, accumulator, left, from, to)
    {
      RegroupWrite(input, written, accumulator, left, from, to);
      left := left - to;
      written := written + [Low(High(accumulator, left), to)];
    }
  }

  /** The outer loop: regroups whole digits and leaves the rest in the accumulator. */
  method Regroup(input: seq<nat>, from: nat, to: nat) returns (r: Result<(seq<nat>, nat, nat)>)
    requires to > 0
    ensures r.Ok? <==> Digits(input, Pow2(from))
    ensures r.Ok? ==> Regrouped(input, r.value.0, r.value.1, r.value.2, from, to) && r.value.2 < to
  {
    var accumulator: nat, bitCount: nat, output: seq<nat> := 0, 0, [];
    for i := 0 to |input|
      invariant Digits(input[..i], Pow2(from)) && bitCount < to
      invariant Regrouped(input[..i], output, accumulator, bitCount, from, to)
    {
      SmallWord(input[i], from);
      if High(input[i], from) != 0 {
        return Err;
      }
      assert input[..i + 1] == input[..i] + [input[i]];
      RegroupRead(input[..i], output, accumulator, bitCount, from, to, input[i]);
      accumulator := Low(Shift(accumulator, from) + input[i], from + to - 1);
      bitCount, output := WriteDigits(input[..i + 1], output, accumulator, bitCount + from, from, to);
    }
    assert input[..|input|] == input;
    return Ok((output, accumulator, bitCount));
  }

  method ConvertBits(input: seq<nat>, from: nat, to: nat, pad: bool) returns (r: Result<seq<nat>>)
    requires 1 <= from <= 8 && 1 <= to <= 8
    ensures pad ==> (r.Ok? <==> Digits(input, Pow2(from)))
    ensures pad && r.Ok? ==> Padded(input, from, r.value, to)
    ensures !pad && r.Ok? ==> Digits(input, Pow2(from)) && Unpadded(input, from, r.value, to)
    ensures !pad && r.Err? ==> !Digits(input, Pow2(from)) || forall other :: !Unpadded(input, from, other, to)
  {
    var regrouped := Regroup(input, from, to);
    if regrouped.Err? {
      return Err;
    }
    var (output, accumulator, bitCount) := regrouped.value;
    PaddedEnding(input, output, accumulator, bitCount, from, to);
    UnpaddedEnding(input, output, accumulator, bitCount, from, to);
    var last := Low(Shift(accumulator, to - bitCount), to);
    if pad {
      r := Ok(if bitCount > 0 then output + [last] else output);
    } else if bitCount >= from || last != 0 {
      r := Err;
    } else {
      r := Ok(output);
    }
  }

  /** At most one digit sequence is the unpadded form of another. */
  lemma UnpaddedDetermines(input: seq<nat>, from: nat, a: seq<nat>, b: seq<nat>, to: nat)
    requires to > 0 && Unpadded(input, from, a, to) && Unpadded(input, from, b, to)
    ensures a == b
  {
    var bits := Flat(input, from);
    FlatLength(a, to);
    FlatLength(b, to);
    DivideUnique(|a|, |bits| - |a| * to, |b|, |bits| - |b| * to, to);
    assert Flat(a, to) == bits[..|a| * to] == Flat(b, to);
    FlatDetermines(a, b, to);
  }

  /** Padding and unpadding are inverse relations, for narrower output digits. */
  lemma PaddedIsUnpadded(input: seq<nat>, from: nat, output: seq<nat>, to: nat)
    requires to <= from && Digits(input, Pow2(from)) && Padded(input, from, output, to)
    ensures Unpadded(output, to, input, from)
  {
  }
}
