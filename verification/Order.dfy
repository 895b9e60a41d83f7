/** Byte strings and their lexicographic order.

    Go and C++ strings are byte sequences; both languages compare them byte by
    byte, a proper prefix sorting first. */
module Order {

  type byte = x: int | 0 <= x < 256

  type Bytes = seq<byte>

  /** Three-way comparison: negative, zero or positive. */
  function Compare(a: seq<int>, b: seq<int>): (r: int)
    ensures -1 <= r <= 1
  {
    if a == [] then (if b == [] then 0 else -1)
    else if b == [] then 1
    else if a[0] < b[0] then -1
    else if a[0] > b[0] then 1
    else Compare(a[1..], b[1..])
  }

  predicate Less(a: seq<int>, b: seq<int>) {
    Compare(a, b) < 0
  }

  lemma {:induction false} CompareAntisymmetric(a: seq<int>, b: seq<int>)
    ensures Compare(a, b) == -Compare(b, a)
    ensures Compare(a, b) == 0 <==> a == b
  {
    if a != [] && b != [] && a[0] == b[0] {
      CompareAntisymmetric(a[1..], b[1..]);
      assert a == [a[0]] + a[1..] && b == [b[0]] + b[1..];
    }
  }

  lemma {:induction false} CompareTransitive(a: seq<int>, b: seq<int>, c: seq<int>)
    requires Compare(a, b) <= 0 && Compare(b, c) <= 0
    ensures Compare(a, c) <= 0
    ensures Compare(a, b) < 0 || Compare(b, c) < 0 ==> Compare(a, c) < 0
  {
    if a != [] && b != [] && c != [] && a[0] == b[0] == c[0] {
      CompareTransitive(a[1..], b[1..], c[1..]);
    }
  }
}
