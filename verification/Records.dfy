/** Pieces of the canonical credential record (desktopagent/credentials.go):
    big-endian numbers, key-value tables written in ascending key order, and the
    byte reader. A layout function takes the bytes that follow, so that a record is
    a chain `part + (part + (… + tail))`. */
module Records {
  import opened Order
  import opened Wrappers

  // --- Big-endian numbers ----------------------------------------------------

  function Bound(k: nat): (r: nat)
    ensures r >= 1
  {
    if k == 0 then 1 else 256 * Bound(k - 1)
  }

  function BigEndian(n: nat, k: nat): (r: Bytes)
    ensures |r| == k
    decreases k
  {
    if k == 0 then [] else BigEndian(n / 256, k - 1) + [n % 256]
  }

  function Value(b: Bytes): (r: nat)
    ensures r < Bound(|b|)
  {
    if b == [] then 0 else 256 * Value(b[..|b| - 1]) + b[|b| - 1]
  }

  lemma {:induction false} ValueOfBigEndian(n: nat, k: nat)
    requires n < Bound(k)
    ensures Value(BigEndian(n, k)) == n
    decreases k
  {
    if k > 0 {
      ValueOfBigEndian(n / 256, k - 1);
      assert BigEndian(n, k)[..k - 1] == BigEndian(n / 256, k - 1);
    }
  }

  lemma {:induction false} BigEndianOfValue(b: Bytes)
    ensures BigEndian(Value(b), |b|) == b
  {
    if b != [] {
      BigEndianOfValue(b[..|b| - 1]);
      assert b == b[..|b| - 1] + [b[|b| - 1]];
    }
  }

  lemma Bounds()
    ensures Bound(2) == 0x1_0000 && Bound(8) == MAX_U64 + 1
  {
    assert Bound(2) == 0x1_0000;
    assert Bound(4) == 0x1_0000_0000;
    assert Bound(6) == 0x1_0000_0000_0000;
  }

  lemma SameSplit(a: Bytes, b: Bytes, c: Bytes, d: Bytes)
    requires a + b == c + d && |a| == |c|
    ensures a == c && b == d
  {
    assert a == (a + b)[..|a|] && c == (c + d)[..|a|];
    assert b == (a + b)[|a|..] && d == (c + d)[|a|..];
  }

  // --- Tables in key order ---------------------------------------------------

  type Key = b: Bytes | |b| == 32 witness seq(32, _ => 0)

  ghost predicate StrictOrder<K(!new)>(less: (K, K) -> bool) {
    && (forall a, b | less(a, b) :: !less(b, a))
    && (forall a, b :: a == b || less(a, b) || less(b, a))
    && (forall a, b, c | less(a, b) && less(b, c) :: less(a, c))
  }

  ghost predicate Ascending<K(!new)>(keys: seq<K>, less: (K, K) -> bool) {
    forall i, j | 0 <= i < j < |keys| :: less(keys[i], keys[j])
  }

  /** The keys of a table, ascending. */
  ghost predicate Lists<K(!new)>(keys: seq<K>, table: map<K, Key>, less: (K, K) -> bool) {
    Ascending(keys, less) && forall k :: k in keys <==> k in table
  }

  /** A table has one listing. */
  lemma {:induction false} AscendingUnique<K(!new)>(a: seq<K>, b: seq<K>, less: (K, K) -> bool)
    requires StrictOrder(less) && Ascending(a, less) && Ascending(b, less) && forall k :: k in a <==> k in b
    ensures a == b
  {
    if a != [] {
      assert a[0] in b;
    }
    if b != [] {
      assert b[0] in a;
    }
    if a != [] && b != [] {
      assert a[0] == b[0];
      assert a == [a[0]] + a[1..] && b == [b[0]] + b[1..];
      forall k ensures k in a[1..] <==> k in b[1..] {
        assert k in a[1..] ==> less(a[0], k);
        assert k in b[1..] ==> less(b[0], k);
        assert k in a <==> k == a[0] || k in a[1..];
        assert k in b <==> k == b[0] || k in b[1..];
      }
      AscendingUnique(a[1..], b[1..], less);
    }
  }

  lemma {:induction false} AscendingSize<K(!new)>(keys: seq<K>, table: map<K, Key>, less: (K, K) -> bool)
    requires StrictOrder(less) && Lists(keys, table, less)
    ensures |keys| == |table|
  {
    if keys == [] {
      assert table.Keys == {};
    } else {
      var k, rest := keys[0], keys[1..];
      var table' := map x | x in table && x != k :: table[x];
      assert table'.Keys == table.Keys - {k};
      forall x ensures x in rest <==> x in table' {
        assert x in keys <==> x == k || x in rest by { assert keys == [k] + rest; }
        assert x in rest ==> less(k, x);
      }
      AscendingSize(rest, table', less);
    }
  }

  function Insert<K(!new)>(keys: seq<K>, k: K, less: (K, K) -> bool): (r: seq<K>) {
    if keys == [] || less(k, keys[0]) then [k] + keys else [keys[0]] + Insert(keys[1..], k, less)
  }

  lemma {:induction false} InsertAscends<K(!new)>(keys: seq<K>, k: K, less: (K, K) -> bool)
    requires StrictOrder(less) && Ascending(keys, less) && k !in keys
    ensures Ascending(Insert(keys, k, less), less)
    ensures forall x :: x in Insert(keys, k, less) <==> x == k || x in keys
  {
    if keys != [] && !less(k, keys[0]) {
      InsertAscends(keys[1..], k, less);
      var rest := Insert(keys[1..], k, less);
      assert less(keys[0], k);
      forall x | x in rest ensures less(keys[0], x) {
        assert x == k || x in keys[1..];
      }
      assert keys == [keys[0]] + keys[1..];
    } else if keys != [] {
      forall i | 0 <= i < |keys| ensures less(k, keys[i]) {
        assert i == 0 || less(keys[0], keys[i]);
      }
    }
  }

  /** Collects the keys of a table, in whatever order it yields them, and sorts. */
  method SortedKeys<K(!new, ==)>(table: map<K, Key>, less: (K, K) -> bool) returns (keys: seq<K>)
    requires StrictOrder(less)
    ensures Lists(keys, table, less)
  {
    keys := [];
    var left := table.Keys;
    while left != {}
      invariant left <= table.Keys && Ascending(keys, less)
      invariant forall k :: k in keys <==> k in table && k !in left
      decreases |left|
    {
      var k :| k in left;
      InsertAscends(keys, k, less);
      keys := Insert(keys, k, less);
      left := left - {k};
    }
  }

  // --- Entries ---------------------------------------------------------------

  /** The entries of the listed keys, then `tail`. */
  function Entries<K>(keys: seq<K>, table: map<K, Key>, write: K -> Bytes, tail: Bytes): (r: Bytes)
    requires forall k | k in keys :: k in table
  {
    if keys == [] then tail
    else write(keys[0]) + (table[keys[0]] + Entries(keys[1..], table, write, tail))
  }

  lemma {:induction false} EntriesSnoc<K>(keys: seq<K>, k: K, table: map<K, Key>, write: K -> Bytes, tail: Bytes)
    requires k in table && forall x | x in keys :: x in table
    ensures Entries(keys + [k], table, write, tail) == Entries(keys, table, write, write(k) + (table[k] + tail))
  {
    if keys == [] {
      assert (keys + [k])[1..] == [];
    } else {
      assert (keys + [k])[1..] == keys[1..] + [k];
      EntriesSnoc(keys[1..], k, table, write, tail);
    }
  }

  lemma {:induction false} EntriesFrame<K>(keys: seq<K>, table: map<K, Key>, other: map<K, Key>, write: K -> Bytes,
                                           tail: Bytes)
    requires forall k | k in keys :: k in table && k in other && table[k] == other[k]
    ensures Entries(keys, table, write, tail) == Entries(keys, other, write, tail)
  {
    if keys != [] {
      EntriesFrame(keys[1..], table, other, write, tail);
    }
  }

  lemma {:induction false} EntriesLength<K>(keys: seq<K>, table: map<K, Key>, write: K -> Bytes, width: nat,
                                            tail: Bytes)
    requires forall k | k in keys :: k in table
    requires forall k | k in keys :: |write(k)| == width
    ensures |Entries(keys, table, write, tail)| == |keys| * (width + 32) + |tail|
  {
    if keys != [] {
      EntriesLength(keys[1..], table, write, width, tail);
      assert |keys| * (width + 32) == |keys[1..]| * (width + 32) + (width + 32);
    }
  }

  lemma {:induction false} EntriesDetermine<K(!new)>(a: seq<K>, m: map<K, Key>, b: seq<K>, n: map<K, Key>,
                                                     write: K -> Bytes, t: Bytes, u: Bytes)
    requires (forall k | k in a :: k in m) && (forall k | k in b :: k in n) && |a| == |b|
    requires forall k, l :: |write(k)| == |write(l)| && (write(k) == write(l) ==> k == l)
    requires Entries(a, m, write, t) == Entries(b, n, write, u)
    ensures a == b && t == u && forall k | k in a :: m[k] == n[k]
  {
    if a != [] {
      var c, d := Entries(a[1..], m, write, t), Entries(b[1..], n, write, u);
      SameSplit(write(a[0]), m[a[0]] + c, write(b[0]), n[b[0]] + d);
      SameSplit(m[a[0]], c, n[b[0]], d);
      EntriesDetermine(a[1..], m, b[1..], n, write, t, u);
      assert a == [a[0]] + a[1..] && b == [b[0]] + b[1..];
    }
  }

  /** Reading one more entry, with a key beyond those read. */
  lemma EntryRead<K(!new)>(keys: seq<K>, table: map<K, Key>, less: (K, K) -> bool, write: K -> Bytes, k: K, v: Key,
                           rest: Bytes)
    requires StrictOrder(less) && Lists(keys, table, less)
    requires keys != [] ==> less(keys[|keys| - 1], k)
    ensures Lists(keys + [k], table[k := v], less)
    ensures Entries(keys + [k], table[k := v], write, rest) == Entries(keys, table, write, write(k) + (v + rest))
  {
    forall i | 0 <= i < |keys| ensures less(keys[i], k) {
      assert i < |keys| - 1 ==> less(keys[i], keys[|keys| - 1]);
    }
    assert k !in keys;
    EntriesFrame(keys, table, table[k := v], write, write(k) + (v + rest));
    EntriesSnoc(keys, k, table[k := v], write, rest);
  }

  /** The first `i` of the entries `goal` have been read, and the others lie ahead. */
  ghost predicate Following<K(!new)>(goal: seq<K>, w: map<K, Key>, write: K -> Bytes, tail: Bytes,
                                     i: nat, keys: seq<K>, table: map<K, Key>, ahead: Bytes) {
    && i <= |goal| && (forall k | k in goal :: k in w)
    && keys == goal[..i]
    && (forall k | k in table :: k in w && w[k] == table[k])
    && ahead == Entries(goal[i..], w, write, tail)
  }

  lemma FollowOne<K(!new)>(goal: seq<K>, w: map<K, Key>, write: K -> Bytes, tail: Bytes,
                           i: nat, keys: seq<K>, table: map<K, Key>, ahead: Bytes)
    requires Following(goal, w, write, tail, i, keys, table, ahead) && i < |goal|
    ensures var rest := Entries(goal[i + 1..], w, write, tail);
            && ahead == write(goal[i]) + (w[goal[i]] + rest)
            && Following(goal, w, write, tail, i + 1, keys + [goal[i]], table[goal[i] := w[goal[i]]], rest)
  {
    assert goal[i..][1..] == goal[i + 1..];
    assert goal[..i + 1] == goal[..i] + [goal[i]];
  }

  lemma FollowEnd<K(!new)>(goal: seq<K>, w: map<K, Key>, less: (K, K) -> bool, write: K -> Bytes, tail: Bytes,
                           keys: seq<K>, table: map<K, Key>, ahead: Bytes)
    requires Lists(goal, w, less) && Lists(keys, table, less)
    requires Following(goal, w, write, tail, |goal|, keys, table, ahead)
    ensures table == w && ahead == tail
  {
    assert keys == goal;
  }

  // --- Reading ---------------------------------------------------------------

  class Reader {
    const value: Bytes
    var offset: nat

    ghost predicate Valid()
      reads this
    {
      offset <= |value|
    }

    ghost function Rest(): (r: Bytes)
      reads this
      requires Valid()
    {
      value[offset..]
    }

    constructor (value: Bytes)
      ensures Valid() && Rest() == value && offset == 0 && this.value == value
    {
      this.value := value;
      this.offset := 0;
    }

    /** The next `length` bytes; `part` and `tail` name a layout of what is left. */
    method Take(length: nat, ghost part: Bytes, ghost tail: Bytes) returns (r: Result<Bytes>)
      requires Valid()
      modifies this
      ensures Valid()
      ensures r.Err? ==> |old(Rest())| < length && Rest() == old(Rest())
      ensures r.Ok? ==> |r.value| == length && old(Rest()) == r.value + Rest()
      ensures old(Rest()) == part + tail && |part| == length ==> r == Ok(part) && Rest() == tail
    {
      if offset > |value| - length {
        return Err;
      }
      var taken := value[offset..offset + length];
      offset := offset + length;
      assert old(Rest()) == taken + Rest();
      if old(Rest()) == part + tail && |part| == length {
        SameSplit(part, tail, taken, Rest());
      }
      return Ok(taken);
    }

    /** The next big-endian number of `width` bytes. */
    method Number(width: nat, ghost n: nat, ghost tail: Bytes) returns (r: Result<nat>)
      requires Valid()
      modifies this
      ensures Valid()
      ensures r.Ok? ==> r.value < Bound(width) && old(Rest()) == BigEndian(r.value, width) + Rest()
      ensures n < Bound(width) && old(Rest()) == BigEndian(n, width) + tail ==> r == Ok(n) && Rest() == tail
    {
      var taken := Take(width, BigEndian(n, width), tail);
      if taken.Err? {
        return Err;
      }
      BigEndianOfValue(taken.value);
      if n < Bound(width) {
        ValueOfBigEndian(n, width);
      }
      return Ok(Value(taken.value));
    }
  }
}
