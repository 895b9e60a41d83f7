/** The sorted lookup keys of engine/src/phrase_engine.cpp and the binary-search
    prefix ranges over them. */
module PhraseKeys {
  import opened Order
  import opened Records

  /** Normalised pinyin: letters a to z. */
  predicate Letters(k: Bytes) {
    forall i | 0 <= i < |k| :: 97 <= k[i] <= 122
  }

  /** The byte after 'z'. */
  const BRACE: byte := 123

  datatype KeyRef = KeyRef(key: Bytes, entry: nat)

  function KeyLess(a: KeyRef, b: KeyRef): (r: bool) {
    Less(a.key, b.key) || (a.key == b.key && a.entry < b.entry)
  }

  lemma KeyOrder()
    ensures StrictOrder(KeyLess)
  {
    forall a, b ensures (a == b || KeyLess(a, b) || KeyLess(b, a)) && (KeyLess(a, b) ==> !KeyLess(b, a)) {
      CompareAntisymmetric(a.key, b.key);
    }
    forall a, b, c | KeyLess(a, b) && KeyLess(b, c) ensures KeyLess(a, c) {
      CompareAntisymmetric(a.key, b.key);
      CompareAntisymmetric(b.key, c.key);
      CompareTransitive(a.key, b.key, c.key);
    }
  }

  method SortKeys(keys: seq<KeyRef>) returns (sorted: seq<KeyRef>)
    requires forall i, j | 0 <= i < j < |keys| :: keys[i] != keys[j]
    ensures Ascending(sorted, KeyLess) && forall k :: k in sorted <==> k in keys
  {
    KeyOrder();
    sorted := [];
    for i := 0 to |keys|
      invariant Ascending(sorted, KeyLess) && forall k :: k in sorted <==> k in keys[..i]
    {
      InsertAscends(sorted, keys[i], KeyLess);
      sorted := Insert(sorted, keys[i], KeyLess);
      assert keys[..i + 1] == keys[..i] + [keys[i]];
    }
    assert keys[..|keys|] == keys;
  }

  // --- Prefix ranges ---------------------------------------------------------

  /** Among letter keys, those with a prefix are the ones from the prefix up to the
      prefix followed by the byte after 'z'. */
  lemma {:induction false} PrefixIsRange(key: Bytes, prefix: Bytes)
    requires Letters(key)
    ensures prefix <= key <==> !Less(key, prefix) && Less(key, prefix + [BRACE])
  {
    var upper := prefix + [BRACE];
    if prefix != [] && key != [] && key[0] == prefix[0] {
      PrefixIsRange(key[1..], prefix[1..]);
      assert upper[1..] == prefix[1..] + [BRACE];
      assert prefix <= key <==> prefix[1..] <= key[1..] by {
        assert key == [key[0]] + key[1..] && prefix == [prefix[0]] + prefix[1..];
      }
    }
  }

  /** Keys below a bound come before those that are not. */
  lemma BelowFirst(index: seq<KeyRef>, bound: Bytes, i: nat, j: nat)
    requires Ascending(index, KeyLess) && i <= j < |index| && Less(index[j].key, bound)
    ensures Less(index[i].key, bound)
  {
    if i < j {
      assert KeyLess(index[i], index[j]);
      CompareAntisymmetric(index[i].key, index[j].key);
      CompareTransitive(index[i].key, index[j].key, bound);
    }
  }

  /** The first position from `from` on whose key is not below the bound. */
  method LowerBound(index: seq<KeyRef>, bound: Bytes, from: nat) returns (lo: nat)
    requires Ascending(index, KeyLess) && from <= |index|
    ensures from <= lo <= |index|
    ensures forall i | from <= i < lo :: Less(index[i].key, bound)
    ensures forall i | lo <= i < |index| :: !Less(index[i].key, bound)
  {
    lo := from;
    var hi := |index|;
    while lo < hi
      invariant from <= lo <= hi <= |index|
      invariant forall i | from <= i < lo :: Less(index[i].key, bound)
      invariant forall i | hi <= i < |index| :: !Less(index[i].key, bound)
    {
      var mid := lo + (hi - lo) / 2;
      if Less(index[mid].key, bound) {
        forall i: nat | i <= mid ensures Less(index[i].key, bound) {
          BelowFirst(index, bound, i, mid);
        }
        lo := mid + 1;
      } else {
        forall i: nat | mid <= i < |index| ensures !Less(index[i].key, bound) {
          if Less(index[i].key, bound) {
            BelowFirst(index, bound, mid, i);
          }
        }
        hi := mid;
      }
    }
  }

  /** The range of positions whose keys have the prefix. */
  method PrefixRange(index: seq<KeyRef>, prefix: Bytes) returns (begin: nat, end: nat)
    requires Ascending(index, KeyLess) && forall i | 0 <= i < |index| :: Letters(index[i].key)
    ensures begin <= end <= |index|
    ensures forall i | 0 <= i < |index| :: begin <= i < end <==> prefix <= index[i].key
  {
    begin := LowerBound(index, prefix, 0);
    end := LowerBound(index, prefix + [BRACE], begin);
    forall i | 0 <= i < |index| ensures begin <= i < end <==> prefix <= index[i].key {
      PrefixIsRange(index[i].key, prefix);
    }
  }
}
