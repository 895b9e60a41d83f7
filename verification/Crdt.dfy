/** The replicated phrase state: per-device counters, a last-writer-wins pin and
    a remove-wins presence with explicit generations (protocol/crdt.go). */
module Crdt {
  import opened Order
  import opened Wrappers

  /** Hybrid logical clock reading. */
  datatype Hlc = Hlc(wall: int, counter: u32, node: Bytes)

  function HlcCompare(a: Hlc, b: Hlc): (r: int) {
    if a.wall < b.wall then -1
    else if a.wall > b.wall then 1
    else if a.counter < b.counter then -1
    else if a.counter > b.counter then 1
    else Compare(a.node, b.node)
  }

  predicate HlcLeq(a: Hlc, b: Hlc) {
    HlcCompare(a, b) <= 0
  }

  lemma HlcTotalOrder(a: Hlc, b: Hlc, c: Hlc)
    ensures HlcCompare(a, b) == -HlcCompare(b, a)
    ensures HlcCompare(a, b) == 0 <==> a == b
    ensures HlcLeq(a, b) && HlcLeq(b, c) ==> HlcLeq(a, c)
  {
    CompareAntisymmetric(a.node, b.node);
    if Compare(a.node, b.node) <= 0 && Compare(b.node, c.node) <= 0 {
      CompareTransitive(a.node, b.node, c.node);
    }
  }

  datatype LwwBool = LwwBool(value: bool, clock: Hlc)

  datatype Presence = Presence(present: bool, clock: Hlc, generation: u64)

  datatype ObjectId = NoObject | Object(text: Bytes, pinyin: Bytes)

  type Counts = map<Bytes, u64>

  datatype PhraseState = PhraseState(id: ObjectId, counts: Counts, pinned: LwwBool, presence: Presence)

  /** A missing component counts as zero. */
  function Count(counts: Counts, device: Bytes): (r: u64) {
    if device in counts then counts[device] else 0
  }

  function ChooseBool(left: LwwBool, right: LwwBool): (r: LwwBool) {
    var comparison := HlcCompare(left.clock, right.clock);
    if comparison < 0 then right
    else if comparison > 0 then left
    else if right.value then right
    else left
  }

  function ChoosePresence(left: Presence, right: Presence): (r: Presence) {
    if left.generation < right.generation then right
    else if left.generation > right.generation then left
    else if left.present != right.present then
      (if !right.present then right else left)
    else
      var comparison := HlcCompare(left.clock, right.clock);
      if comparison < 0 then right else left
  }

  function MergeCounts(left: Counts, right: Counts): (r: Counts) {
    map d | d in left.Keys + right.Keys && (d in left || Count(right, d) > 0) ::
      if Count(right, d) > Count(left, d) then Count(right, d) else Count(left, d)
  }

  predicate Mergeable(left: PhraseState, right: PhraseState) {
    left.id != NoObject && left.id == right.id
  }

  /** The value `MergePhrase` computes when it does not refuse its arguments. */
  function Join(left: PhraseState, right: PhraseState): (r: PhraseState) {
    PhraseState(left.id, MergeCounts(left.counts, right.counts),
                ChooseBool(left.pinned, right.pinned), ChoosePresence(left.presence, right.presence))
  }

  /** Clones the left counters and raises each component the right side counts
      higher, in whatever order the right map is iterated. */
  method MergePhrase(left: PhraseState, right: PhraseState) returns (r: Result<PhraseState>)
    ensures r.Err? <==> !Mergeable(left, right)
    ensures r.Ok? ==> r.value == Join(left, right)
  {
    if left.id == NoObject || left.id != right.id {
      return Err;
    }
    var counts := left.counts;
    var pending := right.counts.Keys;
    while pending != {}
      invariant pending <= right.counts.Keys
      invariant forall d <- pending :: Count(counts, d) == Count(left.counts, d) && (d in counts <==> d in left.counts)
      invariant forall d :: d !in pending ==> Count(counts, d) == Count(MergeCounts(left.counts, right.counts), d)
      invariant forall d :: d !in pending ==> (d in counts <==> d in MergeCounts(left.counts, right.counts))
    {
      var device :| device in pending;
      var count := right.counts[device];
      if count > Count(counts, device) {
        counts := counts[device := count];
      }
      pending := pending - {device};
    }
    assert counts.Keys == MergeCounts(left.counts, right.counts).Keys;
    assert forall d <- counts :: counts[d] == Count(counts, d);
    assert counts == MergeCounts(left.counts, right.counts);
    return Ok(PhraseState(left.id, counts, ChooseBool(left.pinned, right.pinned),
                          ChoosePresence(left.presence, right.presence)));
  }

  // --- The order the merge is the join of -----------------------------------

  ghost predicate PinLeq(a: LwwBool, b: LwwBool) {
    HlcCompare(a.clock, b.clock) < 0 || (a.clock == b.clock && (a.value ==> b.value))
  }

  /** Generations first; inside one generation a removal is above every
      presence; the clock only separates equal kinds. */
  ghost predicate PresenceLeq(a: Presence, b: Presence) {
    || a.generation < b.generation
    || (a.generation == b.generation &&
        ((a.present && !b.present) || (a.present == b.present && HlcLeq(a.clock, b.clock))))
  }

  ghost predicate CountsLeq(a: Counts, b: Counts) {
    forall d :: Count(a, d) <= Count(b, d)
  }

  /** Information order on states of one object. */
  ghost predicate Below(a: PhraseState, b: PhraseState) {
    a.id == b.id && PinLeq(a.pinned, b.pinned) && PresenceLeq(a.presence, b.presence) && CountsLeq(a.counts, b.counts)
  }

  /** Equality with absent counters read as zero. */
  ghost predicate Same(a: PhraseState, b: PhraseState) {
    a.id == b.id && a.pinned == b.pinned && a.presence == b.presence
    && forall d :: Count(a.counts, d) == Count(b.counts, d)
  }

  lemma PinTotalOrder(a: LwwBool, b: LwwBool, c: LwwBool)
    ensures PinLeq(a, a)
    ensures PinLeq(a, b) || PinLeq(b, a)
    ensures PinLeq(a, b) && PinLeq(b, a) ==> a == b
    ensures PinLeq(a, b) && PinLeq(b, c) ==> PinLeq(a, c)
    ensures ChooseBool(a, b) == if PinLeq(a, b) then b else a
  {
    HlcTotalOrder(a.clock, a.clock, a.clock);
    HlcTotalOrder(a.clock, b.clock, c.clock);
    HlcTotalOrder(b.clock, c.clock, a.clock);
    HlcTotalOrder(a.clock, c.clock, b.clock);
  }

  lemma PresenceTotalOrder(a: Presence, b: Presence, c: Presence)
    ensures PresenceLeq(a, a)
    ensures PresenceLeq(a, b) || PresenceLeq(b, a)
    ensures PresenceLeq(a, b) && PresenceLeq(b, a) ==> a == b
    ensures PresenceLeq(a, b) && PresenceLeq(b, c) ==> PresenceLeq(a, c)
    ensures ChoosePresence(a, b) == if PresenceLeq(a, b) then b else a
  {
    HlcTotalOrder(a.clock, a.clock, a.clock);
    HlcTotalOrder(a.clock, b.clock, c.clock);
  }

  lemma BelowReflexive(a: PhraseState)
    ensures Below(a, a)
  {
    PinTotalOrder(a.pinned, a.pinned, a.pinned);
    PresenceTotalOrder(a.presence, a.presence, a.presence);
  }

  lemma BelowTransitive(a: PhraseState, b: PhraseState, c: PhraseState)
    requires Below(a, b) && Below(b, c)
    ensures Below(a, c)
  {
    PinTotalOrder(a.pinned, b.pinned, c.pinned);
    PresenceTotalOrder(a.presence, b.presence, c.presence);
    forall d ensures Count(a.counts, d) <= Count(c.counts, d) {
      assert Count(a.counts, d) <= Count(b.counts, d);
    }
  }

  lemma BelowAntisymmetric(a: PhraseState, b: PhraseState)
    ensures Below(a, b) && Below(b, a) <==> Same(a, b)
  {
    PinTotalOrder(a.pinned, b.pinned, b.pinned);
    PresenceTotalOrder(a.presence, b.presence, b.presence);
    if Same(a, b) {
      assert CountsLeq(a.counts, b.counts) && CountsLeq(b.counts, a.counts);
    }
  }

  lemma MergeCountsPointwise(left: Counts, right: Counts, d: Bytes)
    ensures Count(MergeCounts(left, right), d)
         == if Count(left, d) < Count(right, d) then Count(right, d) else Count(left, d)
  {
  }

  /** `MergePhrase` is the least upper bound of its arguments in the
      information order: it loses nothing and adds nothing. */
  lemma JoinIsLeastUpperBound(a: PhraseState, b: PhraseState)
    requires a.id == b.id
    ensures Below(a, Join(a, b)) && Below(b, Join(a, b))
    ensures forall u :: Below(a, u) && Below(b, u) ==> Below(Join(a, b), u)
  {
    PinTotalOrder(a.pinned, b.pinned, a.pinned);
    PinTotalOrder(b.pinned, b.pinned, a.pinned);
    PresenceTotalOrder(a.presence, b.presence, a.presence);
    PresenceTotalOrder(b.presence, b.presence, a.presence);
    forall d
      ensures Count(a.counts, d) <= Count(Join(a, b).counts, d) && Count(b.counts, d) <= Count(Join(a, b).counts, d)
    {
      MergeCountsPointwise(a.counts, b.counts, d);
    }
    forall u | Below(a, u) && Below(b, u) ensures Below(Join(a, b), u) {
      forall d ensures Count(Join(a, b).counts, d) <= Count(u.counts, d) {
        MergeCountsPointwise(a.counts, b.counts, d);
        assert Count(a.counts, d) <= Count(u.counts, d) && Count(b.counts, d) <= Count(u.counts, d);
      }
    }
  }

  /** The order is the one the merge induces. */
  lemma BelowIffJoinAbsorbs(a: PhraseState, b: PhraseState)
    requires a.id == b.id
    ensures Below(a, b) <==> Same(Join(a, b), b)
  {
    JoinIsLeastUpperBound(a, b);
    BelowReflexive(b);
    BelowAntisymmetric(Join(a, b), b);
    if Same(Join(a, b), b) {
      BelowTransitive(a, Join(a, b), b);
    }
  }

  /** Associative, commutative and idempotent: any delivery order and any
      duplication of the same updates reads the same. */
  lemma MergeIsAJoin(a: PhraseState, b: PhraseState, c: PhraseState)
    requires a.id == b.id == c.id
    ensures Same(Join(a, a), a)
    ensures Same(Join(a, b), Join(b, a))
    ensures Same(Join(Join(a, b), c), Join(a, Join(b, c)))
  {
    BelowReflexive(a);
    BelowIffJoinAbsorbs(a, a);
    JoinIsLeastUpperBound(a, b);
    JoinIsLeastUpperBound(b, a);
    BelowAntisymmetric(Join(a, b), Join(b, a));
    JoinIsLeastUpperBound(b, c);
    var l, r := Join(Join(a, b), c), Join(a, Join(b, c));
    JoinIsLeastUpperBound(Join(a, b), c);
    JoinIsLeastUpperBound(a, Join(b, c));
    BelowTransitive(a, Join(a, b), l);
    BelowTransitive(b, Join(a, b), l);
    BelowTransitive(b, Join(b, c), r);
    BelowTransitive(c, Join(b, c), r);
    assert Below(Join(b, c), l);
    assert Below(Join(a, b), r);
    BelowAntisymmetric(l, r);
  }

  /** The counter maps list the same devices among those that neither counts. */
  ghost predicate SameZeros(a: Counts, b: Counts) {
    forall d | Count(a, d) == 0 && Count(b, d) == 0 :: d in a <==> d in b
  }

  lemma MergeCountsAssociates(a: Counts, b: Counts, c: Counts)
    ensures MergeCounts(MergeCounts(a, b), c) == MergeCounts(a, MergeCounts(b, c))
  {
    var l, r := MergeCounts(MergeCounts(a, b), c), MergeCounts(a, MergeCounts(b, c));
    forall d ensures (d in l <==> d in r) && Count(l, d) == Count(r, d) {
      MergeCountsPointwise(a, b, d);
      MergeCountsPointwise(b, c, d);
      MergeCountsPointwise(MergeCounts(a, b), c, d);
      MergeCountsPointwise(a, MergeCounts(b, c), d);
    }
    SameCounts(l, r);
  }

  lemma SameCounts(a: Counts, b: Counts)
    requires forall d :: (d in a <==> d in b) && Count(a, d) == Count(b, d)
    ensures a == b
  {
    assert forall d | d in a :: a[d] == Count(a, d) && b[d] == Count(b, d);
  }

  lemma MergeCountsCommutes(a: Counts, b: Counts)
    ensures MergeCounts(a, b) == MergeCounts(b, a) <==> SameZeros(a, b)
  {
    var ab, ba := MergeCounts(a, b), MergeCounts(b, a);
    forall d
      ensures Count(ab, d) == Count(ba, d)
      ensures d in ab <==> d in a || Count(b, d) > 0
      ensures d in ba <==> d in b || Count(a, d) > 0
    {
      MergeCountsPointwise(a, b, d);
      MergeCountsPointwise(b, a, d);
    }
    if SameZeros(a, b) {
      SameCounts(ab, ba);
    }
  }

  /** On the states themselves, explicit zero counters included, the merge is
      idempotent and associative; it is commutative exactly when the two sides list
      the same zero counters. */
  lemma MergeOfMaps(a: PhraseState, b: PhraseState, c: PhraseState)
    requires a.id == b.id == c.id
    ensures Join(a, a) == a
    ensures Join(Join(a, b), c) == Join(a, Join(b, c))
    ensures Join(a, b) == Join(b, a) <==> SameZeros(a.counts, b.counts)
  {
    assert MergeCounts(a.counts, a.counts) == a.counts;
    MergeIsAJoin(a, b, c);
    MergeCountsAssociates(a.counts, b.counts, c.counts);
    MergeCountsCommutes(a.counts, b.counts);
  }

  /** A zero counter on one side only: the merged maps differ by it. */
  lemma ZeroCounterStaysOnItsSide(id: ObjectId, d: Bytes, pinned: LwwBool, presence: Presence)
    ensures var a := PhraseState(id, map[d := 0], pinned, presence);
            var b := PhraseState(id, map[], pinned, presence);
            Join(a, b) != Join(b, a)
  {
    var a := PhraseState(id, map[d := 0], pinned, presence);
    var b := PhraseState(id, map[], pinned, presence);
    assert d in Join(a, b).counts && d !in Join(b, a).counts;
  }

  /** Remove-wins: above a tombstone of generation g there is only a tombstone
      of the same generation or something of a later generation. */
  lemma TombstoneDominates(a: PhraseState, b: PhraseState)
    requires Below(a, b) && !a.presence.present
    ensures b.presence.generation > a.presence.generation
         || (b.presence.generation == a.presence.generation && !b.presence.present)
  {
  }

  // --- Settings --------------------------------------------------------------

  datatype SettingState = SettingState(key: Bytes, value: Bytes, clock: Hlc)

  function MergeSetting(left: SettingState, right: SettingState): (r: Result<SettingState>) {
    if left.key == [] || left.key != right.key then Err
    else
      var comparison := HlcCompare(left.clock, right.clock);
      if comparison < 0 then Ok(right)
      else if comparison > 0 then Ok(left)
      else if Less(left.value, right.value) then Ok(right)
      else Ok(left)
  }

  ghost predicate SettingLeq(a: SettingState, b: SettingState) {
    a.key == b.key &&
    (HlcCompare(a.clock, b.clock) < 0 || (a.clock == b.clock && Compare(a.value, b.value) <= 0))
  }

  lemma SettingTotalOrder(a: SettingState, b: SettingState, c: SettingState)
    requires a.key == b.key == c.key
    ensures SettingLeq(a, b) || SettingLeq(b, a)
    ensures SettingLeq(a, b) && SettingLeq(b, a) ==> a == b
    ensures SettingLeq(a, b) && SettingLeq(b, c) ==> SettingLeq(a, c)
  {
    HlcTotalOrder(a.clock, b.clock, c.clock);
    HlcTotalOrder(b.clock, c.clock, a.clock);
    HlcTotalOrder(a.clock, c.clock, b.clock);
    CompareAntisymmetric(a.value, b.value);
    if Compare(a.value, b.value) <= 0 && Compare(b.value, c.value) <= 0 {
      CompareTransitive(a.value, b.value, c.value);
    }
  }

  /** A merged setting is the greater of the two in one total order, so merging
      is associative, commutative and idempotent on equal nonempty keys. */
  lemma MergeSettingIsAJoin(a: SettingState, b: SettingState, c: SettingState)
    requires a.key == b.key == c.key && a.key != []
    ensures MergeSetting(a, b) == Ok(if SettingLeq(a, b) then b else a)
    ensures MergeSetting(a, a) == Ok(a)
    ensures MergeSetting(a, b) == MergeSetting(b, a)
    ensures MergeSetting(MergeSetting(a, b).value, c) == MergeSetting(a, MergeSetting(b, c).value)
  {
    HlcTotalOrder(a.clock, b.clock, c.clock);
    HlcTotalOrder(b.clock, c.clock, a.clock);
    HlcTotalOrder(a.clock, c.clock, b.clock);
    CompareAntisymmetric(a.value, b.value);
    CompareAntisymmetric(b.value, c.value);
    CompareAntisymmetric(a.value, c.value);
    SettingTotalOrder(a, b, c);
    SettingTotalOrder(c, b, a);
    SettingTotalOrder(b, a, c);
    SettingTotalOrder(a, c, b);
    HlcTotalOrder(a.clock, a.clock, a.clock);
    CompareAntisymmetric(a.value, a.value);
  }

  // --- Saturating totals -----------------------------------------------------

  /** The unbounded sum of all components. */
  ghost function Sum(counts: Counts): (r: nat) {
    if counts.Keys == {} then 0
    else
      var d :| d in counts.Keys;
      counts[d] + Sum(counts - {d})
  }

  lemma {:induction false} SumPick(counts: Counts, d: Bytes)
    requires d in counts
    ensures Sum(counts) == counts[d] + Sum(counts - {d})
    decreases |counts|
  {
    var e :| e in counts.Keys && Sum(counts) == counts[e] + Sum(counts - {e});
    if e != d {
      SumPick(counts - {e}, d);
      SumPick(counts - {d}, e);
      assert counts - {e} - {d} == counts - {d} - {e};
    }
  }

  lemma SumUpdate(counts: Counts, d: Bytes, v: u64)
    ensures Sum(counts[d := v]) == Sum(counts) - Count(counts, d) + v
  {
    SumPick(counts[d := v], d);
    if d in counts {
      SumPick(counts, d);
      assert counts[d := v] - {d} == counts - {d};
    } else {
      assert counts[d := v] - {d} == counts;
    }
  }

  lemma CountAtMostSum(counts: Counts, d: Bytes)
    ensures Count(counts, d) <= Sum(counts)
  {
    if d in counts {
      SumPick(counts, d);
    }
  }

  lemma {:induction false} SumOfZeros(counts: Counts)
    requires forall d :: Count(counts, d) == 0
    ensures Sum(counts) == 0
    decreases |counts|
  {
    if d :| d in counts.Keys {
      SumPick(counts, d);
      assert counts[d] == Count(counts, d);
      assert forall e :: Count(counts - {d}, e) <= Count(counts, e);
      SumOfZeros(counts - {d});
    }
  }

  /** Totals ignore zero components, so states that read the same total the same. */
  lemma {:induction false} SumReads(a: Counts, b: Counts)
    requires forall d :: Count(a, d) == Count(b, d)
    ensures Sum(a) == Sum(b)
    decreases |a|
  {
    if d :| d in a.Keys {
      SumUpdate(b, d, 0);
      SumPick(b[d := 0], d);
      SumPick(a, d);
      var a', b' := a - {d}, b[d := 0] - {d};
      forall e ensures Count(a', e) == Count(b', e) {
        assert Count(a, e) == Count(b, e);
      }
      SumReads(a', b');
    } else {
      SumOfZeros(b);
    }
  }

  function Saturate(n: nat): (r: u64) {
    if n > MAX_U64 then MAX_U64 else n
  }

  /** Adds the components up in any order, stopping at the largest value. */
  method TotalCounts(counts: Counts) returns (total: u64)
    ensures total == Saturate(Sum(counts))
  {
    total := 0;
    var pending := counts;
    while pending.Keys != {}
      invariant total + Sum(pending) == Sum(counts)
      decreases |pending|
    {
      var device :| device in pending.Keys;
      SumPick(pending, device);
      if MAX_U64 - total < pending[device] {
        return MAX_U64;
      }
      total := total + pending[device];
      pending := pending - {device};
    }
  }
}
