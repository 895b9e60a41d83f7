/** What every store operation keeps: the persisted clock covers every stored
    clock, queued rows are at or below the stored record, and each mutation
    only moves a record up in the information order. */
module DeviceLaws {
  import opened Order
  import opened Wrappers
  import opened Crdt
  import opened Wire
  import opened Device

  /** The replicated state a database holds for an object, if any. */
  ghost function Held(db: Database, id: ObjectId): (r: Option<PhraseState>) {
    if id in db.phrases && db.phrases[id].crdt.id != NoObject then Some(db.phrases[id].crdt) else None
  }

  ghost predicate OptBelow(a: Option<PhraseState>, b: Option<PhraseState>) {
    a.Some? ==> b.Some? && Below(a.value, b.value)
  }

  ghost function OptCount(a: Option<PhraseState>, device: Bytes): (r: u64) {
    if a.Some? then Count(a.value.counts, device) else 0
  }

  ghost predicate ClockOk(wall: int, counter: int, clock: Hlc) {
    Covers(wall, counter, clock) && 0 <= clock.wall && (clock == ZERO_CLOCK || ValidDeviceId(clock.node))
  }

  /** A valid payload whose clocks come from real time. */
  ghost predicate SoundPayload(p: Payload) {
    ValidPayload(p) && 0 <= p.state.pinned.clock.wall && 0 <= p.state.presence.clock.wall
  }

  /** A stored record of any age: keyed by its own text and pinyin, and its
      metadata, if it has any, only carries covered clocks and valid counters. */
  ghost predicate RecordOk(wall: int, counter: int, id: ObjectId, p: Phrase) {
    && id != NoObject && id == ObjectOf(p.text, p.pinyin)
    && (p.crdt.id == NoObject
        || (&& p.crdt.id == id
            && ClockOk(wall, counter, p.crdt.pinned.clock) && ClockOk(wall, counter, p.crdt.presence.clock)
            && ValidCounters(p.crdt.counts)))
  }

  ghost predicate RowOk(db: Database, id: ObjectId, row: OutboxRow) {
    && 1 <= row.eventId < db.nextEvent && 1 <= row.version
    && SoundPayload(PayloadOf(row.phrase)) && row.phrase.crdt.id == id
    && OptBelow(Some(row.phrase.crdt), Held(db, id))
  }

  ghost predicate RecordsOk(db: Database) {
    forall id <- db.phrases :: RecordOk(db.wall, db.counter, id, db.phrases[id])
  }

  ghost predicate ClockAndRecordsOk(db: Database) {
    ValidDeviceId(db.device) && 0 <= db.wall && RecordsOk(db)
  }

  /** Records either have no metadata yet or all of it; `MergeRemoteSucceedsIff` says
      what partial metadata would change. */
  ghost predicate RecordsComplete(db: Database) {
    forall id <- db.phrases :: db.phrases[id].crdt.id != NoObject ==> SoundPayload(PayloadOf(db.phrases[id]))
  }

  ghost predicate RowsOk(db: Database) {
    forall id <- db.outbox :: RowOk(db, id, db.outbox[id])
  }

  ghost predicate DistinctEvents(outbox: map<ObjectId, OutboxRow>) {
    forall i, j | i in outbox && j in outbox && outbox[i].eventId == outbox[j].eventId :: i == j
  }

  ghost predicate DatabaseOk(db: Database) {
    && ClockAndRecordsOk(db) && RecordsComplete(db) && 1 <= db.nextEvent
    && RowsOk(db) && DistinctEvents(db.outbox)
  }

  ghost predicate Grown(before: Database, after: Database) {
    forall id :: OptBelow(Held(before, id), Held(after, id))
  }

  /** The sync checkpoint is untouched. */
  ghost predicate SameCheckpoint(db: Database, after: Database) {
    && after.device == db.device && after.cursor == db.cursor && after.nextSequence == db.nextSequence
    && after.previous == db.previous && after.prepared == db.prepared
  }

  lemma OptBelowReflexive(a: Option<PhraseState>)
    ensures OptBelow(a, a)
  {
    if a.Some? {
      BelowReflexive(a.value);
    }
  }

  lemma OptBelowTransitive(a: Option<PhraseState>, b: Option<PhraseState>, c: Option<PhraseState>)
    requires OptBelow(a, b) && OptBelow(b, c)
    ensures OptBelow(a, c)
  {
    if a.Some? {
      BelowTransitive(a.value, b.value, c.value);
    }
  }

  // --- Completing metadata ---------------------------------------------------

  lemma EnsureStateValid(db: Database, id: ObjectId, p: Phrase, physical: int)
    requires ValidDeviceId(db.device) && 0 <= db.wall
    requires RecordOk(db.wall, db.counter, id, p)
    ensures var (next, clock) := NextClock(db, physical);
            var r := EnsureState(p, id, db.device, clock);
            && r.Ok? && SoundPayload(PayloadOf(r.value)) && r.value.crdt.id == id
            && r.value == Materialize(p.(crdt := r.value.crdt))
            && HlcLeq(r.value.crdt.pinned.clock, clock) && HlcLeq(r.value.crdt.presence.clock, clock)
            && Covers(next.wall, next.counter, r.value.crdt.pinned.clock)
            && Covers(next.wall, next.counter, r.value.crdt.presence.clock)
  {
    var clock := NextClock(db, physical).1;
    HlcTotalOrder(clock, clock, clock);
    if p.crdt.id != NoObject {
      IssuedClockIsLater(db, physical, p.crdt.pinned.clock);
      IssuedClockIsLater(db, physical, p.crdt.presence.clock);
    }
  }

  /** The migration of an old use count is exact and cannot overflow: the total
      becomes the larger of the old total and the old aggregate, and only this
      device's counter moves. */
  lemma EnsureStateTotals(p: Phrase, id: ObjectId, device: Bytes, clock: Hlc)
    requires p.crdt.id == NoObject || p.crdt.id == id
    ensures var counts := EnsureState(p, id, device, clock).value.crdt.counts;
            var before := if p.crdt.id == NoObject then map[] else p.crdt.counts;
            && (forall d | d != device :: Count(counts, d) == Count(before, d))
            && CountsLeq(before, counts)
            && Sum(counts) == Max(Sum(before), p.useCount)
  {
    var before: Counts := if p.crdt.id == NoObject then map[] else p.crdt.counts;
    CountAtMostSum(before, device);
    if Total(before) < p.useCount {
      SumUpdate(before, device, Count(before, device) + (p.useCount - Total(before)));
    }
  }

  /** Completing a record's metadata never fails on a stored record, never moves
      it down and touches no other device's counter. */
  lemma EnsureStateLaw(db: Database, id: ObjectId, p: Phrase, physical: int)
    requires ValidDeviceId(db.device) && 0 <= db.wall
    requires RecordOk(db.wall, db.counter, id, p)
    ensures var (next, clock) := NextClock(db, physical);
            var r := EnsureState(p, id, db.device, clock);
            && r.Ok? && SoundPayload(PayloadOf(r.value)) && r.value.crdt.id == id
            && r.value == Materialize(p.(crdt := r.value.crdt))
            && HlcLeq(r.value.crdt.presence.clock, clock)
            && Covers(next.wall, next.counter, r.value.crdt.pinned.clock)
            && Covers(next.wall, next.counter, r.value.crdt.presence.clock)
            && (p.crdt.id != NoObject ==>
                  && Below(p.crdt, r.value.crdt)
                  && HlcCompare(p.crdt.pinned.clock, clock) < 0 && HlcCompare(p.crdt.presence.clock, clock) < 0)
            && (forall d | d != db.device ::
                  Count(r.value.crdt.counts, d) == if p.crdt.id == NoObject then 0 else Count(p.crdt.counts, d))
  {
    var clock := NextClock(db, physical).1;
    EnsureStateValid(db, id, p, physical);
    EnsureStateTotals(p, id, db.device, clock);
    if p.crdt.id != NoObject {
      IssuedClockIsLater(db, physical, p.crdt.pinned.clock);
      IssuedClockIsLater(db, physical, p.crdt.presence.clock);
      PinTotalOrder(p.crdt.pinned, p.crdt.pinned, p.crdt.pinned);
      PresenceTotalOrder(p.crdt.presence, p.crdt.presence, p.crdt.presence);
    }
  }

  // --- Local mutations -------------------------------------------------------

  /** A record a local mutation may write over what the database holds. */
  ghost predicate Advances(db: Database, next: Database, id: ObjectId, p: Phrase) {
    && SoundPayload(PayloadOf(p)) && p.crdt.id == id && p == Materialize(p)
    && Covers(next.wall, next.counter, p.crdt.pinned.clock) && Covers(next.wall, next.counter, p.crdt.presence.clock)
    && OptBelow(Held(db, id), Some(p.crdt))
    && (forall d | d != db.device :: Count(p.crdt.counts, d) == OptCount(Held(db, id), d))
  }

  /** A record that may replace what the database holds. */
  ghost predicate Replaces(db: Database, id: ObjectId, p: Phrase) {
    && SoundPayload(PayloadOf(p)) && p.crdt.id == id
    && Covers(db.wall, db.counter, p.crdt.pinned.clock) && Covers(db.wall, db.counter, p.crdt.presence.clock)
    && OptBelow(Held(db, id), Some(p.crdt))
  }

  lemma UpsertHeld(db: Database, id: ObjectId, p: Phrase, enqueue: bool)
    requires Replaces(db, id, p)
    ensures var after := Upsert(db, id, p, enqueue);
            && Grown(db, after) && Held(after, id) == Some(p.crdt)
            && forall o | o != id :: Held(after, o) == Held(db, o)
  {
    var after := Upsert(db, id, p, enqueue);
    forall o ensures OptBelow(Held(db, o), Held(after, o)) {
      if o != id { OptBelowReflexive(Held(db, o)); }
    }
  }

  lemma UpsertRows(db: Database, id: ObjectId, p: Phrase, enqueue: bool, o: ObjectId)
    requires DatabaseOk(db) && Replaces(db, id, p)
    requires o in Upsert(db, id, p, enqueue).outbox
    ensures RowOk(Upsert(db, id, p, enqueue), o, Upsert(db, id, p, enqueue).outbox[o])
  {
    var after := Upsert(db, id, p, enqueue);
    if o in db.outbox { assert RowOk(db, o, db.outbox[o]); }
    if o == id && enqueue {
      BelowReflexive(p.crdt);
    } else {
      UpsertHeld(db, id, p, enqueue);
      OptBelowTransitive(Some(db.outbox[o].phrase.crdt), Held(db, o), Held(after, o));
    }
  }

  lemma UpsertDistinct(db: Database, id: ObjectId, p: Phrase, enqueue: bool)
    requires RowsOk(db) && DistinctEvents(db.outbox)
    ensures DistinctEvents(Upsert(db, id, p, enqueue).outbox)
  {
    var outbox := Upsert(db, id, p, enqueue).outbox;
    forall i | i in db.outbox ensures db.outbox[i].eventId < db.nextEvent {
      assert RowOk(db, i, db.outbox[i]);
    }
    assert forall i | i in outbox && i != id :: i in db.outbox && outbox[i] == db.outbox[i];
  }

  /** The table laws every write of such a record keeps. */
  lemma UpsertKeeps(db: Database, id: ObjectId, p: Phrase, enqueue: bool)
    requires DatabaseOk(db) && Replaces(db, id, p)
    ensures DatabaseOk(Upsert(db, id, p, enqueue))
  {
    UpsertRecords(db, id, p, enqueue);
    UpsertKeepsRows(db, id, p, enqueue);
    UpsertDistinct(db, id, p, enqueue);
  }

  lemma UpsertRecords(db: Database, id: ObjectId, p: Phrase, enqueue: bool)
    requires DatabaseOk(db) && Replaces(db, id, p)
    ensures var after := Upsert(db, id, p, enqueue); ClockAndRecordsOk(after) && RecordsComplete(after)
  {
    var after := Upsert(db, id, p, enqueue);
    forall o | o in after.phrases
      ensures RecordOk(after.wall, after.counter, o, after.phrases[o])
      ensures after.phrases[o].crdt.id != NoObject ==> SoundPayload(PayloadOf(after.phrases[o]))
    {
      if o != id { assert RecordOk(db.wall, db.counter, o, db.phrases[o]); }
    }
  }

  lemma UpsertKeepsRows(db: Database, id: ObjectId, p: Phrase, enqueue: bool)
    requires DatabaseOk(db) && Replaces(db, id, p)
    ensures RowsOk(Upsert(db, id, p, enqueue))
  {
    var after := Upsert(db, id, p, enqueue);
    forall o | o in after.outbox ensures RowOk(after, o, after.outbox[o]) {
      UpsertRows(db, id, p, enqueue, o);
    }
  }

  /** A clock tick alone keeps everything. */
  lemma TickKeeps(db: Database, physical: int)
    requires DatabaseOk(db)
    ensures DatabaseOk(NextClock(db, physical).0)
    ensures forall o :: Held(NextClock(db, physical).0, o) == Held(db, o)
  {
    var after := NextClock(db, physical).0;
    assert forall o :: Held(after, o) == Held(db, o);
    forall o | o in after.phrases ensures RecordOk(after.wall, after.counter, o, after.phrases[o]) {
      assert RecordOk(db.wall, db.counter, o, db.phrases[o]);
    }
    forall o | o in after.outbox ensures RowOk(after, o, after.outbox[o]) {
      assert RowOk(db, o, db.outbox[o]);
    }
  }

  /** The explicit edit of a completed record `e`, seen from the state `h` the
      database held before the record was completed. */
  lemma ExplicitEditLaw(e: Phrase, h: Option<PhraseState>, device: Bytes, clock: Hlc, pin: bool, count: u64)
    requires SoundPayload(PayloadOf(e)) && ValidDeviceId(device) && clock.node == device && 0 <= clock.wall
    requires OptBelow(h, Some(e.crdt))
    requires h.Some? ==> HlcCompare(h.value.pinned.clock, clock) < 0 && HlcCompare(h.value.presence.clock, clock) < 0
    ensures var decision := ExplicitEdit(e, device, clock, pin, count);
            && (decision.Refuse? <==> !e.crdt.presence.present && e.crdt.presence.generation == MAX_U64)
            && (decision.Write? ==>
                  var w := decision.phrase.crdt;
                  && SoundPayload(PayloadOf(decision.phrase)) && w.id == e.crdt.id
                  && decision.enqueue && decision.phrase == Materialize(decision.phrase)
                  && OptBelow(h, Some(w))
                  && (w.pinned == e.crdt.pinned || w.pinned.clock == clock)
                  && (w.presence == e.crdt.presence || w.presence.clock == clock)
                  && w.presence.present && w.pinned.value == pin && decision.phrase.useCount >= count
                  && (forall d | d != device :: Count(w.counts, d) == Count(e.crdt.counts, d)))
  {
    var s := e.crdt;
    CountAtMostSum(s.counts, device);
    if count > Total(s.counts) {
      SumUpdate(s.counts, device, Count(s.counts, device) + (count - Total(s.counts)));
    }
    var decision := ExplicitEdit(e, device, clock, pin, count);
    if decision.Write? && h.Some? {
      var w := decision.phrase.crdt;
      forall d ensures Count(h.value.counts, d) <= Count(w.counts, d) {
        assert Count(h.value.counts, d) <= Count(s.counts, d) <= Count(w.counts, d);
      }
    }
  }

  lemma SaveExplicitAdvances(db: Database, p: Phrase, physical: int)
    requires ClockAndRecordsOk(db) && ObjectOf(p.text, p.pinyin) != NoObject
    ensures var (next, clock) := NextClock(db, physical);
            var id := ObjectOf(p.text, p.pinyin);
            var e := EnsureState(ExplicitBase(db, id, p), id, db.device, clock);
            var decision := SaveExplicitDecision(db, p, clock);
            && e.Ok?
            && (decision.Refuse? <==> !e.value.crdt.presence.present && e.value.crdt.presence.generation == MAX_U64)
            && (decision.Write? ==> decision.enqueue && Advances(db, next, id, decision.phrase)
                                    && decision.phrase.crdt.presence.present
                                    && decision.phrase.crdt.pinned.value == p.pinned
                                    && decision.phrase.useCount >= p.useCount)
  {
    var clock := NextClock(db, physical).1;
    var id := ObjectOf(p.text, p.pinyin);
    ExplicitBaseLaw(db, p, physical);
    var e := EnsureState(ExplicitBase(db, id, p), id, db.device, clock).value;
    ExplicitEditLaw(e, Held(db, id), db.device, clock, p.pinned, p.useCount);
    assert SaveExplicitDecision(db, p, clock) == ExplicitEdit(e, db.device, clock, p.pinned, p.useCount);
  }

  /** The completed record that an explicit save edits. */
  lemma ExplicitBaseLaw(db: Database, p: Phrase, physical: int)
    requires ClockAndRecordsOk(db) && ObjectOf(p.text, p.pinyin) != NoObject
    ensures var (next, clock) := NextClock(db, physical);
            var id, h := ObjectOf(p.text, p.pinyin), Held(db, ObjectOf(p.text, p.pinyin));
            var e := EnsureState(ExplicitBase(db, id, p), id, db.device, clock);
            && clock.node == db.device && 0 <= clock.wall && Covers(next.wall, next.counter, clock)
            && e.Ok? && SoundPayload(PayloadOf(e.value)) && e.value.crdt.id == id
            && e.value.text == p.text && e.value.pinyin == p.pinyin
            && Covers(next.wall, next.counter, e.value.crdt.pinned.clock)
            && Covers(next.wall, next.counter, e.value.crdt.presence.clock)
            && OptBelow(h, Some(e.value.crdt))
            && (h.Some? ==> && HlcCompare(h.value.pinned.clock, clock) < 0
                            && HlcCompare(h.value.presence.clock, clock) < 0)
            && (forall d | d != db.device :: Count(e.value.crdt.counts, d) == OptCount(h, d))
  {
    var id := ObjectOf(p.text, p.pinyin);
    if id in db.phrases { assert RecordOk(db.wall, db.counter, id, db.phrases[id]); }
    EnsureStateLaw(db, id, ExplicitBase(db, id, p), physical);
  }

  lemma SelectionAdvances(db: Database, p: Phrase, physical: int, day: int)
    requires ClockAndRecordsOk(db) && ObjectOf(p.text, p.pinyin) != NoObject
    requires p.crdt.id == NoObject
    ensures var (next, clock) := NextClock(db, physical);
            var id := ObjectOf(p.text, p.pinyin);
            var e := EnsureState(SelectionBase(db, id, p), id, db.device, clock);
            var decision := SelectionDecision(db, p, clock, day);
            && e.Ok?
            && (decision.Refuse? <==>
                  !e.value.crdt.presence.present || Count(e.value.crdt.counts, db.device) == MAX_U64)
            && (decision.Write? ==> Advances(db, next, id, decision.phrase)
                                    && (decision.enqueue <==> decision.phrase.useCount >= 2)
                                    && Count(decision.phrase.crdt.counts, db.device)
                                       == Count(e.value.crdt.counts, db.device) + 1
                                    && decision.phrase.crdt.presence == e.value.crdt.presence)
  {
    var (next, clock) := NextClock(db, physical);
    var id := ObjectOf(p.text, p.pinyin);
    var base := SelectionBase(db, id, p);
    if id in db.phrases { assert RecordOk(db.wall, db.counter, id, db.phrases[id]); }
    EnsureStateLaw(db, id, base, physical);
    var s := EnsureState(base, id, db.device, clock).value.crdt;
    var decision := SelectionDecision(db, p, clock, day);
    if decision.Write? {
      var w := decision.phrase.crdt;
      if Held(db, id).Some? {
        var h := Held(db, id).value;
        forall d ensures Count(h.counts, d) <= Count(w.counts, d) {
          assert Count(h.counts, d) <= Count(s.counts, d) <= Count(w.counts, d);
        }
      }
    }
  }

  lemma DeleteAdvances(db: Database, text: Bytes, pinyin: Bytes, physical: int)
    requires ClockAndRecordsOk(db) && ObjectOf(text, pinyin) != NoObject
    ensures var (next, clock) := NextClock(db, physical);
            var id := ObjectOf(text, pinyin);
            var decision := DeleteDecision(db, text, pinyin, clock);
            && decision.Write? && decision.enqueue && Advances(db, next, id, decision.phrase)
            && !decision.phrase.crdt.presence.present
  {
    var (next, clock) := NextClock(db, physical);
    var id := ObjectOf(text, pinyin);
    var base := DeleteBase(db, id, text, pinyin);
    if id in db.phrases { assert RecordOk(db.wall, db.counter, id, db.phrases[id]); }
    EnsureStateLaw(db, id, base, physical);
    var s := EnsureState(base, id, db.device, clock).value.crdt;
    var w := DeleteDecision(db, text, pinyin, clock).phrase.crdt;
    if Held(db, id).Some? {
      var h := Held(db, id).value;
      PresenceTotalOrder(h.presence, s.presence, w.presence);
      forall d ensures Count(h.counts, d) <= Count(w.counts, d) {
        assert Count(h.counts, d) <= Count(s.counts, d);
      }
    }
  }

  // --- Remote payloads -------------------------------------------------------

  lemma ChooseStableIsAJoin(a: Bytes, b: Bytes, c: Bytes)
    ensures ChooseStableString(a, a) == a
    ensures ChooseStableString(a, b) == ChooseStableString(b, a)
    ensures ChooseStableString(ChooseStableString(a, b), c) == ChooseStableString(a, ChooseStableString(b, c))
  {
    CompareAntisymmetric(a, a);
    CompareAntisymmetric(a, b);
    CompareAntisymmetric(b, c);
    CompareAntisymmetric(a, c);
    if Compare(a, b) <= 0 && Compare(b, c) <= 0 { CompareTransitive(a, b, c); }
    if Compare(c, b) <= 0 && Compare(b, a) <= 0 { CompareTransitive(c, b, a); }
  }

  ghost predicate SamePayload(a: Payload, b: Payload) {
    a.(state := b.state) == b && Same(a.state, b.state)
  }

  /** The whole payload merge, content fields included, is a join. */
  lemma MergePayloadIsAJoin(a: Payload, b: Payload, c: Payload)
    requires a.state.id == b.state.id == c.state.id
    ensures MergePayload(a, b).Ok? <==> a.state.id != NoObject
    ensures SamePayload(JoinPayload(a, a), a)
    ensures SamePayload(JoinPayload(a, b), JoinPayload(b, a))
    ensures SamePayload(JoinPayload(JoinPayload(a, b), c), JoinPayload(a, JoinPayload(b, c)))
  {
    MergeIsAJoin(a.state, b.state, c.state);
    ChooseStableIsAJoin(a.text, b.text, c.text);
    ChooseStableIsAJoin(a.pinyin, b.pinyin, c.pinyin);
    ChooseStableIsAJoin(a.source, b.source, c.source);
  }

  lemma JoinSound(a: Payload, b: Payload)
    requires SoundPayload(a) && SoundPayload(b) && a.state.id == b.state.id
    ensures SoundPayload(JoinPayload(a, b))
    ensures JoinPayload(a, b).text == a.text == b.text && JoinPayload(a, b).pinyin == a.pinyin == b.pinyin
  {
    CompareAntisymmetric(a.text, a.text);
    CompareAntisymmetric(a.pinyin, a.pinyin);
  }

  /** Both clocks of a state are covered once its latest one is observed, and
      observing never turns the persisted clock back. */
  lemma ObserveCovers(db: Database, s: PhraseState)
    ensures var after := ObserveClock(db, LatestClock(s));
            && Covers(after.wall, after.counter, s.pinned.clock) && Covers(after.wall, after.counter, s.presence.clock)
            && forall c | Covers(db.wall, db.counter, c) :: Covers(after.wall, after.counter, c)
  {
  }

  lemma ObserveKeeps(db: Database, clock: Hlc)
    requires DatabaseOk(db)
    ensures DatabaseOk(ObserveClock(db, clock))
    ensures forall o :: Held(ObserveClock(db, clock), o) == Held(db, o)
  {
    var after := ObserveClock(db, clock);
    forall o | o in after.phrases ensures RecordOk(after.wall, after.counter, o, after.phrases[o]) {
      assert RecordOk(db.wall, db.counter, o, db.phrases[o]);
    }
    forall o | o in after.outbox ensures RowOk(after, o, after.outbox[o]) {
      assert RowOk(db, o, db.outbox[o]);
    }
  }

  /** The payload a merge writes, and what it is the least bound of. */
  lemma MergedPayloadLaw(db: Database, payload: Payload, physical: int)
    requires DatabaseOk(db) && SoundPayload(payload)
    ensures var merged := MergedPayload(db, payload, physical);
            && merged.Ok? && SoundPayload(merged.value) && merged.value.state.id == payload.state.id
            && OptBelow(Held(db, payload.state.id), Some(merged.value.state))
            && Below(payload.state, merged.value.state)
            && (payload.state.id !in db.phrases || Held(db, payload.state.id).Some? ==>
                  forall u | OptBelow(Held(db, payload.state.id), Some(u)) && Below(payload.state, u) ::
                    Below(merged.value.state, u))
            && (forall d | d != db.device || payload.state.id !in db.phrases || Held(db, payload.state.id).Some? ::
                  Count(merged.value.state.counts, d)
                  == Max(OptCount(Held(db, payload.state.id), d), Count(payload.state.counts, d)))
  {
    var id := payload.state.id;
    BelowReflexive(payload.state);
    if id in db.phrases {
      var existing := db.phrases[id];
      assert RecordOk(db.wall, db.counter, id, existing);
      if existing.crdt.id == NoObject {
        EnsureStateLaw(db, id, existing, physical);
      }
      var base := MergeBase(db, id, physical).1.value;
      JoinSound(PayloadOf(base), payload);
      JoinIsLeastUpperBound(base.crdt, payload.state);
      forall d
        ensures Count(Join(base.crdt, payload.state).counts, d)
                  == Max(Count(base.crdt.counts, d), Count(payload.state.counts, d)) {
        MergeCountsPointwise(base.crdt.counts, payload.state.counts, d);
      }
    }
  }

  /** Merging an honest payload always succeeds, keeps the database laws, queues
      nothing, and leaves the record exactly at the join of what was held and
      what arrived. */
  lemma MergeRemoteLaw(db: Database, payload: Payload, physical: int)
    requires DatabaseOk(db) && SoundPayload(payload)
    ensures var (after, ok) := MergeRemote(db, payload, physical);
            var id := payload.state.id;
            && ok && DatabaseOk(after) && Grown(db, after) && SameCheckpoint(db, after) && after.outbox == db.outbox
            && OptBelow(Some(payload.state), Held(after, id))
            && Held(after, id) == Some(MergedPayload(db, payload, physical).value.state)
            && (forall o | o != id :: Held(after, o) == Held(db, o))
  {
    var id := payload.state.id;
    MergedPayloadLaw(db, payload, physical);
    var merged := MergedPayload(db, payload, physical).value;
    MergeObservedLaw(db, payload, physical);
    var observed := MergeObserved(db, payload, physical);
    var p := Materialize(PhraseOf(merged));
    assert forall o :: Held(observed, o) == Held(db, o);
    assert Replaces(observed, id, p) by {
      ObserveCovers(MergeTicked(db, payload, physical), merged.state);
    }
    UpsertKeeps(observed, id, p, false);
    UpsertHeld(observed, id, p, false);
  }

  /** The stored record has a presence without a clock, as only partial metadata can,
      and that presence outranks the arriving one. */
  ghost predicate KeepsUnstamped(db: Database, payload: Payload) {
    && payload.state.id in db.phrases
    && var s := db.phrases[payload.state.id].crdt;
       && s.id != NoObject && s.presence.clock == ZERO_CLOCK
       && !PresenceLeq(s.presence, payload.state.presence)
  }

  /** Over records of any age, with partial metadata too, an honest payload is refused
      exactly when the merged presence would still have no clock. */
  lemma MergeRemoteSucceedsIff(db: Database, payload: Payload, physical: int)
    requires ClockAndRecordsOk(db) && SoundPayload(payload)
    ensures MergeRemote(db, payload, physical).1 <==> !KeepsUnstamped(db, payload)
  {
    var id := payload.state.id;
    if id in db.phrases {
      var existing := db.phrases[id];
      assert RecordOk(db.wall, db.counter, id, existing);
      if existing.crdt.id == NoObject {
        EnsureStateLaw(db, id, existing, physical);
        JoinSound(PayloadOf(MergeBase(db, id, physical).1.value), payload);
      } else {
        PartialJoinValid(existing.crdt, payload.state);
        assert ValidPayload(JoinPayload(PayloadOf(existing), payload)) <==> !KeepsUnstamped(db, payload);
      }
    }
  }

  lemma PartialJoinValid(s: PhraseState, t: PhraseState)
    requires s.id == t.id && ValidCounters(s.counts) && ValidCounters(t.counts) && t.presence.generation != 0
    requires s.pinned.clock == ZERO_CLOCK || ValidDeviceId(s.pinned.clock.node)
    requires s.presence.clock == ZERO_CLOCK || ValidDeviceId(s.presence.clock.node)
    requires 0 <= t.pinned.clock.wall && ValidDeviceId(t.pinned.clock.node) && ValidDeviceId(t.presence.clock.node)
    ensures var j := Join(s, t);
            && ValidCounters(j.counts) && j.presence.generation != 0 && ValidDeviceId(j.pinned.clock.node)
            && (ValidDeviceId(j.presence.clock.node) <==>
                  s.presence.clock != ZERO_CLOCK || PresenceLeq(s.presence, t.presence))
  {
    PinTotalOrder(s.pinned, t.pinned, t.pinned);
    PresenceTotalOrder(s.presence, t.presence, t.presence);
  }

  /** A removal of the second generation that never got a clock refuses a payload of
      the first. */
  lemma UnstampedRemovalRefuses(device: Bytes, text: Bytes, pinyin: Bytes, clock: Hlc, physical: int)
    requires ValidDeviceId(device) && text != [] && pinyin != [] && clock.wall == 0 && ValidDeviceId(clock.node)
    ensures var id := Object(text, pinyin);
            var kept := PhraseState(id, map[], LwwBool(false, ZERO_CLOCK), Presence(false, ZERO_CLOCK, 2));
            var sent := PhraseState(id, map[], LwwBool(false, clock), Presence(true, clock, 1));
            var db := Database(device, map[id := Phrase(text, pinyin, MANUAL, 0, false, true, 0, kept)], map[],
                               1, 0, 0, 0, 0, 1, NoHash, None);
            && ClockAndRecordsOk(db) && SoundPayload(Payload(text, pinyin, MANUAL, 0, sent))
            && !MergeRemote(db, Payload(text, pinyin, MANUAL, 0, sent), physical).1
  {
  }

  /** A crash after the clock was observed but before the record was written
      changes only the clock. */
  lemma MergeObservedLaw(db: Database, payload: Payload, physical: int)
    requires DatabaseOk(db) && SoundPayload(payload)
    ensures var after := MergeObserved(db, payload, physical);
            && DatabaseOk(after) && after == db.(wall := after.wall, counter := after.counter)
  {
    MergedPayloadLaw(db, payload, physical);
    TickKeeps(db, physical);
    ObserveKeeps(MergeTicked(db, payload, physical), LatestClock(MergedPayload(db, payload, physical).value.state));
  }
}
