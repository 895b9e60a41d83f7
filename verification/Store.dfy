/** The local store as an object: each method updates the tables in place and is
    proved to compute the corresponding function of Device.dfy. */
module LocalStore {
  import opened Order
  import opened Wrappers
  import opened Crdt
  import opened Wire
  import opened Device

  class Store {
    const device: Bytes
    var phrases: map<ObjectId, Phrase>
    var outbox: map<ObjectId, OutboxRow>
    var nextEvent: nat
    var wall: int
    var counter: u32
    var revision: nat
    var cursor: nat
    var nextSequence: nat
    var previous: Hash
    var prepared: Option<Prepared>

    /** The whole database as one value. */
    function Db(): (r: Database)
      reads this
    {
      Database(device, phrases, outbox, nextEvent, wall, counter, revision, cursor, nextSequence, previous, prepared)
    }

    constructor (device: Bytes)
      ensures Db() == Database(device, map[], map[], 1, 0, 0, 0, 0, 1, NoHash, None)
    {
      this.device := device;
      phrases, outbox, nextEvent := map[], map[], 1;
      wall, counter, revision := 0, 0, 0;
      cursor, nextSequence, previous, prepared := 0, 1, NoHash, None;
    }

    method NextHlc(physical: int) returns (clock: Hlc)
      modifies this
      ensures (Db(), clock) == NextClock(old(Db()), physical)
    {
      if physical > wall {
        wall := physical;
        counter := 0;
      } else if counter >= MAX_U32 {
        wall := wall + 1;
        counter := 0;
      } else {
        counter := counter + 1;
      }
      clock := Hlc(wall, counter, device);
    }

    method ObserveHlc(observed: Hlc)
      modifies this
      ensures Db() == ObserveClock(old(Db()), observed)
    {
      if observed.wall > wall || (observed.wall == wall && observed.counter > counter) {
        wall := observed.wall;
        counter := observed.counter;
      }
    }

    method MaterializePhrase(p: Phrase) returns (r: Phrase)
      ensures r == Materialize(p)
    {
      var total := TotalCounts(p.crdt.counts);
      r := p.(useCount := total, pinned := p.crdt.pinned.value, deleted := !p.crdt.presence.present);
    }

    method EnsurePhraseState(phrase: Phrase, id: ObjectId, clock: Hlc) returns (r: Result<Phrase>)
      ensures r == EnsureState(phrase, id, device, clock)
    {
      var p := phrase;
      if p.crdt.id == NoObject {
        p := p.(crdt := PhraseState(id, map[], LwwBool(p.pinned, clock), Presence(!p.deleted, clock, 1)));
      } else if p.crdt.id != id {
        return Err;
      }
      var aggregate := TotalCounts(p.crdt.counts);
      CountAtMostSum(p.crdt.counts, device);
      if aggregate < p.useCount {
        var counts := p.crdt.counts[device := Count(p.crdt.counts, device) + (p.useCount - aggregate)];
        p := p.(crdt := p.crdt.(counts := counts));
      }
      if p.crdt.presence.generation == 0 {
        p := p.(crdt := p.crdt.(presence := p.crdt.presence.(generation := 1, present := !p.deleted)));
      }
      if p.crdt.pinned.clock == ZERO_CLOCK {
        p := p.(crdt := p.crdt.(pinned := LwwBool(p.pinned, clock)));
      }
      if p.crdt.presence.clock == ZERO_CLOCK {
        p := p.(crdt := p.crdt.(presence := p.crdt.presence.(clock := clock)));
      }
      p := MaterializePhrase(p);
      return Ok(p);
    }

    method UpsertPhrase(id: ObjectId, p: Phrase, enqueue: bool)
      modifies this
      ensures Db() == Upsert(old(Db()), id, p, enqueue)
    {
      phrases := phrases[id := p];
      revision := revision + 1;
      if enqueue {
        if id in outbox {
          outbox := outbox[id := OutboxRow(outbox[id].eventId, outbox[id].version + 1, p)];
        } else {
          outbox := outbox[id := OutboxRow(nextEvent, 1, p)];
          nextEvent := nextEvent + 1;
        }
      }
    }

    /** Re-adds, re-pins and raises the own counter of a completed record. */
    method EditExplicit(completed: Phrase, clock: Hlc, wantedPinned: bool, wantedCount: u64) returns (r: Decision)
      ensures r == ExplicitEdit(completed, device, clock, wantedPinned, wantedCount)
    {
      var phrase := completed;
      if !phrase.crdt.presence.present {
        if phrase.crdt.presence.generation == MAX_U64 {
          return Refuse;
        }
        phrase := phrase.(crdt := phrase.crdt.(presence := Presence(true, clock, phrase.crdt.presence.generation + 1)));
      }
      if phrase.crdt.pinned.value != wantedPinned {
        phrase := phrase.(crdt := phrase.crdt.(pinned := LwwBool(wantedPinned, clock)));
      }
      var currentCount := TotalCounts(phrase.crdt.counts);
      if wantedCount > currentCount {
        var delta := wantedCount - currentCount;
        var own := Count(phrase.crdt.counts, device);
        if MAX_U64 - own < delta {
          return Refuse;
        }
        phrase := phrase.(crdt := phrase.crdt.(counts := phrase.crdt.counts[device := own + delta]));
      }
      phrase := MaterializePhrase(phrase);
      return Write(phrase, true);
    }

    method SavePhraseExplicit(wanted: Phrase, physical: int) returns (ok: bool)
      modifies this
      ensures (Db(), ok) == SaveExplicit(old(Db()), wanted, physical)
    {
      var id := ObjectOf(wanted.text, wanted.pinyin);
      if id == NoObject {
        return false;
      }
      var phrase := wanted.(source := if wanted.source == [] then MANUAL else wanted.source);
      var clock := NextHlc(physical);
      if id in phrases {
        var existing := phrases[id].(text := phrase.text, pinyin := phrase.pinyin, source := phrase.source);
        if wanted.lastUsedDay > existing.lastUsedDay {
          existing := existing.(lastUsedDay := wanted.lastUsedDay);
        }
        phrase := existing;
      } else {
        phrase := phrase.(deleted := false, crdt := ZERO_STATE);
      }
      assert phrase == ExplicitBase(old(Db()), id, wanted);
      var ensured := EnsurePhraseState(phrase, id, clock);
      if ensured.Err? {
        return false;
      }
      var decision := EditExplicit(ensured.value, clock, wanted.pinned, wanted.useCount);
      assert decision == SaveExplicitDecision(old(Db()), wanted, clock);
      if decision.Refuse? {
        return false;
      }
      UpsertPhrase(id, decision.phrase, true);
      return true;
    }

    method RecordPhraseSelection(selected: Phrase, disabled: bool, physical: int, day: int)
      returns (r: Result<LearnResult>)
      modifies this
      ensures (Db(), r) == RecordSelection(old(Db()), selected, disabled, physical, day)
    {
      if disabled {
        return Ok(LearnResult(false, 0, false));
      }
      var id := ObjectOf(selected.text, selected.pinyin);
      if id == NoObject {
        return Err;
      }
      var phrase := if id in phrases then phrases[id] else selected.(source := LEARNED);
      var clock := NextHlc(physical);
      var ensured := EnsurePhraseState(phrase, id, clock);
      if ensured.Err? {
        return Err;
      }
      phrase := ensured.value;
      if !phrase.crdt.presence.present {
        return Ok(LearnResult(false, phrase.useCount, false));
      }
      var own := Count(phrase.crdt.counts, device);
      if own == MAX_U64 {
        return Err;
      }
      phrase := phrase.(lastUsedDay := day, crdt := phrase.crdt.(counts := phrase.crdt.counts[device := own + 1]));
      phrase := MaterializePhrase(phrase);
      var eligible := phrase.useCount >= LEARNING_THRESHOLD;
      UpsertPhrase(id, phrase, eligible);
      return Ok(LearnResult(true, phrase.useCount, eligible));
    }

    method DeletePhrase(text: Bytes, pinyin: Bytes, physical: int) returns (ok: bool)
      modifies this
      ensures (Db(), ok) == Delete(old(Db()), text, pinyin, physical)
    {
      var id := ObjectOf(text, pinyin);
      if id == NoObject {
        return false;
      }
      var phrase := if id in phrases then phrases[id]
          else Phrase(text, pinyin, TOMBSTONE, 0, false, false, 0, ZERO_STATE);
      var clock := NextHlc(physical);
      var ensured := EnsurePhraseState(phrase, id, clock);
      if ensured.Err? {
        return false;
      }
      phrase := ensured.value;
      phrase := phrase.(crdt := phrase.crdt.(presence := phrase.crdt.presence.(present := false, clock := clock)));
      phrase := MaterializePhrase(phrase);
      UpsertPhrase(id, phrase, true);
      return true;
    }

    method MergePayloads(left: Payload, right: Payload) returns (r: Result<Payload>)
      ensures r == MergePayload(left, right)
    {
      var state := MergePhrase(left.state, right.state);
      if state.Err? {
        return Err;
      }
      var lastUsedDay := left.lastUsedDay;
      if right.lastUsedDay > lastUsedDay {
        lastUsedDay := right.lastUsedDay;
      }
      return Ok(Payload(ChooseStableString(left.text, right.text), ChooseStableString(left.pinyin, right.pinyin),
                        ChooseStableString(left.source, right.source), lastUsedDay, state.value));
    }

    method MergeRemotePayload(payload: Payload, physical: int) returns (ok: bool)
      modifies this
      ensures (Db(), ok) == MergeRemote(old(Db()), payload, physical)
    {
      if !ValidPayload(payload) {
        return false;
      }
      var id := payload.state.id;
      var merged := payload;
      if id in phrases {
        var existing := phrases[id];
        if existing.crdt.id == NoObject {
          var clock := NextHlc(physical);
          var ensured := EnsurePhraseState(existing, id, clock);
          if ensured.Err? {
            return false;
          }
          existing := ensured.value;
        }
        var joined := MergePayloads(PayloadOf(existing), payload);
        if joined.Err? {
          return false;
        }
        merged := joined.value;
      }
      if !ValidPayload(merged) {
        return false;
      }
      var phrase := MaterializePhrase(PhraseOf(merged));
      ObserveHlc(LatestClock(merged.state));
      UpsertPhrase(id, phrase, false);
      return true;
    }

    /** The oldest outbox row, if any. */
    method PendingEvent() returns (id: Option<ObjectId>)
      ensures id.None? <==> outbox == map[]
      ensures id.Some? ==> IsOldest(Db(), id.value)
    {
      id := None;
      var rest := outbox.Keys;
      while rest != {}
        invariant rest <= outbox.Keys
        invariant id.None? <==> rest == outbox.Keys
        invariant id.Some? ==> id.value in outbox && id.value !in rest
        invariant id.Some? ==> forall o | o in outbox && o !in rest :: outbox[id.value].eventId <= outbox[o].eventId
      {
        var o :| o in rest;
        rest := rest - {o};
        if id.None? || outbox[o].eventId < outbox[id.value].eventId {
          id := Some(o);
        }
      }
    }

    method SavePreparedUpload(upload: Prepared) returns (ok: bool)
      modifies this
      ensures (Db(), ok) == SavePrepared(old(Db()), upload)
    {
      if upload.eventId < 1 || upload.version < 1 || upload.sequence < 1
         || upload.version > MAX_I64 || upload.sequence >= MAX_I64 {
        return false;
      }
      if prepared.Some? {
        return prepared.value == upload;
      }
      if nextSequence != upload.sequence {
        return false;
      }
      if !HasRow(Db(), upload.eventId, upload.version) {
        return false;
      }
      prepared := Some(upload);
      return true;
    }

    method CommitPreparedUpload() returns (r: Result<bool>)
      modifies this
      ensures (Db(), r) == CommitPrepared(old(Db()))
    {
      if prepared.None? {
        return Err;
      }
      var p := prepared.value;
      if p.eventId < 1 || p.version < 1 || p.sequence < 1 || p.sequence >= MAX_I64 {
        return Err;
      }
      var affected := HasRow(Db(), p.eventId, p.version);
      outbox := Acknowledge(outbox, p.eventId, p.version);
      nextSequence := p.sequence + 1;
      previous := RecordHash(device, p.envelope);
      prepared := None;
      return Ok(affected);
    }

    method AdvanceSyncCursor(expected: nat, next: nat) returns (ok: bool)
      modifies this
      ensures (Db(), ok) == AdvanceCursor(old(Db()), expected, next)
    {
      if next < expected || cursor != expected {
        return false;
      }
      cursor := next;
      return true;
    }
  }
}
