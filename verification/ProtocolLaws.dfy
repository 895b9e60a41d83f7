/** Every step of every device keeps the protocol invariant. */
module ProtocolLaws {
  import opened Order
  import opened Wrappers
  import opened Crdt
  import opened Wire
  import opened Device
  import opened DeviceLaws
  import opened Relay
  import RelayLaws
  import opened Client
  import opened Protocol

  // --- Local mutations -------------------------------------------------------

  /** A mutation that writes, and what it writes. */
  ghost predicate Writes(db: Database, m: Mutation, physical: int) {
    Target(m) != NoObject && Decide(db, m, NextClock(db, physical).1).Write?
  }

  ghost function Written(db: Database, m: Mutation, physical: int): Phrase
    requires Writes(db, m, physical)
  {
    Decide(db, m, NextClock(db, physical).1).phrase
  }

  /** Every local mutation either leaves the tables alone or writes a record that
      contains the old one, touches only the device's own counter and only
      carries clocks the store now covers. */
  lemma MutationIsInflationary(db: Database, m: Mutation, physical: int)
    requires DatabaseOk(db) && Callable(m)
    ensures var next := NextClock(db, physical).0;
            var after := Mutated(db, m, physical);
            && (!Writes(db, m, physical) ==> after == db || after == next)
            && (Writes(db, m, physical) ==>
                  && Advances(db, next, Target(m), Written(db, m, physical))
                  && after == Upsert(next, Target(m), Written(db, m, physical), Queues(db, m, physical)))
  {
    if Target(m) != NoObject {
      match m
      case Save(p) => SaveExplicitAdvances(db, p, physical);
      case Select(p, disabled, day) => SelectionAdvances(db, p, physical, day);
      case Remove(text, pinyin) => DeleteAdvances(db, text, pinyin, physical);
    }
  }

  lemma MutationKeepsDatabase(db: Database, m: Mutation, physical: int)
    requires DatabaseOk(db) && Callable(m)
    ensures var after := Mutated(db, m, physical);
            && DatabaseOk(after) && Grown(db, after) && SameCheckpoint(db, after)
            && (!Writes(db, m, physical) ==> after.outbox == db.outbox && forall o :: Held(after, o) == Held(db, o))
            && (Writes(db, m, physical) ==>
                  && Held(after, Target(m)) == Some(Written(db, m, physical).crdt)
                  && forall o | o != Target(m) :: Held(after, o) == Held(db, o))
  {
    var next := NextClock(db, physical).0;
    var after := Mutated(db, m, physical);
    MutationIsInflationary(db, m, physical);
    TickKeeps(db, physical);
    if Writes(db, m, physical) {
      var id, p := Target(m), Written(db, m, physical);
      assert Held(next, id) == Held(db, id);
      UpsertKeeps(next, id, p, Queues(db, m, physical));
      UpsertHeld(next, id, p, Queues(db, m, physical));
      forall o ensures OptBelow(Held(db, o), Held(after, o)) {
        assert Held(next, o) == Held(db, o);
      }
    } else {
      forall o ensures OptBelow(Held(db, o), Held(after, o)) {
        OptBelowReflexive(Held(db, o));
      }
    }
  }

  // --- Growing stores and logs -----------------------------------------------

  lemma HoldsSurvives(db: Database, after: Database, r: Record)
    requires Holds(db, r) && Grown(db, after)
    ensures Holds(after, r)
  {
    var id := r.envelope.payload.state.id;
    assert OptBelow(Held(db, id), Held(after, id));
    OptBelowTransitive(Some(r.envelope.payload.state), Held(db, id), Held(after, id));
  }

  lemma AbsorbedSurvives(log: seq<Record>, cursor: nat, db: Database, after: Database)
    requires Absorbed(log, cursor, db) && Grown(db, after)
    ensures Absorbed(log, cursor, after)
  {
    forall i | 0 <= i < |log| && log[i].cursor <= cursor ensures Holds(after, log[i]) {
      HoldsSurvives(db, after, log[i]);
    }
  }

  /** A staged upload stays valid while its row is untouched or re-versioned. */
  lemma UploadSurvives(db: Database, after: Database, u: Prepared)
    requires UploadOk(db, u) && SameCheckpoint(db, after)
    requires var id := u.envelope.payload.state.id;
             && id in after.outbox && after.outbox[id].eventId == db.outbox[id].eventId
             && (after.outbox[id] == db.outbox[id]
                 || (after.outbox[id].version > db.outbox[id].version
                     && Below(db.outbox[id].phrase.crdt, after.outbox[id].phrase.crdt)))
    ensures UploadOk(after, u)
  {
    var id := u.envelope.payload.state.id;
    if after.outbox[id] != db.outbox[id] {
      BelowTransitive(u.envelope.payload.state, db.outbox[id].phrase.crdt, after.outbox[id].phrase.crdt);
    }
  }

  lemma PcSurvives(log: seq<Record>, device: Bytes, node: Node, after: Database)
    requires PcOk(log, device, node) && Grown(node.db, after) && SameCheckpoint(node.db, after)
    requires node.pc.Sealed? ==> UploadOk(after, node.pc.upload)
    ensures PcOk(log, device, node.(db := after))
  {
    match node.pc
    case Merging(cursor, prepared, page, merged, next) =>
      forall i | 0 <= i < merged ensures Holds(after, page[i]) {
        HoldsSurvives(node.db, after, page[i]);
      }
    case Advancing(cursor, next) => AbsorbedSurvives(log, next, node.db, after);
    case _ =>
  }

  /** What a mutation does to the outbox. */
  lemma MutationRow(db: Database, m: Mutation, physical: int, id: ObjectId)
    requires DatabaseOk(db) && Callable(m)
    ensures var after := Mutated(db, m, physical);
            if Queues(db, m, physical) && id == Target(m) then
              && id in after.outbox && after.outbox[id].phrase == Written(db, m, physical)
              && (id in db.outbox ==> after.outbox[id].eventId == db.outbox[id].eventId
                                      && after.outbox[id].version == db.outbox[id].version + 1)
            else
              (id in after.outbox <==> id in db.outbox) && (id in db.outbox ==> after.outbox[id] == db.outbox[id])
  {
    MutationIsInflationary(db, m, physical);
    if Writes(db, m, physical) {
      UpsertRow(NextClock(db, physical).0, Target(m), Written(db, m, physical), Queues(db, m, physical), id);
    }
  }

  lemma UpsertRow(db: Database, target: ObjectId, p: Phrase, enqueue: bool, id: ObjectId)
    ensures var after := Upsert(db, target, p, enqueue);
            if enqueue && id == target then
              && id in after.outbox && after.outbox[id].phrase == p
              && (id in db.outbox ==> after.outbox[id].eventId == db.outbox[id].eventId
                                      && after.outbox[id].version == db.outbox[id].version + 1)
            else
              (id in after.outbox <==> id in db.outbox) && (id in db.outbox ==> after.outbox[id] == db.outbox[id])
  {
  }

  lemma MutationKeepsUpload(db: Database, m: Mutation, physical: int, u: Prepared)
    requires DatabaseOk(db) && Callable(m) && UploadOk(db, u)
    ensures UploadOk(Mutated(db, m, physical), u)
  {
    var id := u.envelope.payload.state.id;
    MutationRow(db, m, physical, id);
    MutationKeepsDatabase(db, m, physical);
    if Queues(db, m, physical) && Target(m) == id {
      assert RowOk(db, id, db.outbox[id]);
      assert OptBelow(Held(db, id), Held(Mutated(db, m, physical), id));
      OptBelowTransitive(Some(db.outbox[id].phrase.crdt), Held(db, id), Some(Written(db, m, physical).crdt));
    }
    UploadSurvives(db, Mutated(db, m, physical), u);
  }

  lemma MutationKeepsQueued(log: seq<Record>, device: Bytes, node: Node, m: Mutation, physical: int, id: ObjectId)
    requires DatabaseOk(node.db) && Callable(m) && QueuedOk(log, device, node.db, node.latest, id)
    ensures QueuedOk(log, device, AfterMutation(node, m, physical).db, AfterMutation(node, m, physical).latest, id)
  {
    var after := Mutated(node.db, m, physical);
    MutationRow(node.db, m, physical, id);
    MutationKeepsDatabase(node.db, m, physical);
    if Queues(node.db, m, physical) && id == Target(m) {
      WrittenIsHeld(node.db, m, physical);
    } else if id in node.latest {
      assert OptBelow(Held(node.db, id), Held(after, id));
      OptBelowTransitive(Some(node.latest[id].crdt), Held(node.db, id), Held(after, id));
    }
  }

  lemma WrittenIsHeld(db: Database, m: Mutation, physical: int)
    requires DatabaseOk(db) && Callable(m) && Writes(db, m, physical)
    ensures var p := Written(db, m, physical);
            p.crdt.id == Target(m) && OptBelow(Some(p.crdt), Held(Mutated(db, m, physical), Target(m)))
  {
    MutationIsInflationary(db, m, physical);
    MutationKeepsDatabase(db, m, physical);
    BelowReflexive(Written(db, m, physical).crdt);
  }

  lemma MutationKeepsQueue(log: seq<Record>, device: Bytes, node: Node, m: Mutation, physical: int)
    requires DatabaseOk(node.db) && Callable(m) && QueueOk(log, device, node.db, node.latest)
    ensures QueueOk(log, device, AfterMutation(node, m, physical).db, AfterMutation(node, m, physical).latest)
  {
    forall id
      ensures QueuedOk(log, device, AfterMutation(node, m, physical).db, AfterMutation(node, m, physical).latest, id) {
      assert QueuedOk(log, device, node.db, node.latest, id);
      MutationKeepsQueued(log, device, node, m, physical, id);
    }
  }

  lemma MutateKeeps(log: seq<Record>, device: Bytes, node: Node, m: Mutation, physical: int)
    requires NodeOk(log, device, node) && Callable(m)
    ensures NodeOk(log, device, AfterMutation(node, m, physical))
  {
    var after := Mutated(node.db, m, physical);
    MutationKeepsDatabase(node.db, m, physical);
    MutationKeepsQueue(log, device, node, m, physical);
    AbsorbedSurvives(log, node.db.cursor, node.db, after);
    if node.db.prepared.Some? {
      MutationKeepsUpload(node.db, m, physical, node.db.prepared.value);
    }
    if node.pc.Sealed? {
      MutationKeepsUpload(node.db, m, physical, node.pc.upload);
    }
    PcSurvives(log, device, node, after);
  }

  /** A clock taken for a write that never happens. */
  lemma TickStepKeeps(log: seq<Record>, device: Bytes, node: Node, physical: int)
    requires NodeOk(log, device, node)
    ensures NodeOk(log, device, node.(db := NextClock(node.db, physical).0))
  {
    var after := NextClock(node.db, physical).0;
    TickKeeps(node.db, physical);
    forall o ensures OptBelow(Held(node.db, o), Held(after, o)) {
      OptBelowReflexive(Held(node.db, o));
      assert Held(after, o) == Held(node.db, o);
    }
    GrownStoreKeeps(log, device, node, after);
  }

  // --- Worker steps ----------------------------------------------------------

  lemma SealKeeps(log: seq<Record>, device: Bytes, node: Node, id: ObjectId, nonce: int, size: nat)
    requires NodeOk(log, device, node) && node.db.prepared.None? && id in node.db.outbox && ValidSize(size)
    ensures NodeOk(log, device, node.(pc := Sealed(SealRow(node.db, node.db.outbox[id], nonce, size))))
  {
    assert RowOk(node.db, id, node.db.outbox[id]);
    BelowReflexive(node.db.outbox[id].phrase.crdt);
  }

  /** Rewriting only the checkpoint keeps the tables' laws. */
  lemma CheckpointKeepsDatabase(db: Database, after: Database)
    requires DatabaseOk(db)
    requires after == db.(cursor := after.cursor, nextSequence := after.nextSequence, previous := after.previous,
                          prepared := after.prepared)
    ensures DatabaseOk(after) && forall o :: Held(after, o) == Held(db, o)
  {
    forall o ensures Held(after, o) == Held(db, o) {
    }
    forall o | o in after.outbox ensures RowOk(after, o, after.outbox[o]) {
      assert RowOk(db, o, db.outbox[o]);
    }
  }

  lemma QueueSameTables(log: seq<Record>, device: Bytes, node: Node, after: Database)
    requires QueueOk(log, device, node.db, node.latest) && after.outbox == node.db.outbox &&
             after.phrases == node.db.phrases
    ensures QueueOk(log, device, after, node.latest)
  {
    forall id ensures QueuedOk(log, device, after, node.latest, id) {
      assert QueuedOk(log, device, node.db, node.latest, id) && Held(after, id) == Held(node.db, id);
    }
  }

  lemma StageKeeps(log: seq<Record>, device: Bytes, node: Node)
    requires NodeOk(log, device, node) && node.pc.Sealed?
    ensures NodeOk(log, device, AfterStage(node))
  {
    var after := AfterStage(node).db;
    CheckpointKeepsDatabase(node.db, after);
    QueueSameTables(log, device, node, after);
    assert forall i | 0 <= i < |log| && Holds(node.db, log[i]) :: Holds(after, log[i]);
  }

  /** A store that grew, queued nothing and kept its checkpoint. */
  lemma GrownStoreKeeps(log: seq<Record>, device: Bytes, node: Node, after: Database)
    requires NodeOk(log, device, node) && DatabaseOk(after) && Grown(node.db, after)
    requires SameCheckpoint(node.db, after) && after.outbox == node.db.outbox
    ensures NodeOk(log, device, node.(db := after))
  {
    MergeKeepsQueue(log, device, node, after);
    AbsorbedSurvives(log, node.db.cursor, node.db, after);
    if node.db.prepared.Some? {
      UploadSurvives(node.db, after, node.db.prepared.value);
    }
    if node.pc.Sealed? {
      UploadSurvives(node.db, after, node.pc.upload);
    }
    PcSurvives(log, device, node, after);
  }

  lemma InterruptedMergeKeeps(log: seq<Record>, device: Bytes, node: Node, payload: Payload, physical: int)
    requires NodeOk(log, device, node) && SoundPayload(payload)
    ensures NodeOk(log, device, node.(db := MergeObserved(node.db, payload, physical), pc := Idle))
    ensures Grown(node.db, MergeObserved(node.db, payload, physical))
  {
    var after := MergeObserved(node.db, payload, physical);
    MergeObservedLaw(node.db, payload, physical);
    forall o ensures OptBelow(Held(node.db, o), Held(after, o)) {
      OptBelowReflexive(Held(node.db, o));
      assert Held(after, o) == Held(node.db, o);
    }
    GrownStoreKeeps(log, device, node, after);
  }

  /** A merging worker whose next record is already contained has one less to merge. */
  lemma MergedOneMore(log: seq<Record>, device: Bytes, node: Node)
    requires NodeOk(log, device, node) && node.pc.Merging? && node.pc.merged < |node.pc.page|
    requires Holds(node.db, node.pc.page[node.pc.merged])
    ensures NodeOk(log, device, node.(pc := node.pc.(merged := node.pc.merged + 1)))
  {
    var next := node.(pc := node.pc.(merged := node.pc.merged + 1));
    assert forall i | 0 <= i < next.pc.merged :: Holds(next.db, next.pc.page[i]);
    assert PcOk(log, device, next);
  }

  lemma MergeKeeps(log: seq<Record>, device: Bytes, node: Node, physical: int, interrupted: bool)
    requires NodeOk(log, device, node) && node.pc.Merging? && node.pc.merged < |node.pc.page|
    ensures NodeOk(log, device, AfterMerge(node, physical, interrupted))
    ensures !interrupted ==> AfterMerge(node, physical, interrupted).pc == node.pc.(merged := node.pc.merged + 1)
    ensures Grown(node.db, AfterMerge(node, physical, interrupted).db)
  {
    var payload := node.pc.page[node.pc.merged].envelope.payload;
    assert SoundPayload(payload);
    if interrupted {
      InterruptedMergeKeeps(log, device, node, payload, physical);
    } else {
      MergeRemoteLaw(node.db, payload, physical);
      var grown := node.(db := MergeRemote(node.db, payload, physical).0);
      GrownStoreKeeps(log, device, node, grown.db);
      MergedOneMore(log, device, grown);
    }
  }

  /** What one merge step does to the records: nothing when interrupted, else the
      object of one log record moves to the merged state. */
  lemma MergeEffect(log: seq<Record>, device: Bytes, node: Node, physical: int, interrupted: bool) returns (k: nat)
    requires NodeOk(log, device, node) && node.pc.Merging? && node.pc.merged < |node.pc.page|
    ensures k < |log| && log[k] == node.pc.page[node.pc.merged] && SoundPayload(log[k].envelope.payload)
    ensures var after := AfterMerge(node, physical, interrupted);
            var payload := log[k].envelope.payload;
            && after.latest == node.latest
            && (interrupted ==>
                  after.db.phrases == node.db.phrases && forall o :: Held(after.db, o) == Held(node.db, o))
            && (!interrupted ==>
                  && after.db == MergeRemote(node.db, payload, physical).0
                  && forall o | o != payload.state.id :: Held(after.db, o) == Held(node.db, o))
  {
    assert node.pc.page[node.pc.merged] in log;
    k :| 0 <= k < |log| && log[k] == node.pc.page[node.pc.merged];
    var payload := log[k].envelope.payload;
    if interrupted {
      MergeObservedLaw(node.db, payload, physical);
    } else {
      MergeRemoteLaw(node.db, payload, physical);
    }
  }

  /** Steps that neither mutate nor merge leave the records alone. */
  lemma QuietStep(log: seq<Record>, node: Node, step: Step, log': seq<Record>, node': Node)
    requires NodeStep(log, node, step, log', node') && !step.Mutate? && !step.Merge?
    ensures node'.db.phrases == node.db.phrases && node'.latest == node.latest
    ensures forall o :: Held(node'.db, o) == Held(node.db, o)
  {
    assert node'.db.phrases == node.db.phrases;
  }

  lemma MergeKeepsQueue(log: seq<Record>, device: Bytes, node: Node, after: Database)
    requires QueueOk(log, device, node.db, node.latest) && Grown(node.db, after) && after.outbox == node.db.outbox
    ensures QueueOk(log, device, after, node.latest)
  {
    forall id ensures QueuedOk(log, device, after, node.latest, id) {
      assert QueuedOk(log, device, node.db, node.latest, id) && OptBelow(Held(node.db, id), Held(after, id));
      if id in node.latest {
        OptBelowTransitive(Some(node.latest[id].crdt), Held(node.db, id), Held(after, id));
      }
    }
  }

  /** Acknowledging removes the sent row only, and only once it is on the relay. */
  lemma CommitKeepsQueue(log: seq<Record>, device: Bytes, node: Node)
    requires NodeOk(log, device, node) && Ahead(Chain(log, device), node.db)
    ensures QueueOk(log, device, CommitPrepared(node.db).0, node.latest)
  {
    var p := node.db.prepared.value;
    var after := CommitPrepared(node.db).0;
    var sent := p.envelope.payload.state.id;
    ChainMember(log, device, p.envelope);
    assert InLog(log, device, p.envelope.payload);
    forall id ensures QueuedOk(log, device, after, node.latest, id) {
      assert QueuedOk(log, device, node.db, node.latest, id) && Held(after, id) == Held(node.db, id);
      if id in node.db.outbox && id !in after.outbox {
        assert id == sent;
        assert PayloadOf(node.db.outbox[id].phrase) == p.envelope.payload;
      }
    }
  }

  lemma CommitKeepsDatabase(db: Database)
    requires DatabaseOk(db) && db.prepared.Some?
    ensures DatabaseOk(CommitPrepared(db).0) && forall o :: Held(CommitPrepared(db).0, o) == Held(db, o)
  {
    var after := CommitPrepared(db).0;
    forall o ensures Held(after, o) == Held(db, o) {
    }
    forall o | o in after.outbox ensures RowOk(after, o, after.outbox[o]) {
      assert RowOk(db, o, db.outbox[o]);
    }
  }

  lemma MergingIsAbsorbed(log: seq<Record>, device: Bytes, node: Node)
    requires NodeOk(log, device, node) && node.pc.Merging? && node.pc.merged == |node.pc.page|
    ensures Absorbed(log, node.pc.next, node.db)
  {
    forall i | 0 <= i < |log| && log[i].cursor <= node.pc.next ensures Holds(node.db, log[i]) {
      if log[i].cursor > node.db.cursor {
        var k :| 0 <= k < |node.pc.page| && node.pc.page[k] == log[i];
      }
    }
  }

  lemma CommitKeeps(log: seq<Record>, device: Bytes, node: Node)
    requires NodeOk(log, device, node) && node.pc.Merging? && node.pc.merged == |node.pc.page|
    ensures NodeOk(log, device, AfterCommit(node)) && AfterCommit(node).pc.Advancing?
  {
    MergingIsAbsorbed(log, device, node);
    if node.pc.prepared.Some? {
      var after := CommitPrepared(node.db).0;
      CommitKeepsQueue(log, device, node);
      CommitKeepsDatabase(node.db);
      assert forall i | 0 <= i < |log| && Holds(node.db, log[i]) :: Holds(after, log[i]);
    }
  }

  lemma AdvanceKeeps(log: seq<Record>, device: Bytes, node: Node)
    requires NodeOk(log, device, node) && node.pc.Advancing?
    ensures NodeOk(log, device, AfterAdvance(node))
    ensures AfterAdvance(node).db.cursor == node.pc.next
  {
    var after := AfterAdvance(node).db;
    CheckpointKeepsDatabase(node.db, after);
    QueueSameTables(log, device, node, after);
    assert forall i | 0 <= i < |log| && Holds(node.db, log[i]) :: Holds(after, log[i]);
  }

  // --- Relay requests --------------------------------------------------------

  lemma {:induction false} ChainOfOthers(before: seq<Record>, after: seq<Record>, device: Bytes, other: Bytes)
    requires before <= after && other != device && forall i | |before| <= i < |after| :: after[i].device == device
    ensures Chain(after, other) == Chain(before, other)
  {
    if |before| < |after| {
      ChainOfOthers(before, after[..|after| - 1], device, other);
    } else {
      assert before == after;
    }
  }

  /** Another device's upload disturbs no one. */
  lemma LogGrowthKeeps(log: seq<Record>, log': seq<Record>, device: Bytes, node: Node)
    requires NodeOk(log, device, node) && LogOk(log) && log <= log' && LogOk(log')
    requires Chain(log', device) == Chain(log, device)
    ensures NodeOk(log', device, node)
  {
    PrefixCursor(log, log');
    QueueGrowth(log, log', device, node);
    AbsorbedGrowth(log, log', node.db.cursor, node.db);
    match node.pc
    case Merging(cursor, prepared, page, merged, next) =>
      forall i | 0 <= i < |log'| && cursor < log'[i].cursor <= next ensures log'[i] in page {
        assert i < |log| && log'[i] == log[i];
      }
      forall i | 0 <= i < |page| ensures page[i] in log' {
        var k :| 0 <= k < |log| && log[k] == page[i];
        assert log'[k] == page[i];
      }
    case Advancing(cursor, next) => AbsorbedGrowth(log, log', next, node.db);
    case _ =>
  }

  lemma DeduplicatedSingle(e: Envelope, unique: seq<Envelope>, conflicts: seq<Rejection>)
    requires Deduplicated({e}, unique, conflicts)
    ensures unique == [e] && conflicts == []
  {
    assert Agreed({e}, e);
    RelayLaws.AscendingDetermined(unique, [e]);
    assert forall s :: !Disputed({e}, s);
    RelayLaws.ConflictsDetermined(conflicts, []);
  }

  lemma DeduplicatedNone(unique: seq<Envelope>, conflicts: seq<Rejection>)
    requires Deduplicated({}, unique, conflicts)
    ensures unique == [] && conflicts == []
  {
    RelayLaws.AscendingDetermined(unique, []);
    assert forall s :: !Disputed({}, s);
    RelayLaws.ConflictsDetermined(conflicts, []);
  }

  /** The chain after a single staged upload, whether or not the relay had it. */
  lemma SingleUploadChain(device: Bytes, db: Database, was: seq<Envelope>, now: seq<Envelope>)
    requires db.prepared.Some? && UploadOk(db, db.prepared.value) && 1 <= db.nextSequence
    requires Behind(was, device, db) || Ahead(was, db)
    requires Linked(device, was) && Linked(device, now) && ChainGrew(device, [db.prepared.value.envelope], was, now)
    ensures Ahead(now, db)
    ensures now == was || now == was + [db.prepared.value.envelope]
    ensures VerdictOf(now, db.prepared.value.envelope) == Accepted
  {
    var e := db.prepared.value.envelope;
    RepeatsStop(device, was, now, e);
    RelayLaws.GrowthExtends(device, was, now);
    assert e in [e];
    if Behind(was, device, db) {
      assert Extends(device, was, e);
      assert now != was;
    } else {
      LinkedAt(device, was, |was| - 1);
    }
  }

  /** A linked chain cannot grow by the same envelope twice. */
  lemma RepeatsStop(device: Bytes, was: seq<Envelope>, now: seq<Envelope>, e: Envelope)
    requires was <= now && Linked(device, now) && forall i | |was| <= i < |now| :: now[i] in [e]
    ensures now == was || (now == was + [e] && e.sequence == |was| + 1)
  {
    if |was| < |now| {
      LinkedAt(device, now, |was|);
      LinkedAt(device, now, |now| - 1);
      assert now[|was|] in [e] && now[|now| - 1] in [e];
    }
  }

  /** What an answered request with at most one upload did to the log. */
  ghost predicate OneUpload(log: seq<Record>, device: Bytes, db: Database, log': seq<Record>) {
    && LogOk(log') && log <= log' && |log'| <= |log| + 1
    && (forall i | |log| <= i < |log'| ::
          log'[i].device == device && db.prepared.Some? && log'[i].envelope == db.prepared.value.envelope)
    && (Behind(Chain(log', device), device, db) || Ahead(Chain(log', device), db))
    && (db.prepared.Some? ==> Ahead(Chain(log', device), db))
  }

  lemma StagedAnswer(log: seq<Record>, device: Bytes, db: Database, unique: seq<Envelope>, conflicts: seq<Rejection>,
                     log': seq<Record>)
    requires LogOk(log) && Lockstep(log, device, db) && db.prepared.Some?
    requires Deduplicated({db.prepared.value.envelope}, unique, conflicts) && Uploaded(log, device, unique, log')
    ensures OneUpload(log, device, db, log')
    ensures AcceptedOf(Chain(log', device), unique) == [db.prepared.value.sequence]
    ensures conflicts + RejectedOf(Chain(log', device), unique) == []
  {
    var e := db.prepared.value.envelope;
    var was, now := Chain(log, device), Chain(log', device);
    DeduplicatedSingle(e, unique, conflicts);
    assert Linked(device, was) && Linked(device, now);
    SingleUploadChain(device, db, was, now);
    SingleVerdict(now, e);
    SingleUploadLog(log, device, e, log');
  }

  /** A log whose chain of one device gained at most one envelope. */
  lemma {:induction false} SingleUploadLog(log: seq<Record>, device: Bytes, e: Envelope, log': seq<Record>)
    requires log <= log' && forall i | |log| <= i < |log'| :: log'[i].device == device
    requires Chain(log', device) == Chain(log, device) || Chain(log', device) == Chain(log, device) + [e]
    ensures |log'| <= |log| + 1 && forall i | |log| <= i < |log'| :: log'[i].envelope == e
  {
    RelayLaws.ChainLength(log, log', device);
    if |log| < |log'| {
      assert log' == log + [log'[|log|]];
      ChainAppend(log, log'[|log|], device);
      assert Chain(log', device)[|Chain(log, device)|] == log'[|log|].envelope;
    }
  }

  lemma EmptyAnswer(log: seq<Record>, device: Bytes, db: Database, unique: seq<Envelope>, conflicts: seq<Rejection>,
                    log': seq<Record>)
    requires LogOk(log) && Lockstep(log, device, db) && db.prepared.None?
    requires Deduplicated({}, unique, conflicts) && Uploaded(log, device, unique, log')
    ensures log' == log && OneUpload(log, device, db, log')
    ensures AcceptedOf(Chain(log', device), unique) == []
    ensures conflicts + RejectedOf(Chain(log', device), unique) == []
  {
    DeduplicatedNone(unique, conflicts);
    RelayLaws.ChainLength(log, log', device);
    var was, now := Chain(log, device), Chain(log', device);
    GrowthMember(device, unique, was, now);
  }

  lemma GrowthMember(device: Bytes, unique: seq<Envelope>, was: seq<Envelope>, now: seq<Envelope>)
    requires ChainGrew(device, unique, was, now)
    ensures |was| < |now| ==> exists e :: e in unique
  {
    if |was| < |now| {
      assert now[|was|] in unique;
    }
  }

  /** An honest relay accepts exactly the staged upload, stores it at most once,
      and answers with a page the worker can use. */
  lemma HonestRelayAccepts(log: seq<Record>, device: Bytes, db: Database, log': seq<Record>, response: Response)
    requires LogOk(log) && Lockstep(log, device, db)
    requires Handled(log, device, RequestFor(db.cursor, db.prepared), log', response)
    ensures Acknowledges(db.prepared, response) && InOrder(db.cursor, response)
    ensures OneUpload(log, device, db, log')
  {
    var request := RequestFor(db.cursor, db.prepared);
    var unique, conflicts :|
      && Deduplicated(Members(request.envelopes), unique, conflicts)
      && Answered(log, device, request, unique, conflicts, log', response);
    HonestPagesAreInOrder(log', db.cursor, PAGE_LIMIT, response);
    if db.prepared.Some? {
      assert Members(request.envelopes) == {db.prepared.value.envelope};
      StagedAnswer(log, device, db, unique, conflicts, log');
    } else {
      assert Members(request.envelopes) == {};
      EmptyAnswer(log, device, db, unique, conflicts, log');
    }
  }

  lemma SingleVerdict(chain: seq<Envelope>, e: Envelope)
    requires VerdictOf(chain, e) == Accepted
    ensures AcceptedOf(chain, [e]) == [e.sequence] && RejectedOf(chain, [e]) == []
  {
    assert [e][..0] == [];
  }

  lemma UploadKeepsLogSound(log: seq<Record>, device: Bytes, db: Database, log': seq<Record>)
    requires LogSound(log) && OneUpload(log, device, db, log')
    requires db.prepared.Some? ==> SoundPayload(db.prepared.value.envelope.payload)
    ensures LogSound(log')
  {
    forall i | 0 <= i < |log'| ensures SoundPayload(log'[i].envelope.payload) {
      if i < |log| { assert log'[i] == log[i]; }
    }
  }

  lemma AbsorbedGrowth(log: seq<Record>, log': seq<Record>, cursor: nat, db: Database)
    requires LogOk(log) && LogOk(log') && log <= log' && cursor <= MaxCursor(log) && Absorbed(log, cursor, db)
    ensures Absorbed(log', cursor, db)
  {
    forall i | 0 <= i < |log'| && log'[i].cursor <= cursor ensures Holds(db, log'[i]) {
      assert i < |log| && log'[i] == log[i];
    }
  }

  lemma ExchangeKeeps(log: seq<Record>, device: Bytes, node: Node, log': seq<Record>, response: Response,
                      delivered: bool)
    requires LogSound(log) && NodeOk(log, device, node) && node.pc.Ready?
    requires Handled(log, device, RequestFor(node.pc.cursor, node.pc.prepared), log', response)
    ensures LogSound(log') && NodeOk(log', device, AfterExchange(node, response, delivered))
    ensures delivered ==> AfterExchange(node, response, delivered).pc.Merging?
    ensures OneUpload(log, device, node.db, log')
  {
    var db := node.db;
    HonestRelayAccepts(log, device, db, log', response);
    UploadKeepsLogSound(log, device, db, log');
    PrefixCursor(log, log');
    AbsorbedGrowth(log, log', db.cursor, db);
    QueueGrowth(log, log', device, node);
    HonestPage(log', db.cursor, db.prepared, response, log, device);
  }

  lemma QueueGrowth(log: seq<Record>, log': seq<Record>, device: Bytes, node: Node)
    requires QueueOk(log, device, node.db, node.latest) && log <= log'
    ensures QueueOk(log', device, node.db, node.latest)
  {
    forall id ensures QueuedOk(log', device, node.db, node.latest, id) {
      assert QueuedOk(log, device, node.db, node.latest, id);
      if id in node.latest && InLog(log, device, PayloadOf(node.latest[id])) {
        var i :| 0 <= i < |log| && log[i].device == device && log[i].envelope.payload == PayloadOf(node.latest[id]);
        assert log'[i] == log[i];
      }
    }
  }

  /** The page of an answered request, as the merging worker needs it. */
  lemma HonestPage(log': seq<Record>, cursor: nat, prepared: Option<Prepared>, response: Response, log: seq<Record>,
                   device: Bytes)
    requires LogSound(log') && cursor <= MaxCursor(log')
    requires Handled(log, device, RequestFor(cursor, prepared), log', response)
    ensures cursor <= response.nextCursor <= MaxCursor(log')
    ensures forall i | 0 <= i < |response.page| ::
              response.page[i] in log' && SoundPayload(response.page[i].envelope.payload)
    ensures forall i | 0 <= i < |log'| && cursor < log'[i].cursor <= response.nextCursor :: log'[i] in response.page
  {
    HonestPagesAreInOrder(log', cursor, PAGE_LIMIT, response);
    forall i | 0 <= i < |response.page|
      ensures SoundPayload(response.page[i].envelope.payload) && response.page[i].cursor <= MaxCursor(log')
    {
      assert response.page[i] in log';
      var k :| 0 <= k < |log'| && log'[k] == response.page[i];
    }
    forall i | 0 <= i < |log'| && cursor < log'[i].cursor <= response.nextCursor ensures log'[i] in response.page {
      assert log'[i] in log';
    }
  }
}
