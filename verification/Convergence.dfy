/** Convergence: once every outbox is empty and every cursor is at the end, the
    devices agree on an object exactly when no device has counted a use that it
    has not queued. */
module Convergence {
  import opened Order
  import opened Wrappers
  import opened Crdt
  import opened Wire
  import opened Device
  import opened DeviceLaws
  import opened Relay
  import opened Protocol
  import opened ProtocolLaws
  import opened Runs

  /** The own uses of an object that a device has handed to its outbox. */
  ghost function Queued(node: Node, device: Bytes, id: ObjectId): (r: u64) {
    if id in node.latest then Count(node.latest[id].crdt.counts, device) else 0
  }

  ghost function OwnUses(node: Node, device: Bytes, id: ObjectId): (r: u64) {
    OptCount(Held(node.db, id), device)
  }

  ghost predicate AboveLog(log: seq<Record>, id: ObjectId, u: PhraseState) {
    u.id == id && forall i | 0 <= i < |log| && log[i].envelope.payload.state.id == id ::
        Below(log[i].envelope.payload.state, u)
  }

  /** A held state is the join of the relay's records of the object. */
  ghost predicate IsLogJoin(log: seq<Record>, id: ObjectId, h: Option<PhraseState>) {
    && (h.None? ==> forall i | 0 <= i < |log| :: log[i].envelope.payload.state.id != id)
    && (h.Some? ==> AboveLog(log, id, h.value) && forall u | AboveLog(log, id, u) :: Below(h.value, u))
  }

  ghost predicate Converged(w: World, id: ObjectId) {
    forall d <- w.nodes :: IsLogJoin(w.log, id, Held(w.nodes[d].db, id))
  }

  ghost predicate Quiescent(w: World) {
    forall d <- w.nodes :: w.nodes[d].db.outbox == map[] && w.nodes[d].db.cursor == MaxCursor(w.log)
  }

  /** The object is new: no store knows it yet, whatever else they hold. */
  ghost predicate FreshInit(w: World, id: ObjectId) {
    Init(w) && forall d <- w.nodes :: id !in w.nodes[d].db.phrases
  }

  // --- What runs of a new object keep ----------------------------------------

  /** A stored record of the object has metadata. */
  ghost predicate Complete(db: Database, id: ObjectId) {
    id in db.phrases ==> db.phrases[id].crdt.id != NoObject
  }

  /** Unless the device holds uses it has not queued, what it holds follows from
      the relay's records and its own last queued record. */
  ghost predicate Explained(log: seq<Record>, device: Bytes, node: Node, id: ObjectId) {
    Held(node.db, id).Some? && OwnUses(node, device, id) <= Queued(node, device, id) ==>
      forall u | AboveLog(log, id, u) && (id in node.latest ==> Below(node.latest[id].crdt, u)) ::
               Below(Held(node.db, id).value, u)
  }

  ghost predicate NodeFresh(log: seq<Record>, device: Bytes, node: Node, id: ObjectId) {
    Complete(node.db, id) && Explained(log, device, node, id)
  }

  /** No one else counts a use by a device before the device has queued it. */
  ghost predicate KnownUses(w: World, d: Bytes, e: Bytes, id: ObjectId)
    requires d in w.nodes && e in w.nodes
  {
    OptCount(Held(w.nodes[e].db, id), d) <= Queued(w.nodes[d], d, id)
  }

  ghost predicate KnownRecord(w: World, d: Bytes, r: Record, id: ObjectId)
    requires d in w.nodes
  {
    r.envelope.payload.state.id == id ==> Count(r.envelope.payload.state.counts, d) <= Queued(w.nodes[d], d, id)
  }

  ghost predicate WorldFresh(w: World, id: ObjectId) {
    && (forall d <- w.nodes :: NodeFresh(w.log, d, w.nodes[d], id))
    && (forall d, e | d in w.nodes && e in w.nodes && d != e :: KnownUses(w, d, e, id))
    && (forall d, i | d in w.nodes && 0 <= i < |w.log| :: KnownRecord(w, d, w.log[i], id))
  }

  lemma FreshInitKeeps(w: World, id: ObjectId)
    requires FreshInit(w, id)
    ensures WorldFresh(w, id)
  {
    forall d | d in w.nodes ensures NodeFresh(w.log, d, w.nodes[d], id) {
    }
    forall d, e | d in w.nodes && e in w.nodes && d != e ensures KnownUses(w, d, e, id) {
      assert id !in w.nodes[e].db.phrases;
    }
  }

  // --- One step of one device ------------------------------------------------

  /** A write that is not queued counts one more own use. */
  lemma UnqueuedWriteCounts(db: Database, m: Mutation, physical: int)
    requires DatabaseOk(db) && Callable(m) && Writes(db, m, physical) && !Queues(db, m, physical)
    ensures Count(Written(db, m, physical).crdt.counts, db.device) > OptCount(Held(db, Target(m)), db.device)
  {
    match m
    case Save(p) => SaveExplicitAdvances(db, p, physical);
    case Remove(text, pinyin) => DeleteAdvances(db, text, pinyin, physical);
    case Select(p, disabled, day) =>
      SelectionAdvances(db, p, physical, day);
      var id := Target(m);
      if id in db.phrases {
        assert RecordOk(db.wall, db.counter, id, db.phrases[id]);
        EnsureStateTotals(db.phrases[id], id, db.device, NextClock(db, physical).1);
      }
  }

  lemma MutationKeepsExplained(log: seq<Record>, device: Bytes, node: Node, m: Mutation, physical: int, id: ObjectId)
    requires NodeOk(log, device, node) && Callable(m) && Explained(log, device, node, id)
    ensures Explained(log, device, AfterMutation(node, m, physical), id)
  {
    MutationKeepsDatabase(node.db, m, physical);
    var after := AfterMutation(node, m, physical);
    if !(Writes(node.db, m, physical) && id == Target(m)) {
      assert Held(after.db, id) == Held(node.db, id) && Queued(after, device, id) == Queued(node, device, id);
      assert id in after.latest <==> id in node.latest;
    } else if Queues(node.db, m, physical) {
      assert Held(after.db, id) == Some(after.latest[id].crdt);
    } else {
      assert QueuedOk(log, device, node.db, node.latest, id);
      UnqueuedWriteUnexplained(node, m, physical, id);
    }
  }

  /** After a write that is not queued, the device holds uses it has not queued. */
  lemma UnqueuedWriteUnexplained(node: Node, m: Mutation, physical: int, id: ObjectId)
    requires DatabaseOk(node.db) && Callable(m) && Writes(node.db, m, physical) && !Queues(node.db, m, physical)
    requires id == Target(m) && (id in node.latest ==> OptBelow(Some(node.latest[id].crdt), Held(node.db, id)))
    ensures var after := AfterMutation(node, m, physical);
            OwnUses(after, node.db.device, id) > Queued(after, node.db.device, id)
  {
    MutationKeepsDatabase(node.db, m, physical);
    UnqueuedWriteCounts(node.db, m, physical);
  }

  lemma UpsertKeepsComplete(db: Database, target: ObjectId, p: Phrase, enqueue: bool, id: ObjectId)
    requires Complete(db, id) && p.crdt.id != NoObject
    ensures Complete(Upsert(db, target, p, enqueue), id)
  {
  }

  lemma MutationKeepsComplete(db: Database, m: Mutation, physical: int, id: ObjectId)
    requires DatabaseOk(db) && Callable(m) && Complete(db, id)
    ensures Complete(Mutated(db, m, physical), id)
  {
    MutationIsInflationary(db, m, physical);
    if Writes(db, m, physical) {
      UpsertKeepsComplete(NextClock(db, physical).0, Target(m), Written(db, m, physical), Queues(db, m, physical), id);
    }
  }

  /** What merging one record of the log does to the held state of its object. */
  lemma MergeHeld(db: Database, payload: Payload, physical: int)
    requires DatabaseOk(db) && SoundPayload(payload) && Complete(db, payload.state.id)
    ensures var (after, ok) := MergeRemote(db, payload, physical);
            var id := payload.state.id;
            && Complete(after, id) && Held(after, id).Some?
            && (forall d ::
                  OptCount(Held(after, id), d) == Max(OptCount(Held(db, id), d), Count(payload.state.counts, d)))
            && (forall u | OptBelow(Held(db, id), Some(u)) && Below(payload.state, u) ::
                  Below(Held(after, id).value, u))
  {
    MergeRemoteLaw(db, payload, physical);
    MergedPayloadLaw(db, payload, physical);
  }

  lemma MergeKeepsComplete(db: Database, payload: Payload, physical: int, id: ObjectId)
    requires DatabaseOk(db) && SoundPayload(payload) && Complete(db, id)
    ensures Complete(MergeRemote(db, payload, physical).0, id)
  {
    if payload.state.id == id {
      MergeHeld(db, payload, physical);
    }
  }

  lemma MergeKeepsExplained(log: seq<Record>, device: Bytes, node: Node, physical: int, k: nat, id: ObjectId)
    requires NodeOk(log, device, node) && node.pc.Merging? && node.pc.merged < |node.pc.page| && Complete(node.db, id)
    requires k < |log| && log[k] == node.pc.page[node.pc.merged] && Explained(log, device, node, id)
    ensures Explained(log, device, AfterMerge(node, physical, false), id)
  {
    var payload := log[k].envelope.payload;
    var after := AfterMerge(node, physical, false);
    MergeRemoteLaw(node.db, payload, physical);
    assert QueuedOk(log, device, node.db, node.latest, id);
    if payload.state.id == id {
      MergeHeld(node.db, payload, physical);
    }
    if payload.state.id == id && OwnUses(after, device, id) <= Queued(after, device, id) {
      forall u | AboveLog(log, id, u) && (id in node.latest ==> Below(node.latest[id].crdt, u))
        ensures Below(Held(after.db, id).value, u)
      {
        assert Below(log[k].envelope.payload.state, u);
      }
    }
  }

  lemma {:induction false} ExplainedGrowth(log: seq<Record>, log': seq<Record>, device: Bytes, node: Node, id: ObjectId)
    requires log <= log' && Explained(log, device, node, id)
    ensures Explained(log', device, node, id)
  {
    forall u | AboveLog(log', id, u) ensures AboveLog(log, id, u) {
      forall i | 0 <= i < |log| && log[i].envelope.payload.state.id == id
        ensures Below(log[i].envelope.payload.state, u) {
        assert log'[i] == log[i];
      }
    }
  }

  lemma SameHeldExplained(log: seq<Record>, device: Bytes, node: Node, node': Node, id: ObjectId)
    requires Explained(log, device, node, id) && Held(node'.db, id) == Held(node.db, id) && node'.latest == node.latest
    ensures Explained(log, device, node', id)
  {
  }

  lemma StepKeepsExplained(log: seq<Record>, node: Node, step: Step, log': seq<Record>, node': Node, id: ObjectId)
    requires LogSound(log) && NodeOk(log, step.device, node) && NodeStep(log, node, step, log', node') && log <= log'
    requires Complete(node.db, id) && Explained(log, step.device, node, id)
    ensures Explained(log', step.device, node', id)
  {
    var d := step.device;
    if step.Mutate? {
      MutationKeepsExplained(log, d, node, step.mutation, step.physical, id);
    } else if step.Merge? {
      var k := MergeEffect(log, d, node, step.physical, step.interrupted);
      if step.interrupted {
        SameHeldExplained(log, d, node, node', id);
      } else {
        MergeKeepsExplained(log, d, node, step.physical, k, id);
      }
    } else {
      QuietStep(log, node, step, log', node');
      SameHeldExplained(log, d, node, node', id);
      ExplainedGrowth(log, log', d, node', id);
    }
  }

  lemma StepKeepsComplete(log: seq<Record>, node: Node, step: Step, log': seq<Record>, node': Node, id: ObjectId)
    requires LogSound(log) && NodeOk(log, step.device, node) && NodeStep(log, node, step, log', node')
    requires Complete(node.db, id)
    ensures Complete(node'.db, id)
  {
    if step.Mutate? {
      MutationKeepsComplete(node.db, step.mutation, step.physical, id);
    } else if step.Merge? {
      var k := MergeEffect(log, step.device, node, step.physical, step.interrupted);
      MergeKeepsComplete(node.db, log[k].envelope.payload, step.physical, id);
    } else {
      QuietStep(log, node, step, log', node');
    }
  }

  // --- Who knows of whose uses -----------------------------------------------

  lemma QueuedNeverShrinks(log: seq<Record>, node: Node, step: Step, log': seq<Record>, node': Node, id: ObjectId)
    requires LogSound(log) && NodeOk(log, step.device, node) && NodeStep(log, node, step, log', node')
    ensures Queued(node, step.device, id) <= Queued(node', step.device, id)
  {
    if step.Mutate? {
      var db, m, physical := node.db, step.mutation, step.physical;
      assert QueuedOk(log, step.device, db, node.latest, id);
      if Queues(db, m, physical) && id == Target(m) {
        MutationIsInflationary(db, m, physical);
        if id in node.latest {
          OptBelowTransitive(Some(node.latest[id].crdt), Held(db, id), Some(Written(db, m, physical).crdt));
        }
      }
    }
  }

  /** A step changes what its device knows of another device's uses only by
      merging a record of the log. */
  lemma OthersUsesFromLog(log: seq<Record>, node: Node, step: Step, log': seq<Record>, node': Node, d: Bytes,
                          id: ObjectId, bound: nat)
    requires LogSound(log) && NodeOk(log, step.device, node) && NodeStep(log, node, step, log', node')
    requires Complete(node.db, id) && d != step.device
    requires OptCount(Held(node.db, id), d) <= bound
    requires forall i | 0 <= i < |log| && log[i].envelope.payload.state.id == id ::
               Count(log[i].envelope.payload.state.counts, d) <= bound
    ensures OptCount(Held(node'.db, id), d) <= bound
  {
    if step.Mutate? {
      MutationIsInflationary(node.db, step.mutation, step.physical);
      MutationKeepsDatabase(node.db, step.mutation, step.physical);
    } else if step.Merge? {
      var k := MergeEffect(log, step.device, node, step.physical, step.interrupted);
      if log[k].envelope.payload.state.id == id {
        MergeHeld(node.db, log[k].envelope.payload, step.physical);
      }
    } else {
      QuietStep(log, node, step, log', node');
    }
  }

  /** Whatever a device learns of another one's uses by its own step was queued there. */
  lemma OwnStepKeepsKnownUses(w: World, step: Step, w': World, d: Bytes, id: ObjectId)
    requires WorldOk(w) && WorldFresh(w, id) && Next(w, step, w') && d in w.nodes && step.device in w.nodes &&
             d != step.device
    ensures step.device in w'.nodes && OptCount(Held(w'.nodes[step.device].db, id), d) <= Queued(w.nodes[d], d, id)
  {
    var c := step.device;
    assert NodeOk(w.log, c, w.nodes[c]) && NodeFresh(w.log, c, w.nodes[c], id);
    assert KnownUses(w, d, c, id);
    forall i | 0 <= i < |w.log| && w.log[i].envelope.payload.state.id == id
      ensures Count(w.log[i].envelope.payload.state.counts, d) <= Queued(w.nodes[d], d, id)
    {
      assert KnownRecord(w, d, w.log[i], id);
    }
    OthersUsesFromLog(w.log, w.nodes[c], step, w'.log, w'.nodes[c], d, id, Queued(w.nodes[d], d, id));
  }

  lemma StepKeepsKnownUses(w: World, step: Step, w': World, d: Bytes, e: Bytes, id: ObjectId)
    requires WorldOk(w) && WorldFresh(w, id) && Next(w, step, w') && d in w.nodes && e in w.nodes && d != e
    ensures KnownUses(w', d, e, id)
  {
    var c := step.device;
    assert KnownUses(w, d, e, id);
    if c == d {
      assert NodeOk(w.log, c, w.nodes[c]);
      QueuedNeverShrinks(w.log, w.nodes[c], step, w'.log, w'.nodes[c], id);
    } else if c == e {
      OwnStepKeepsKnownUses(w, step, w', d, id);
    }
  }

  /** A staged upload counts no use its device has not queued. */
  lemma UploadKnown(w: World, c: Bytes, d: Bytes, u: Prepared, id: ObjectId)
    requires WorldOk(w) && WorldFresh(w, id) && c in w.nodes && d in w.nodes && UploadOk(w.nodes[c].db, u)
    requires u.envelope.payload.state.id == id
    ensures Count(u.envelope.payload.state.counts, d) <= Queued(w.nodes[d], d, id)
  {
    var node := w.nodes[c];
    assert NodeOk(w.log, c, node);
    assert QueuedOk(w.log, c, node.db, node.latest, id);
    if c != d {
      assert KnownUses(w, d, c, id);
      assert RowOk(node.db, id, node.db.outbox[id]);
    }
  }

  lemma StepKeepsKnownRecord(w: World, step: Step, w': World, d: Bytes, i: nat, id: ObjectId)
    requires WorldOk(w) && WorldFresh(w, id) && Next(w, step, w') && d in w.nodes && i < |w'.log|
    ensures KnownRecord(w', d, w'.log[i], id)
  {
    var c := step.device;
    var node := w.nodes[c];
    assert NodeOk(w.log, c, node);
    if w'.log[i].envelope.payload.state.id == id {
      NewRecordKnown(w, step, w', d, i, id);
      if c == d {
        QueuedNeverShrinks(w.log, node, step, w'.log, w'.nodes[c], id);
      }
    }
  }

  /** A record of the grown log counts no use that was not queued before the step. */
  lemma NewRecordKnown(w: World, step: Step, w': World, d: Bytes, i: nat, id: ObjectId)
    requires WorldOk(w) && WorldFresh(w, id) && Next(w, step, w') && d in w.nodes && i < |w'.log|
    requires w'.log[i].envelope.payload.state.id == id
    ensures Count(w'.log[i].envelope.payload.state.counts, d) <= Queued(w.nodes[d], d, id)
  {
    var c := step.device;
    var node := w.nodes[c];
    assert NodeOk(w.log, c, node);
    if step.Exchange? {
      ExchangeKeeps(w.log, c, node, w'.log, step.response, step.delivered);
    }
    if i < |w.log| {
      assert KnownRecord(w, d, w.log[i], id) && w'.log[i] == w.log[i];
    } else {
      UploadKnown(w, c, d, node.db.prepared.value, id);
    }
  }

  lemma StepKeepsFresh(w: World, step: Step, w': World, id: ObjectId)
    requires WorldOk(w) && WorldFresh(w, id) && Next(w, step, w')
    ensures WorldFresh(w', id)
  {
    forall d | d in w'.nodes ensures NodeFresh(w'.log, d, w'.nodes[d], id) {
      StepKeepsNodeFresh(w, step, w', d, id);
    }
    forall d, e | d in w'.nodes && e in w'.nodes && d != e ensures KnownUses(w', d, e, id) {
      StepKeepsKnownUses(w, step, w', d, e, id);
    }
    forall d, i | d in w'.nodes && 0 <= i < |w'.log| ensures KnownRecord(w', d, w'.log[i], id) {
      StepKeepsKnownRecord(w, step, w', d, i, id);
    }
  }

  lemma StepKeepsNodeFresh(w: World, step: Step, w': World, d: Bytes, id: ObjectId)
    requires WorldOk(w) && WorldFresh(w, id) && Next(w, step, w') && d in w'.nodes
    ensures NodeFresh(w'.log, d, w'.nodes[d], id)
  {
    var c := step.device;
    assert NodeOk(w.log, c, w.nodes[c]) && NodeFresh(w.log, d, w.nodes[d], id);
    StepKeepsNode(w.log, w.nodes[c], step, w'.log, w'.nodes[c]);
    if d == c {
      StepKeepsComplete(w.log, w.nodes[c], step, w'.log, w'.nodes[c], id);
      StepKeepsExplained(w.log, w.nodes[c], step, w'.log, w'.nodes[c], id);
    } else {
      ExplainedGrowth(w.log, w'.log, d, w.nodes[d], id);
    }
  }

  lemma {:induction false} FreshRunsKeepKnowledge(t: Trace, i: nat, id: ObjectId)
    requires IsRun(t) && FreshInit(t.worlds[0], id) && i < |t.worlds|
    ensures WorldOk(t.worlds[i]) && WorldFresh(t.worlds[i], id)
  {
    RunsKeepTheInvariant(t, i);
    if i == 0 {
      FreshInitKeeps(t.worlds[0], id);
    } else {
      FreshRunsKeepKnowledge(t, i - 1, id);
      FreshNext(t, i - 1, t.worlds[i - 1], t.worlds[i], id);
    }
  }

  lemma FreshNext(t: Trace, i: nat, w: World, w': World, id: ObjectId)
    requires IsRun(t) && i < |t.steps| && w == t.worlds[i] && w' == t.worlds[i + 1]
    requires WorldOk(w) && WorldFresh(w, id)
    ensures WorldFresh(w', id)
  {
    var step := t.steps[i];
    StepKeepsFresh(w, step, w', id);
  }

  // --- Convergence -----------------------------------------------------------

  ghost predicate NothingUnqueued(w: World, id: ObjectId) {
    forall d <- w.nodes :: OwnUses(w.nodes[d], d, id) == Queued(w.nodes[d], d, id)
  }

  /** A device that has read the whole log holds all of it. */
  lemma ReadEverything(w: World, d: Bytes, id: ObjectId)
    requires WorldOk(w) && Quiescent(w) && d in w.nodes
    ensures var h := Held(w.nodes[d].db, id);
            && (h.None? ==> forall i | 0 <= i < |w.log| :: w.log[i].envelope.payload.state.id != id)
            && (h.Some? ==> AboveLog(w.log, id, h.value))
  {
    assert NodeOk(w.log, d, w.nodes[d]);
    forall i | 0 <= i < |w.log| ensures Holds(w.nodes[d].db, w.log[i]) {
      assert w.log[i].cursor <= MaxCursor(w.log);
    }
    var h := Held(w.nodes[d].db, id);
    if h.Some? {
      assert RecordOk(w.nodes[d].db.wall, w.nodes[d].db.counter, id, w.nodes[d].db.phrases[id]);
    }
  }

  lemma QuietDeviceHoldsTheJoin(w: World, d: Bytes, id: ObjectId)
    requires WorldOk(w) && WorldFresh(w, id) && Quiescent(w) && d in w.nodes
    requires OwnUses(w.nodes[d], d, id) == Queued(w.nodes[d], d, id)
    ensures IsLogJoin(w.log, id, Held(w.nodes[d].db, id))
  {
    var node := w.nodes[d];
    ReadEverything(w, d, id);
    assert NodeOk(w.log, d, node) && QueuedOk(w.log, d, node.db, node.latest, id);
    assert NodeFresh(w.log, d, node, id) && Explained(w.log, d, node, id);
    forall u | AboveLog(w.log, id, u) ensures id in node.latest ==> Below(node.latest[id].crdt, u) {
      if id in node.latest {
        var i :| 0 <= i < |w.log| && w.log[i].device == d && w.log[i].envelope.payload == PayloadOf(node.latest[id]);
        assert Below(w.log[i].envelope.payload.state, u);
      }
    }
  }

  /** The join of the log counts no use a device has not queued. */
  lemma JoinCountsQueuedUses(w: World, d: Bytes, id: ObjectId)
    requires WorldOk(w) && WorldFresh(w, id) && d in w.nodes && IsLogJoin(w.log, id, Held(w.nodes[d].db, id))
    ensures OwnUses(w.nodes[d], d, id) == Queued(w.nodes[d], d, id)
  {
    var node := w.nodes[d];
    assert NodeOk(w.log, d, node) && QueuedOk(w.log, d, node.db, node.latest, id);
    if Held(node.db, id).Some? {
      var h := Held(node.db, id).value;
      var q := Queued(node, d, id);
      var u := h.(counts := h.counts[d := q]);
      forall i | 0 <= i < |w.log| && w.log[i].envelope.payload.state.id == id
        ensures Below(w.log[i].envelope.payload.state, u)
      {
        var s := w.log[i].envelope.payload.state;
        assert KnownRecord(w, d, w.log[i], id) && Below(s, h);
        forall e ensures Count(s.counts, e) <= Count(u.counts, e) {
          assert Count(s.counts, e) <= Count(h.counts, e);
        }
      }
      assert Below(h, u);
      assert Count(h.counts, d) <= Count(u.counts, d);
    }
  }

  /** In every run, whenever all outboxes are empty and all cursors are at the end,
      every device holds exactly the join of the relay's records of an object that
      was new at the start if and only if no device holds an own use of it that was
      never queued. */
  lemma ConvergenceTheorem(t: Trace, i: nat, id: ObjectId)
    requires IsRun(t) && FreshInit(t.worlds[0], id) && i < |t.worlds| && Quiescent(t.worlds[i])
    ensures Converged(t.worlds[i], id) <==> NothingUnqueued(t.worlds[i], id)
  {
    FreshRunsKeepKnowledge(t, i, id);
    var w := t.worlds[i];
    if NothingUnqueued(w, id) {
      forall d | d in w.nodes ensures IsLogJoin(w.log, id, Held(w.nodes[d].db, id)) {
        QuietDeviceHoldsTheJoin(w, d, id);
      }
    }
    if Converged(w, id) {
      forall d | d in w.nodes ensures OwnUses(w.nodes[d], d, id) == Queued(w.nodes[d], d, id) {
        JoinCountsQueuedUses(w, d, id);
      }
    }
  }

  /** Converged devices hold the same replicated state. */
  lemma ConvergedDevicesAgree(w: World, id: ObjectId, d: Bytes, e: Bytes)
    requires WorldOk(w) && Converged(w, id) && d in w.nodes && e in w.nodes
    requires exists i :: 0 <= i < |w.log| && w.log[i].envelope.payload.state.id == id
    ensures Held(w.nodes[d].db, id).Some? && Held(w.nodes[e].db, id).Some?
    ensures Same(Held(w.nodes[d].db, id).value, Held(w.nodes[e].db, id).value)
  {
    assert IsLogJoin(w.log, id, Held(w.nodes[d].db, id)) && IsLogJoin(w.log, id, Held(w.nodes[e].db, id));
    BelowAntisymmetric(Held(w.nodes[d].db, id).value, Held(w.nodes[e].db, id).value);
  }

  // --- The condition is needed -----------------------------------------------

  function NewStore(device: Bytes): Database {
    Database(device, map[], map[], 1, 0, 0, 0, 0, 1, NoHash, None)
  }

  function Typed(text: Bytes, pinyin: Bytes): Phrase {
    Phrase(text, pinyin, [], 0, false, false, 0, ZERO_STATE)
  }

  /** The first selection of a new phrase is stored but not queued. */
  lemma FirstSelectionIsNotQueued(device: Bytes, text: Bytes, pinyin: Bytes, physical: int, day: int)
    requires text != [] && pinyin != []
    ensures var clock := NextClock(NewStore(device), physical).1;
            var id := Object(text, pinyin);
            var decision := SelectionDecision(NewStore(device), Typed(text, pinyin), clock, day);
            && decision.Write? && !decision.enqueue
            && decision.phrase.crdt == PhraseState(id, map[device := 1], LwwBool(false, clock),
                                                   Presence(true, clock, 1))
  {
    var none: Counts := map[];
    SumUpdate(none, device, 1);
    var one := none[device := 1];
    assert one == map[device := 1];
    assert Sum(none) == 0 && Sum(one) == 1;
    var clock := NextClock(NewStore(device), physical).1;
    var id := Object(text, pinyin);
    var p := Typed(text, pinyin);
    var e := EnsureState(p.(source := LEARNED), id, device, clock);
    assert e.Ok? && e.value.crdt.counts == none;
    assert SelectionBase(NewStore(device), id, p) == p.(source := LEARNED);
  }

  /** A quiet world that has not converged: one device, one first selection. */
  lemma FirstSelectionStaysLocal(device: Bytes, text: Bytes, pinyin: Bytes, physical: int, day: int) returns (t: Trace)
    requires ValidDeviceId(device) && text != [] && pinyin != []
    ensures IsRun(t) && FreshInit(t.worlds[0], Object(text, pinyin)) && |t.worlds| == 2 && Quiescent(t.worlds[1])
    ensures !Converged(t.worlds[1], Object(text, pinyin))
  {
    var id := Object(text, pinyin);
    var db := NewStore(device);
    var m := Select(Typed(text, pinyin), false, day);
    FirstSelectionIsNotQueued(device, text, pinyin, physical, day);
    var before := Node(db, Idle, map[]);
    var after := AfterMutation(before, m, physical);
    var w, w' := World([], map[device := before]), World([], map[device := after]);
    t := Trace([w, w'], [Mutate(device, m, physical)]);
    assert InitNode(device, before);
    assert Next(w, t.steps[0], w');
    assert after.db.outbox == map[];
    var h := Held(after.db, id);
    assert h.Some? && Count(h.value.counts, device) == 1;
    var u := h.value.(counts := map[]);
    assert AboveLog([], id, u) && !CountsLeq(h.value.counts, u.counts);
    assert !IsLogJoin(w'.log, id, Held(w'.nodes[device].db, id));
  }
}
