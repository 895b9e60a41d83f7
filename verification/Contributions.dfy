/** Convergence of every object of every run, whatever the stores held before: the
    devices agree exactly when the relay's records contain each contribution that was
    never queued. */
module Contributions {
  import opened Order
  import opened Wrappers
  import opened Crdt
  import opened Wire
  import opened Device
  import opened DeviceLaws
  import opened Relay
  import opened Protocol
  import opened ProtocolLaws
  import opened Runs
  import opened Convergence

  // --- What a device adds to an object ---------------------------------------

  /** The state a step of a device adds by writing the object. */
  ghost predicate WritesState(w: World, step: Step, d: Bytes, id: ObjectId, s: PhraseState) {
    && step.Mutate? && step.device == d && d in w.nodes && Target(step.mutation) == id
    && Writes(w.nodes[d].db, step.mutation, step.physical)
    && Written(w.nodes[d].db, step.mutation, step.physical).crdt == s
  }

  ghost predicate QueuesState(w: World, step: Step, d: Bytes, id: ObjectId, s: PhraseState) {
    WritesState(w, step, d, id, s) && Queues(w.nodes[d].db, step.mutation, step.physical)
  }

  /** The step merges into a record without metadata, and gives it this state first. */
  ghost predicate CompletesState(w: World, step: Step, d: Bytes, id: ObjectId, s: PhraseState) {
    && step.Merge? && !step.interrupted && step.device == d && d in w.nodes
    && var node := w.nodes[d];
       && node.pc.Merging? && node.pc.merged < |node.pc.page|
       && node.pc.page[node.pc.merged].envelope.payload.state.id == id
       && id in node.db.phrases && node.db.phrases[id].crdt.id == NoObject
       && MergeBase(node.db, id, step.physical).1.Ok?
       && MergeBase(node.db, id, step.physical).1.value.crdt == s
  }

  /** The device held the state before the run. */
  ghost predicate HeldAtFirst(t: Trace, d: Bytes, id: ObjectId, s: PhraseState)
    requires |t.worlds| > 0
  {
    d in t.worlds[0].nodes && Held(t.worlds[0].nodes[d].db, id) == Some(s)
  }

  ghost predicate Adds(w: World, step: Step, d: Bytes, id: ObjectId, s: PhraseState) {
    WritesState(w, step, d, id, s) || CompletesState(w, step, d, id, s)
  }

  /** The device added the state before the run or by one of its first `n` steps. */
  ghost predicate Contributes(t: Trace, n: nat, d: Bytes, id: ObjectId, s: PhraseState)
    requires n < |t.worlds| == |t.steps| + 1
  {
    HeldAtFirst(t, d, id, s) || exists k | 0 <= k < n :: Adds(t.worlds[k], t.steps[k], d, id, s)
  }

  /** The same, without handing it to the outbox in the same step. */
  ghost predicate Unqueued(t: Trace, n: nat, d: Bytes, id: ObjectId, s: PhraseState)
    requires n < |t.worlds| == |t.steps| + 1
  {
    || HeldAtFirst(t, d, id, s)
    || exists k | 0 <= k < n ::
         Adds(t.worlds[k], t.steps[k], d, id, s) && !QueuesState(t.worlds[k], t.steps[k], d, id, s)
  }

  /** The join of the relay's records of the object contains the state. */
  ghost predicate LogContains(log: seq<Record>, id: ObjectId, s: PhraseState) {
    forall u | AboveLog(log, id, u) :: Below(s, u)
  }

  // --- Held states come from contributions and the log -----------------------

  /** A state above the log and above everything the device contributed. */
  ghost predicate AboveAll(t: Trace, n: nat, d: Bytes, id: ObjectId, u: PhraseState)
    requires n < |t.worlds| == |t.steps| + 1
  {
    AboveLog(t.worlds[n].log, id, u) && forall s | Contributes(t, n, d, id, s) :: Below(s, u)
  }

  ghost predicate Derived(t: Trace, n: nat, d: Bytes, id: ObjectId)
    requires n < |t.worlds| == |t.steps| + 1
  {
    d in t.worlds[n].nodes && Held(t.worlds[n].nodes[d].db, id).Some? ==>
      forall u | AboveAll(t, n, d, id, u) :: Below(Held(t.worlds[n].nodes[d].db, id).value, u)
  }

  /** The least bound a merge writes, from what was held or had to be completed. */
  lemma MergeWritesTheJoin(db: Database, payload: Payload, physical: int, u: PhraseState)
    requires DatabaseOk(db) && SoundPayload(payload) && Below(payload.state, u)
    requires OptBelow(Held(db, payload.state.id), Some(u))
    requires payload.state.id in db.phrases && db.phrases[payload.state.id].crdt.id == NoObject
             && MergeBase(db, payload.state.id, physical).1.Ok? ==>
               Below(MergeBase(db, payload.state.id, physical).1.value.crdt, u)
    ensures var after := MergeRemote(db, payload, physical).0;
            OptBelow(Held(after, payload.state.id), Some(u))
  {
    var id := payload.state.id;
    MergeRemoteLaw(db, payload, physical);
    MergedPayloadLaw(db, payload, physical);
    if id in db.phrases && db.phrases[id].crdt.id == NoObject {
      var base := MergeBase(db, id, physical).1.value;
      JoinIsLeastUpperBound(base.crdt, payload.state);
    }
  }

  /** One step of the device itself leaves what it holds below every bound of the log,
      of what it held and of what the step added. */
  lemma OwnStepDerives(w: World, step: Step, w': World, id: ObjectId, u: PhraseState)
    requires WorldOk(w) && Next(w, step, w') && AboveLog(w.log, id, u)
    requires OptBelow(Held(w.nodes[step.device].db, id), Some(u))
    requires forall s | Adds(w, step, step.device, id, s) :: Below(s, u)
    ensures OptBelow(Held(w'.nodes[step.device].db, id), Some(u))
  {
    var d := step.device;
    var node := w.nodes[d];
    assert NodeOk(w.log, d, node);
    if step.Mutate? {
      MutationKeepsDatabase(node.db, step.mutation, step.physical);
      if Writes(node.db, step.mutation, step.physical) && Target(step.mutation) == id {
        assert WritesState(w, step, d, id, Written(node.db, step.mutation, step.physical).crdt);
      }
    } else if step.Merge? {
      MergeStepDerives(w, step, w', id, u);
    } else {
      QuietStep(w.log, node, step, w'.log, w'.nodes[d]);
    }
  }

  lemma MergeStepDerives(w: World, step: Step, w': World, id: ObjectId, u: PhraseState)
    requires WorldOk(w) && Next(w, step, w') && AboveLog(w.log, id, u) && step.Merge?
    requires OptBelow(Held(w.nodes[step.device].db, id), Some(u))
    requires forall s | CompletesState(w, step, step.device, id, s) :: Below(s, u)
    ensures OptBelow(Held(w'.nodes[step.device].db, id), Some(u))
  {
    var d := step.device;
    var node := w.nodes[d];
    assert NodeOk(w.log, d, node);
    var k := MergeEffect(w.log, d, node, step.physical, step.interrupted);
    var payload := w.log[k].envelope.payload;
    if !step.interrupted && payload.state.id == id {
      if id in node.db.phrases && node.db.phrases[id].crdt.id == NoObject
         && MergeBase(node.db, id, step.physical).1.Ok? {
        assert CompletesState(w, step, d, id, MergeBase(node.db, id, step.physical).1.value.crdt);
      }
      MergeWritesTheJoin(node.db, payload, step.physical, u);
    }
  }

  lemma BoundsShrink(t: Trace, n: nat, d: Bytes, id: ObjectId, u: PhraseState)
    requires IsRun(t) && n < |t.steps| && t.worlds[n].log <= t.worlds[n + 1].log && AboveAll(t, n + 1, d, id, u)
    ensures AboveAll(t, n, d, id, u)
    ensures forall s | Adds(t.worlds[n], t.steps[n], d, id, s) :: Below(s, u)
  {
    var log, log' := t.worlds[n].log, t.worlds[n + 1].log;
    forall i | 0 <= i < |log| && log[i].envelope.payload.state.id == id
      ensures Below(log[i].envelope.payload.state, u) {
      assert log'[i] == log[i];
    }
    forall s | Contributes(t, n, d, id, s) ensures Below(s, u) {
      assert Contributes(t, n + 1, d, id, s);
    }
    forall s | Adds(t.worlds[n], t.steps[n], d, id, s) ensures Below(s, u) {
      assert Contributes(t, n + 1, d, id, s);
    }
  }

  lemma DerivedNext(t: Trace, n: nat, d: Bytes, id: ObjectId, w: World, w': World)
    requires IsRun(t) && n < |t.steps| && w == t.worlds[n] && w' == t.worlds[n + 1] && Derived(t, n, d, id)
    ensures Derived(t, n + 1, d, id)
  {
    RunsKeepTheInvariant(t, n);
    var step := t.steps[n];
    assert Next(w, step, w');
    if d in w'.nodes && Held(w'.nodes[d].db, id).Some? {
      StepGrows(w, step, w', d);
      forall u | AboveAll(t, n + 1, d, id, u) ensures Below(Held(w'.nodes[d].db, id).value, u) {
        BoundsShrink(t, n, d, id, u);
        if d == step.device {
          OwnStepDerives(w, step, w', id, u);
        }
      }
    }
  }

  /** In every run, what a device holds follows from the log and its contributions. */
  lemma {:induction false} HeldStatesAreDerived(t: Trace, n: nat, d: Bytes, id: ObjectId)
    requires IsRun(t) && n < |t.worlds|
    ensures Derived(t, n, d, id)
  {
    if n == 0 {
      if d in t.worlds[0].nodes && Held(t.worlds[0].nodes[d].db, id).Some? {
        assert Contributes(t, 0, d, id, Held(t.worlds[0].nodes[d].db, id).value);
      }
    } else {
      HeldStatesAreDerived(t, n - 1, d, id);
      DerivedNext(t, n - 1, d, id, t.worlds[n - 1], t.worlds[n]);
    }
  }

  // --- Contributions stay ----------------------------------------------------

  lemma CompletedIsMerged(db: Database, payload: Payload, physical: int)
    requires DatabaseOk(db) && SoundPayload(payload)
    requires payload.state.id in db.phrases && MergeBase(db, payload.state.id, physical).1.Ok?
    ensures OptBelow(Some(MergeBase(db, payload.state.id, physical).1.value.crdt),
                     Held(MergeRemote(db, payload, physical).0, payload.state.id))
  {
    MergeRemoteLaw(db, payload, physical);
    MergedPayloadLaw(db, payload, physical);
    JoinIsLeastUpperBound(MergeBase(db, payload.state.id, physical).1.value.crdt, payload.state);
  }

  /** What a step adds, its device holds right after. */
  lemma AddedIsHeld(w: World, step: Step, w': World, d: Bytes, id: ObjectId, s: PhraseState)
    requires WorldOk(w) && Next(w, step, w') && Adds(w, step, d, id, s)
    ensures d in w'.nodes && OptBelow(Some(s), Held(w'.nodes[d].db, id))
  {
    var node := w.nodes[d];
    assert NodeOk(w.log, d, node);
    if WritesState(w, step, d, id, s) {
      MutationKeepsDatabase(node.db, step.mutation, step.physical);
      BelowReflexive(s);
    } else {
      var k := MergeEffect(w.log, d, node, step.physical, step.interrupted);
      CompletedIsMerged(node.db, w.log[k].envelope.payload, step.physical);
    }
  }

  lemma StaysHeld(t: Trace, k: nat, n: nat, d: Bytes, id: ObjectId, s: PhraseState)
    requires IsRun(t) && k <= n < |t.worlds| && d in t.worlds[k].nodes
    requires OptBelow(Some(s), Held(t.worlds[k].nodes[d].db, id))
    ensures d in t.worlds[n].nodes && OptBelow(Some(s), Held(t.worlds[n].nodes[d].db, id))
  {
    StoresOnlyGrow(t, k, n, d);
    var was, now := Held(t.worlds[k].nodes[d].db, id), Held(t.worlds[n].nodes[d].db, id);
    assert OptBelow(was, now);
    OptBelowTransitive(Some(s), was, now);
  }

  lemma AddedInRunIsHeld(t: Trace, k: nat, w: World, w': World, d: Bytes, id: ObjectId, s: PhraseState)
    requires IsRun(t) && k < |t.steps| && w == t.worlds[k] && w' == t.worlds[k + 1] && Adds(w, t.steps[k], d, id, s)
    ensures d in w'.nodes && OptBelow(Some(s), Held(w'.nodes[d].db, id))
  {
    RunsKeepTheInvariant(t, k);
    var step := t.steps[k];
    AddedIsHeld(w, step, w', d, id, s);
  }

  /** A contribution is contained in what its device holds ever after. */
  lemma ContributionsAreHeld(t: Trace, n: nat, d: Bytes, id: ObjectId, s: PhraseState)
    requires IsRun(t) && n < |t.worlds| && Contributes(t, n, d, id, s)
    ensures d in t.worlds[n].nodes && OptBelow(Some(s), Held(t.worlds[n].nodes[d].db, id))
  {
    if HeldAtFirst(t, d, id, s) {
      BelowReflexive(s);
      StaysHeld(t, 0, n, d, id, s);
    } else {
      var k :| 0 <= k < n && Adds(t.worlds[k], t.steps[k], d, id, s);
      AddedInRunIsHeld(t, k, t.worlds[k], t.worlds[k + 1], d, id, s);
      StaysHeld(t, k + 1, n, d, id, s);
    }
  }

  // --- Queued contributions reach the log ------------------------------------

  /** The last queued record of the object contains the state. */
  ghost predicate QueuedAbove(w: World, d: Bytes, id: ObjectId, s: PhraseState) {
    d in w.nodes && id in w.nodes[d].latest && Below(s, w.nodes[d].latest[id].crdt)
  }

  lemma QueuedAboveNext(w: World, step: Step, w': World, d: Bytes, id: ObjectId, s: PhraseState)
    requires WorldOk(w) && Next(w, step, w') && QueuedAbove(w, d, id, s)
    ensures QueuedAbove(w', d, id, s)
  {
    var node := w.nodes[d];
    assert NodeOk(w.log, d, node);
    if step.device == d && step.Mutate? && Queues(node.db, step.mutation, step.physical) &&
       Target(step.mutation) == id {
      assert QueuedOk(w.log, d, node.db, node.latest, id);
      MutationIsInflationary(node.db, step.mutation, step.physical);
      var written := Written(node.db, step.mutation, step.physical).crdt;
      OptBelowTransitive(Some(node.latest[id].crdt), Held(node.db, id), Some(written));
      BelowTransitive(s, node.latest[id].crdt, written);
    }
  }

  lemma QueuedAboveOn(t: Trace, n: nat, w: World, w': World, d: Bytes, id: ObjectId, s: PhraseState)
    requires IsRun(t) && n < |t.steps| && w == t.worlds[n] && w' == t.worlds[n + 1] && QueuedAbove(w, d, id, s)
    ensures QueuedAbove(w', d, id, s)
  {
    RunsKeepTheInvariant(t, n);
    var step := t.steps[n];
    QueuedAboveNext(w, step, w', d, id, s);
  }

  lemma {:induction false} QueuedStaysQueued(t: Trace, k: nat, n: nat, d: Bytes, id: ObjectId, s: PhraseState)
    requires IsRun(t) && k <= n < |t.worlds| && QueuedAbove(t.worlds[k], d, id, s)
    ensures QueuedAbove(t.worlds[n], d, id, s)
  {
    if k < n {
      QueuedStaysQueued(t, k, n - 1, d, id, s);
      QueuedAboveOn(t, n - 1, t.worlds[n - 1], t.worlds[n], d, id, s);
    }
  }

  /** Whatever a device held or added before it queued the object is contained in the
      record it queued. */
  lemma QueueingCatchesUp(t: Trace, k: nat, n: nat, d: Bytes, id: ObjectId, s: PhraseState, q: PhraseState)
    requires IsRun(t) && k < n < |t.worlds| && QueuesState(t.worlds[k], t.steps[k], d, id, q)
    requires Contributes(t, k, d, id, s) || s == q
    ensures QueuedAbove(t.worlds[n], d, id, s)
  {
    var w, step := t.worlds[k], t.steps[k];
    RunsKeepTheInvariant(t, k);
    assert Next(w, step, t.worlds[k + 1]);
    assert NodeOk(w.log, d, w.nodes[d]);
    BelowReflexive(q);
    if s != q {
      ContributionsAreHeld(t, k, d, id, s);
      MutationIsInflationary(w.nodes[d].db, step.mutation, step.physical);
      OptBelowTransitive(Some(s), Held(w.nodes[d].db, id), Some(q));
    }
    QueuedStaysQueued(t, k + 1, n, d, id, s);
  }

  /** With an empty outbox, what was queued is in the log. */
  lemma QueuedIsPublished(w: World, d: Bytes, id: ObjectId, s: PhraseState)
    requires WorldOk(w) && Quiescent(w) && QueuedAbove(w, d, id, s)
    ensures LogContains(w.log, id, s)
  {
    var node := w.nodes[d];
    assert NodeOk(w.log, d, node) && QueuedOk(w.log, d, node.db, node.latest, id);
    var i :| 0 <= i < |w.log| && w.log[i].device == d && w.log[i].envelope.payload == PayloadOf(node.latest[id]);
    forall u | AboveLog(w.log, id, u) ensures Below(s, u) {
      BelowTransitive(s, w.log[i].envelope.payload.state, u);
    }
  }

  // --- Convergence -----------------------------------------------------------

  /** Every contribution that was not queued is contained in the relay's records. */
  ghost predicate Published(t: Trace, n: nat, id: ObjectId)
    requires n < |t.worlds| == |t.steps| + 1
  {
    forall d, s | Unqueued(t, n, d, id, s) :: LogContains(t.worlds[n].log, id, s)
  }

  lemma ContributionIsPublished(t: Trace, n: nat, d: Bytes, id: ObjectId, s: PhraseState)
    requires IsRun(t) && n < |t.worlds| && Quiescent(t.worlds[n]) && Published(t, n, id) && Contributes(t, n, d, id, s)
    ensures LogContains(t.worlds[n].log, id, s)
  {
    if !Unqueued(t, n, d, id, s) {
      var k :| 0 <= k < n && Adds(t.worlds[k], t.steps[k], d, id, s);
      assert QueuesState(t.worlds[k], t.steps[k], d, id, s);
      QueueingCatchesUp(t, k, n, d, id, s, s);
      RunsKeepTheInvariant(t, n);
      QueuedIsPublished(t.worlds[n], d, id, s);
    }
  }

  lemma PublishedDeviceHoldsTheJoin(t: Trace, n: nat, d: Bytes, id: ObjectId)
    requires IsRun(t) && n < |t.worlds| && Quiescent(t.worlds[n]) && Published(t, n, id) && d in t.worlds[n].nodes
    ensures IsLogJoin(t.worlds[n].log, id, Held(t.worlds[n].nodes[d].db, id))
  {
    var w := t.worlds[n];
    RunsKeepTheInvariant(t, n);
    ReadEverything(w, d, id);
    HeldStatesAreDerived(t, n, d, id);
    forall u | AboveLog(w.log, id, u) ensures AboveAll(t, n, d, id, u) {
      forall s | Contributes(t, n, d, id, s) ensures Below(s, u) {
        ContributionIsPublished(t, n, d, id, s);
      }
    }
  }

  lemma ConvergedIsPublished(t: Trace, n: nat, d: Bytes, id: ObjectId, s: PhraseState)
    requires IsRun(t) && n < |t.worlds| && Converged(t.worlds[n], id) && Unqueued(t, n, d, id, s)
    ensures LogContains(t.worlds[n].log, id, s)
  {
    assert Contributes(t, n, d, id, s);
    ContributionsAreHeld(t, n, d, id, s);
    var h := Held(t.worlds[n].nodes[d].db, id);
    assert IsLogJoin(t.worlds[n].log, id, h);
    forall u | AboveLog(t.worlds[n].log, id, u) ensures Below(s, u) {
      BelowTransitive(s, h.value, u);
    }
  }

  /** In every run and for every object, held before or not: whenever all outboxes are
      empty and all cursors are at the end, every device holds exactly the join of the
      relay's records if and only if these contain every state that a device held
      before the run, wrote or completed without queueing it. */
  lemma EveryObjectConvergesIffPublished(t: Trace, n: nat, id: ObjectId)
    requires IsRun(t) && n < |t.worlds| && Quiescent(t.worlds[n])
    ensures Converged(t.worlds[n], id) <==> Published(t, n, id)
  {
    if Published(t, n, id) {
      forall d | d in t.worlds[n].nodes ensures IsLogJoin(t.worlds[n].log, id, Held(t.worlds[n].nodes[d].db, id)) {
        PublishedDeviceHoldsTheJoin(t, n, d, id);
      }
    }
    if Converged(t.worlds[n], id) {
      forall d, s | Unqueued(t, n, d, id, s) ensures LogContains(t.worlds[n].log, id, s) {
        ConvergedIsPublished(t, n, d, id, s);
      }
    }
  }

  /** The device queued the object after it last added to it. */
  ghost predicate QueuedLast(t: Trace, n: nat, d: Bytes, id: ObjectId)
    requires n < |t.worlds| == |t.steps| + 1
  {
    exists k, q | 0 <= k < n ::
      && QueuesState(t.worlds[k], t.steps[k], d, id, q)
      && forall s | Contributes(t, n, d, id, s) :: Contributes(t, k, d, id, s) || s == q
  }

  /** When every device that held or added to an object queued it afterwards, the
      devices agree on it, and the common state contains all they held at first. */
  lemma QueuedObjectsConverge(t: Trace, n: nat, id: ObjectId)
    requires IsRun(t) && n < |t.worlds| && Quiescent(t.worlds[n])
    requires forall d, s | Contributes(t, n, d, id, s) :: QueuedLast(t, n, d, id)
    ensures Converged(t.worlds[n], id)
    ensures forall d, s | HeldAtFirst(t, d, id, s) :: LogContains(t.worlds[n].log, id, s)
  {
    RunsKeepTheInvariant(t, n);
    forall d, s | Unqueued(t, n, d, id, s) ensures LogContains(t.worlds[n].log, id, s) {
      assert Contributes(t, n, d, id, s);
      var k, q :| 0 <= k < n && QueuesState(t.worlds[k], t.steps[k], d, id, q)
                  && forall c | Contributes(t, n, d, id, c) :: Contributes(t, k, d, id, c) || c == q;
      QueueingCatchesUp(t, k, n, d, id, s, q);
      QueuedIsPublished(t.worlds[n], d, id, s);
    }
    EveryObjectConvergesIffPublished(t, n, id);
    forall d, s | HeldAtFirst(t, d, id, s) ensures LogContains(t.worlds[n].log, id, s) {
      assert Unqueued(t, n, d, id, s);
    }
  }
}
