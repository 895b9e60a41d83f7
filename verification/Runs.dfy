/** The safety theorems of the sync protocol, over every run: any number of
    devices, local edits at any moment, lost answers, retries and crashes between
    any two transactions. */
module Runs {
  import opened Order
  import opened Wrappers
  import opened Crdt
  import opened Wire
  import opened Device
  import opened DeviceLaws
  import opened Relay
  import opened Client
  import opened Protocol
  import opened ProtocolLaws

  // --- The invariant ---------------------------------------------------------

  lemma InitKeeps(w: World)
    requires Init(w)
    ensures WorldOk(w)
  {
    assert forall d :: Chain(w.log, d) == [];
    forall d | d in w.nodes ensures NodeOk(w.log, d, w.nodes[d]) {
      var node := w.nodes[d];
      assert InitNode(d, node);
      forall id ensures QueuedOk(w.log, d, node.db, node.latest, id) {
      }
    }
  }

  lemma StepKeepsNode(log: seq<Record>, node: Node, step: Step, log': seq<Record>, node': Node)
    requires LogSound(log) && NodeOk(log, step.device, node) && NodeStep(log, node, step, log', node')
    ensures LogSound(log') && NodeOk(log', step.device, node') && log <= log'
    ensures forall i | |log| <= i < |log'| :: log'[i].device == step.device
  {
    var d := step.device;
    match step
    case Mutate(_, m, physical) => MutateKeeps(log, d, node, m, physical);
    case Tick(_, physical) => TickStepKeeps(log, d, node, physical);
    case Load(_) =>
    case Seal(_, id, nonce, size) => SealKeeps(log, d, node, id, nonce, size);
    case Stage(_) => StageKeeps(log, d, node);
    case Exchange(_, response, delivered) => ExchangeKeeps(log, d, node, log', response, delivered);
    case Merge(_, physical, interrupted) => MergeKeeps(log, d, node, physical, interrupted);
    case Commit(_) => CommitKeeps(log, d, node);
    case Advance(_) => AdvanceKeeps(log, d, node);
    case Crash(_) =>
  }

  lemma StepKeeps(w: World, step: Step, w': World)
    requires WorldOk(w) && Next(w, step, w')
    ensures WorldOk(w')
  {
    var d := step.device;
    assert NodeOk(w.log, d, w.nodes[d]);
    StepKeepsNode(w.log, w.nodes[d], step, w'.log, w'.nodes[d]);
    forall e | e in w'.nodes ensures NodeOk(w'.log, e, w'.nodes[e]) {
      if e != d {
        assert NodeOk(w.log, e, w.nodes[e]);
        ChainOfOthers(w.log, w'.log, d, e);
        LogGrowthKeeps(w.log, w'.log, e, w.nodes[e]);
      }
    }
  }

  lemma {:induction false} RunsKeepTheInvariant(t: Trace, i: nat)
    requires IsRun(t) && i < |t.worlds|
    ensures WorldOk(t.worlds[i])
  {
    if i == 0 {
      InitKeeps(t.worlds[0]);
    } else {
      RunsKeepTheInvariant(t, i - 1);
      assert Next(t.worlds[i - 1], t.steps[i - 1], t.worlds[i]);
      StepKeeps(t.worlds[i - 1], t.steps[i - 1], t.worlds[i]);
    }
  }

  /** The device's chain on the relay: its sequences are 1..n, each stored once
      and naming its predecessor, and n is the sequence before the checkpoint's
      next one or, when the answer to the staged upload was lost, that next one. */
  lemma ChainLockstep(t: Trace, i: nat, d: Bytes)
    requires IsRun(t) && i < |t.worlds| && d in t.worlds[i].nodes
    ensures var db := t.worlds[i].nodes[d].db;
            var chain := Chain(t.worlds[i].log, d);
            && (forall k | 0 <= k < |chain| :: chain[k].sequence == k + 1)
            && ((|chain| == db.nextSequence - 1 && HeadHash(d, chain) == db.previous)
                || (db.prepared.Some? && |chain| == db.nextSequence
                    && HeadHash(d, chain) == RecordHash(d, db.prepared.value.envelope)))
  {
    RunsKeepTheInvariant(t, i);
    var log := t.worlds[i].log;
    assert NodeOk(log, d, t.worlds[i].nodes[d]) && Linked(d, Chain(log, d));
    forall k | 0 <= k < |Chain(log, d)| ensures Chain(log, d)[k].sequence == k + 1 {
      LinkedAt(d, Chain(log, d), k);
    }
  }

  /** No request of any run is refused: the staged upload is acknowledged, the
      page passes the worker's checks, and the log gains at most that upload. */
  lemma RelayNeverRejects(t: Trace, i: nat)
    requires IsRun(t) && i < |t.steps| && t.steps[i].Exchange?
    ensures t.steps[i].device in t.worlds[i].nodes && t.steps[i].device in t.worlds[i + 1].nodes
    ensures var step, node := t.steps[i], t.worlds[i].nodes[t.steps[i].device];
            && Acknowledges(node.db.prepared, step.response) && InOrder(node.db.cursor, step.response)
            && |t.worlds[i + 1].log| <= |t.worlds[i].log| + 1
            && (step.delivered ==> t.worlds[i + 1].nodes[step.device].pc.Merging?)
  {
    RunsKeepTheInvariant(t, i);
    var w, step := t.worlds[i], t.steps[i];
    assert Next(w, step, t.worlds[i + 1]);
    assert NodeOk(w.log, step.device, w.nodes[step.device]);
    HonestRelayAccepts(w.log, step.device, w.nodes[step.device].db, t.worlds[i + 1].log, step.response);
  }

  /** Every record at or below a device's cursor is contained in its store, also
      after a crash between merging, committing and advancing. */
  lemma CursorSafety(t: Trace, i: nat, d: Bytes, r: Record)
    requires IsRun(t) && i < |t.worlds| && d in t.worlds[i].nodes
    requires r in t.worlds[i].log && r.cursor <= t.worlds[i].nodes[d].db.cursor
    ensures OptBelow(Some(r.envelope.payload.state), Held(t.worlds[i].nodes[d].db, r.envelope.payload.state.id))
  {
    RunsKeepTheInvariant(t, i);
    var w := t.worlds[i];
    assert NodeOk(w.log, d, w.nodes[d]);
    var k :| 0 <= k < |w.log| && w.log[k] == r;
  }

  /** The last queued record of every object is waiting in the outbox or stored
      on the relay. */
  lemma NoLostUpdate(t: Trace, i: nat, d: Bytes, id: ObjectId)
    requires IsRun(t) && i < |t.worlds| && d in t.worlds[i].nodes && id in t.worlds[i].nodes[d].latest
    ensures var node := t.worlds[i].nodes[d];
            || (id in node.db.outbox && node.db.outbox[id].phrase == node.latest[id])
            || InLog(t.worlds[i].log, d, PayloadOf(node.latest[id]))
  {
    RunsKeepTheInvariant(t, i);
    var w := t.worlds[i];
    assert NodeOk(w.log, d, w.nodes[d]);
    assert QueuedOk(w.log, d, w.nodes[d].db, w.nodes[d].latest, id);
  }

  // --- Growth ----------------------------------------------------------------

  lemma SameTablesGrown(db: Database, after: Database)
    requires after.phrases == db.phrases
    ensures Grown(db, after)
  {
    forall o ensures OptBelow(Held(db, o), Held(after, o)) {
      OptBelowReflexive(Held(db, o));
      assert Held(after, o) == Held(db, o);
    }
  }

  lemma StepGrowsNode(log: seq<Record>, node: Node, step: Step, log': seq<Record>, node': Node)
    requires LogSound(log) && NodeOk(log, step.device, node) && NodeStep(log, node, step, log', node')
    ensures Grown(node.db, node'.db)
  {
    match step
    case Mutate(_, m, physical) => MutationKeepsDatabase(node.db, m, physical);
    case Merge(_, physical, interrupted) => MergeKeeps(log, step.device, node, physical, interrupted);
    case _ => SameTablesGrown(node.db, node'.db);
  }

  lemma GrownTransitive(a: Database, b: Database, c: Database)
    requires Grown(a, b) && Grown(b, c)
    ensures Grown(a, c)
  {
    forall o ensures OptBelow(Held(a, o), Held(c, o)) {
      assert OptBelow(Held(a, o), Held(b, o)) && OptBelow(Held(b, o), Held(c, o));
      OptBelowTransitive(Held(a, o), Held(b, o), Held(c, o));
    }
  }

  lemma StepGrows(w: World, step: Step, w': World, d: Bytes)
    requires WorldOk(w) && Next(w, step, w') && d in w.nodes
    ensures d in w'.nodes && w.log <= w'.log && Grown(w.nodes[d].db, w'.nodes[d].db)
  {
    var e := step.device;
    assert NodeOk(w.log, e, w.nodes[e]);
    StepKeepsNode(w.log, w.nodes[e], step, w'.log, w'.nodes[e]);
    if d == e {
      StepGrowsNode(w.log, w.nodes[e], step, w'.log, w'.nodes[e]);
    } else {
      SameTablesGrown(w.nodes[d].db, w'.nodes[d].db);
    }
  }

  /** Stores only move up in the information order, whatever happens. */
  lemma {:induction false} StoresOnlyGrow(t: Trace, i: nat, j: nat, d: Bytes)
    requires IsRun(t) && i <= j < |t.worlds| && d in t.worlds[i].nodes
    ensures d in t.worlds[j].nodes && t.worlds[i].log <= t.worlds[j].log
    ensures Grown(t.worlds[i].nodes[d].db, t.worlds[j].nodes[d].db)
  {
    if i == j {
      SameTablesGrown(t.worlds[i].nodes[d].db, t.worlds[j].nodes[d].db);
    } else {
      StoresOnlyGrow(t, i, j - 1, d);
      RunsKeepTheInvariant(t, j - 1);
      assert Next(t.worlds[j - 1], t.steps[j - 1], t.worlds[j]);
      StepGrows(t.worlds[j - 1], t.steps[j - 1], t.worlds[j], d);
      GrownTransitive(t.worlds[i].nodes[d].db, t.worlds[j - 1].nodes[d].db, t.worlds[j].nodes[d].db);
    }
  }

  /** Remove-wins: a device that holds a generation-g tombstone never again shows
      the phrase at generation g or below. */
  lemma RemoveWins(t: Trace, i: nat, j: nat, d: Bytes, id: ObjectId)
    requires IsRun(t) && i <= j < |t.worlds| && d in t.worlds[i].nodes
    requires Held(t.worlds[i].nodes[d].db, id).Some? && !Held(t.worlds[i].nodes[d].db, id).value.presence.present
    ensures d in t.worlds[j].nodes && Held(t.worlds[j].nodes[d].db, id).Some?
    ensures var was := Held(t.worlds[i].nodes[d].db, id).value.presence;
            var now := Held(t.worlds[j].nodes[d].db, id).value.presence;
            now.generation > was.generation || (now.generation == was.generation && !now.present)
  {
    StoresOnlyGrow(t, i, j, d);
    assert OptBelow(Held(t.worlds[i].nodes[d].db, id), Held(t.worlds[j].nodes[d].db, id));
    TombstoneDominates(Held(t.worlds[i].nodes[d].db, id).value, Held(t.worlds[j].nodes[d].db, id).value);
  }

  // --- Generations -----------------------------------------------------------

  ghost predicate HeldUpTo(db: Database, id: ObjectId, g: nat) {
    Held(db, id).Some? ==> Held(db, id).value.presence.generation <= g
  }

  ghost predicate RecordUpTo(r: Record, id: ObjectId, g: nat) {
    r.envelope.payload.state.id == id ==> r.envelope.payload.state.presence.generation <= g
  }

  /** No state of an object, on any device or on the relay, is past a generation. */
  ghost predicate GenerationBound(w: World, id: ObjectId, g: nat) {
    && (forall d <- w.nodes :: HeldUpTo(w.nodes[d].db, id, g))
    && (forall i | 0 <= i < |w.log| :: RecordUpTo(w.log[i], id, g))
  }

  /** The step is an explicit save of the object that writes it, present, at a generation. */
  ghost predicate SavesAt(w: World, step: Step, id: ObjectId, g: nat) {
    && step.Mutate? && step.mutation.Save? && Target(step.mutation) == id && step.device in w.nodes
    && Writes(w.nodes[step.device].db, step.mutation, step.physical)
    && var p := Written(w.nodes[step.device].db, step.mutation, step.physical);
       p.crdt.presence.present && p.crdt.presence.generation == g
  }

  /** Selecting and deleting never raise a generation past the first. */
  lemma OnlySavesRaiseGenerations(db: Database, m: Mutation, physical: int, g: nat)
    requires DatabaseOk(db) && Callable(m) && !m.Save? && Writes(db, m, physical)
    requires 1 <= g && HeldUpTo(db, Target(m), g)
    ensures Written(db, m, physical).crdt.presence.generation <= g
  {
  }

  lemma MergeKeepsGeneration(db: Database, payload: Payload, physical: int, g: nat)
    requires DatabaseOk(db) && SoundPayload(payload)
    requires 1 <= g && HeldUpTo(db, payload.state.id, g) && payload.state.presence.generation <= g
    ensures HeldUpTo(MergeRemote(db, payload, physical).0, payload.state.id, g)
  {
    MergeRemoteLaw(db, payload, physical);
  }

  /** A save raises the generation by at most one, and only to show the phrase. */
  lemma SavesRaiseByOne(db: Database, m: Mutation, physical: int, g: nat)
    requires DatabaseOk(db) && m.Save? && Writes(db, m, physical) && 1 <= g && HeldUpTo(db, Target(m), g)
    ensures var presence := Written(db, m, physical).crdt.presence;
            presence.present && presence.generation <= g + 1
  {
    SaveExplicitAdvances(db, m.phrase, physical);
  }

  lemma MutationKeepsHeldBound(db: Database, m: Mutation, physical: int, id: ObjectId, g: nat)
    requires DatabaseOk(db) && Callable(m) && 1 <= g && HeldUpTo(db, id, g)
    requires m.Save? && Target(m) == id && Writes(db, m, physical) ==>
               Written(db, m, physical).crdt.presence.generation <= g
    ensures HeldUpTo(Mutated(db, m, physical), id, g)
  {
    MutationKeepsDatabase(db, m, physical);
    if Writes(db, m, physical) && Target(m) == id && !m.Save? {
      OnlySavesRaiseGenerations(db, m, physical, g);
    }
  }

  lemma StepKeepsHeldBound(log: seq<Record>, node: Node, step: Step, log': seq<Record>, node': Node,
                           id: ObjectId, g: nat)
    requires LogSound(log) && NodeOk(log, step.device, node) && NodeStep(log, node, step, log', node')
    requires 1 <= g && HeldUpTo(node.db, id, g) && (forall i | 0 <= i < |log| :: RecordUpTo(log[i], id, g))
    requires step.Mutate? && step.mutation.Save? && Target(step.mutation) == id
             && Writes(node.db, step.mutation, step.physical) ==>
               Written(node.db, step.mutation, step.physical).crdt.presence.generation <= g
    ensures HeldUpTo(node'.db, id, g)
  {
    if step.Mutate? {
      MutationKeepsHeldBound(node.db, step.mutation, step.physical, id, g);
    } else if step.Merge? {
      var k := MergeEffect(log, step.device, node, step.physical, step.interrupted);
      assert RecordUpTo(log[k], id, g);
      if !step.interrupted && log[k].envelope.payload.state.id == id {
        MergeKeepsGeneration(node.db, log[k].envelope.payload, step.physical, g);
      }
    } else {
      QuietStep(log, node, step, log', node');
    }
  }

  lemma UploadUpTo(db: Database, u: Prepared, id: ObjectId, g: nat)
    requires DatabaseOk(db) && UploadOk(db, u) && HeldUpTo(db, id, g)
    ensures u.envelope.payload.state.id == id ==> u.envelope.payload.state.presence.generation <= g
  {
    var o := u.envelope.payload.state.id;
    assert RowOk(db, o, db.outbox[o]);
  }

  /** A bound on the generations of an object breaks only by a save one above it. */
  lemma StepKeepsGenerationBound(w: World, step: Step, w': World, id: ObjectId, g: nat)
    requires WorldOk(w) && Next(w, step, w') && 1 <= g && GenerationBound(w, id, g)
    ensures GenerationBound(w', id, g) || SavesAt(w, step, id, g + 1)
  {
    StepKeepsRecordBound(w, step, w', id, g);
    if !SavesAt(w, step, id, g + 1) {
      forall e | e in w'.nodes ensures HeldUpTo(w'.nodes[e].db, id, g) {
        assert HeldUpTo(w.nodes[e].db, id, g);
        if e == step.device {
          OwnStepKeepsHeldBound(w, step, w', id, g);
        }
      }
    }
  }

  lemma OwnStepKeepsHeldBound(w: World, step: Step, w': World, id: ObjectId, g: nat)
    requires WorldOk(w) && Next(w, step, w') && 1 <= g && GenerationBound(w, id, g) && !SavesAt(w, step, id, g + 1)
    ensures HeldUpTo(w'.nodes[step.device].db, id, g)
  {
    var node := w.nodes[step.device];
    assert NodeOk(w.log, step.device, node) && HeldUpTo(node.db, id, g);
    SaveStaysInBound(w, step, id, g);
    StepKeepsHeldBound(w.log, node, step, w'.log, w'.nodes[step.device], id, g);
  }

  lemma SaveStaysInBound(w: World, step: Step, id: ObjectId, g: nat)
    requires step.device in w.nodes && DatabaseOk(w.nodes[step.device].db) && 1 <= g
    requires HeldUpTo(w.nodes[step.device].db, id, g) && !SavesAt(w, step, id, g + 1)
    ensures var db := w.nodes[step.device].db;
            step.Mutate? && step.mutation.Save? && Target(step.mutation) == id
            && Writes(db, step.mutation, step.physical) ==>
              Written(db, step.mutation, step.physical).crdt.presence.generation <= g
  {
    var db := w.nodes[step.device].db;
    if step.Mutate? && step.mutation.Save? && Target(step.mutation) == id
       && Writes(db, step.mutation, step.physical) {
      SavesRaiseByOne(db, step.mutation, step.physical, g);
    }
  }

  lemma StepKeepsRecordBound(w: World, step: Step, w': World, id: ObjectId, g: nat)
    requires WorldOk(w) && Next(w, step, w') && 1 <= g && GenerationBound(w, id, g)
    ensures forall i | 0 <= i < |w'.log| :: RecordUpTo(w'.log[i], id, g)
  {
    var d := step.device;
    var node := w.nodes[d];
    assert NodeOk(w.log, d, node) && HeldUpTo(node.db, id, g);
    if step.Exchange? {
      ExchangeKeeps(w.log, d, node, w'.log, step.response, step.delivered);
      if node.db.prepared.Some? {
        UploadUpTo(node.db, node.db.prepared.value, id, g);
      }
      forall i | 0 <= i < |w'.log| ensures RecordUpTo(w'.log[i], id, g) {
        if i < |w.log| { assert w'.log[i] == w.log[i]; }
      }
    }
  }

  lemma NextKeepsGenerationBound(t: Trace, k: nat, w: World, w': World, id: ObjectId, g: nat)
    requires IsRun(t) && k < |t.steps| && w == t.worlds[k] && w' == t.worlds[k + 1]
    requires 1 <= g && GenerationBound(w, id, g)
    ensures GenerationBound(w', id, g) || SavesAt(w, t.steps[k], id, g + 1)
  {
    RunsKeepTheInvariant(t, k);
    var step := t.steps[k];
    StepKeepsGenerationBound(w, step, w', id, g);
  }

  /** Whenever an object is anywhere past a generation that bounded it at first, an
      earlier save wrote it one generation above that bound. */
  lemma {:induction false} GenerationsComeFromSaves(t: Trace, j: nat, id: ObjectId, g: nat) returns (k: nat)
    requires IsRun(t) && j < |t.worlds| && 1 <= g
    requires GenerationBound(t.worlds[0], id, g) && !GenerationBound(t.worlds[j], id, g)
    ensures k < j && SavesAt(t.worlds[k], t.steps[k], id, g + 1)
  {
    if GenerationBound(t.worlds[j - 1], id, g) {
      k := j - 1;
      NextKeepsGenerationBound(t, k, t.worlds[k], t.worlds[j], id, g);
    } else {
      k := GenerationsComeFromSaves(t, j - 1, id, g);
    }
  }

  /** A removed phrase comes back only at a strictly larger generation, and only
      through an explicit save that wrote exactly that generation somewhere, unless
      a store already held such a generation before the run. Nothing is asked of the
      run in between: the save may be on any device, before or after the tombstone
      was taken in, and still be on its way. */
  lemma OnlyAnExplicitSaveBringsAPhraseBack(t: Trace, i: nat, j: nat, d: Bytes, id: ObjectId)
    requires IsRun(t) && i <= j < |t.worlds| && d in t.worlds[i].nodes && d in t.worlds[j].nodes
    requires Held(t.worlds[i].nodes[d].db, id).Some? && !Held(t.worlds[i].nodes[d].db, id).value.presence.present
    requires Held(t.worlds[j].nodes[d].db, id).Some? && Held(t.worlds[j].nodes[d].db, id).value.presence.present
    ensures var was := Held(t.worlds[i].nodes[d].db, id).value.presence.generation;
            var now := Held(t.worlds[j].nodes[d].db, id).value.presence.generation;
            && was < now
            && ((exists e <- t.worlds[0].nodes :: !HeldUpTo(t.worlds[0].nodes[e].db, id, now - 1))
                || exists k | 0 <= k < j :: SavesAt(t.worlds[k], t.steps[k], id, now))
  {
    var now := Held(t.worlds[j].nodes[d].db, id).value.presence.generation;
    RemoveWins(t, i, j, d, id);
    RunsKeepTheInvariant(t, i);
    assert NodeOk(t.worlds[i].log, d, t.worlds[i].nodes[d]);
    if forall e <- t.worlds[0].nodes :: HeldUpTo(t.worlds[0].nodes[e].db, id, now - 1) {
      assert GenerationBound(t.worlds[0], id, now - 1);
      assert !HeldUpTo(t.worlds[j].nodes[d].db, id, now - 1);
      var k := GenerationsComeFromSaves(t, j, id, now - 1);
    }
  }

  // --- Clocks ----------------------------------------------------------------

  /** The persisted clock reading of a store. */
  ghost predicate NotBefore(after: Database, db: Database) {
    db.wall < after.wall || (db.wall == after.wall && db.counter <= after.counter)
  }

  lemma StepKeepsClock(log: seq<Record>, node: Node, step: Step, log': seq<Record>, node': Node)
    requires LogSound(log) && NodeOk(log, step.device, node) && NodeStep(log, node, step, log', node')
    ensures NotBefore(node'.db, node.db)
    ensures step.Mutate? && Target(step.mutation) != NoObject ==>
              var clock := NextClock(node.db, step.physical).1;
              Covers(node'.db.wall, node'.db.counter, clock)
  {
    match step
    case Mutate(_, m, physical) => MutationKeepsClock(node.db, m, physical);
    case Merge(_, physical, interrupted) =>
      var payload := node.pc.page[node.pc.merged].envelope.payload;
      MergeKeepsClock(node.db, payload, physical);
    case _ =>
  }

  lemma MutationKeepsClock(db: Database, m: Mutation, physical: int)
    requires DatabaseOk(db) && Callable(m)
    ensures NotBefore(Mutated(db, m, physical), db)
    ensures Target(m) != NoObject ==>
              var after := Mutated(db, m, physical); Covers(after.wall, after.counter, NextClock(db, physical).1)
  {
    MutationIsInflationary(db, m, physical);
  }

  lemma MergeKeepsClock(db: Database, payload: Payload, physical: int)
    ensures NotBefore(MergeObserved(db, payload, physical), db) && NotBefore(MergeRemote(db, payload, physical).0, db)
  {
    assert NotBefore(MergeTicked(db, payload, physical), db);
  }

  /** The clock a mutation step stamps its writes with. */
  ghost function IssuedClock(w: World, step: Step): Hlc
    requires step.Mutate? && step.device in w.nodes
  {
    NextClock(w.nodes[step.device].db, step.physical).1
  }

  lemma StepKeepsClocks(w: World, step: Step, w': World, d: Bytes)
    requires WorldOk(w) && Next(w, step, w') && d in w.nodes
    ensures d in w'.nodes && NotBefore(w'.nodes[d].db, w.nodes[d].db)
  {
    assert NodeOk(w.log, step.device, w.nodes[step.device]);
    StepKeepsClock(w.log, w.nodes[step.device], step, w'.log, w'.nodes[step.device]);
  }

  lemma {:induction false} ClocksNeverTurnBack(t: Trace, i: nat, j: nat, d: Bytes)
    requires IsRun(t) && i <= j < |t.worlds| && d in t.worlds[i].nodes
    ensures d in t.worlds[j].nodes && NotBefore(t.worlds[j].nodes[d].db, t.worlds[i].nodes[d].db)
  {
    if i < j {
      ClocksNeverTurnBack(t, i, j - 1, d);
      RunsKeepTheInvariant(t, j - 1);
      assert Next(t.worlds[j - 1], t.steps[j - 1], t.worlds[j]);
      StepKeepsClocks(t.worlds[j - 1], t.steps[j - 1], t.worlds[j], d);
    }
  }

  /** The clock of a mutation is later than every clock its store holds and than
      every clock the device issued before, however the wall clock jumps. */
  lemma IssuedClocksIncrease(t: Trace, i: nat, j: nat)
    requires IsRun(t) && i < j < |t.steps| && t.steps[i].Mutate? && t.steps[j].Mutate?
    requires t.steps[i].device == t.steps[j].device && Target(t.steps[i].mutation) != NoObject
    ensures t.steps[i].device in t.worlds[i].nodes && t.steps[j].device in t.worlds[j].nodes
    ensures HlcCompare(IssuedClock(t.worlds[i], t.steps[i]), IssuedClock(t.worlds[j], t.steps[j])) < 0
    ensures forall id :: Held(t.worlds[j].nodes[t.steps[j].device].db, id).Some? ==>
              var s := Held(t.worlds[j].nodes[t.steps[j].device].db, id).value;
              && HlcCompare(s.pinned.clock, IssuedClock(t.worlds[j], t.steps[j])) < 0
              && HlcCompare(s.presence.clock, IssuedClock(t.worlds[j], t.steps[j])) < 0
  {
    var d := t.steps[i].device;
    RunsKeepTheInvariant(t, i);
    RunsKeepTheInvariant(t, j);
    assert Next(t.worlds[i], t.steps[i], t.worlds[i + 1]) && Next(t.worlds[j], t.steps[j], t.worlds[j + 1]);
    var w := t.worlds[i];
    assert NodeOk(w.log, d, w.nodes[d]) && NodeOk(t.worlds[j].log, d, t.worlds[j].nodes[d]);
    StepKeepsClock(w.log, w.nodes[d], t.steps[i], t.worlds[i + 1].log, t.worlds[i + 1].nodes[d]);
    ClocksNeverTurnBack(t, i + 1, j, d);
    var db := t.worlds[j].nodes[d].db;
    IssuedClockIsLater(db, t.steps[j].physical, IssuedClock(w, t.steps[i]));
    forall id | Held(db, id).Some?
      ensures HlcCompare(Held(db, id).value.pinned.clock, IssuedClock(t.worlds[j], t.steps[j])) < 0
              && HlcCompare(Held(db, id).value.presence.clock, IssuedClock(t.worlds[j], t.steps[j])) < 0
    {
      assert RecordOk(db.wall, db.counter, id, db.phrases[id]);
      IssuedClockIsLater(db, t.steps[j].physical, Held(db, id).value.pinned.clock);
      IssuedClockIsLater(db, t.steps[j].physical, Held(db, id).value.presence.clock);
    }
  }
}
