/** What the worker achieves when nobody interferes: two passes of `SyncUntilIdle`
    over all devices reach a quiet world, and a queued record that is too large to
    seal keeps its device from ever syncing again. */
module Liveness {
  import opened Order
  import opened Crdt
  import opened Wire
  import opened Device
  import opened DeviceLaws
  import opened Relay
  import opened Protocol
  import opened ProtocolLaws
  import opened Runs
  import opened Convergence
  import opened Contributions
  import opened Worker

  // --- A device at work ------------------------------------------------------

  /** One successful `SyncUntilIdle` of one device, as its contract describes it. */
  ghost predicate Drains(w: World, d: Bytes, w': World) {
    && d in w.nodes && d in w'.nodes && w'.nodes == w.nodes[d := w'.nodes[d]]
    && w.nodes[d].pc.Idle? && (exists run :: Connects(run, d, w.log, w.nodes[d], w'.log, w'.nodes[d]))
    && Clean(w'.nodes[d]) && Remaining(w'.log, w'.nodes[d].db.cursor) == 0
  }

  /** Nothing queued, nothing staged, no round in progress. */
  ghost predicate Clean(node: Node) {
    node.pc.Idle? && node.db.outbox == map[] && node.db.prepared.None?
  }

  ghost function Last(t: Trace): World
    requires |t.worlds| > 0
  {
    t.worlds[|t.worlds| - 1]
  }

  /** `u` continues the run `t` by steps of workers only. */
  ghost predicate Continues(t: Trace, u: Trace) {
    && IsRun(u) && t.worlds <= u.worlds && t.steps <= u.steps
    && forall k {:trigger u.steps[k]} | |t.steps| <= k < |u.steps| :: Works(u.steps[k], u.steps[k].device)
  }

  ghost function Shortened(run: NodeRun): NodeRun
    requires run.steps != [] && |run.logs| == |run.nodes| == |run.steps| + 1
  {
    var n := |run.steps|;
    NodeRun(run.logs[..n], run.nodes[..n], run.steps[..n - 1])
  }

  /** All but the last step of a worker's run. */
  lemma ShortenedConnects(run: NodeRun, d: Bytes, log: seq<Record>, node: Node, log': seq<Record>, node': Node)
    requires Connects(run, d, log, node, log', node') && run.steps != []
    ensures var n := |run.steps|;
            && Connects(Shortened(run), d, log, node, run.logs[n - 1], run.nodes[n - 1])
            && Works(run.steps[n - 1], d)
            && NodeStep(run.logs[n - 1], run.nodes[n - 1], run.steps[n - 1], log', node')
  {
    var short := Shortened(run);
    forall i | 0 <= i < |short.steps|
      ensures Works(short.steps[i], d)
              && NodeStep(short.logs[i], short.nodes[i], short.steps[i], short.logs[i + 1], short.nodes[i + 1])
    {
      assert short.steps[i] == run.steps[i];
    }
    assert run.steps[|run.steps| - 1] in run.steps;
  }

  /** A worker's run continues a run of the whole system. */
  lemma {:induction false} Lifted(t: Trace, run: NodeRun, d: Bytes, log': seq<Record>, node': Node) returns (u: Trace)
    requires IsRun(t) && d in Last(t).nodes && Connects(run, d, Last(t).log, Last(t).nodes[d], log', node')
    ensures Continues(t, u) && Last(u) == World(log', Last(t).nodes[d := node'])
    decreases |run.steps|
  {
    var n := |run.steps|;
    if n == 0 {
      u := t;
      assert Last(t).nodes[d := node'] == Last(t).nodes;
    } else {
      ShortenedConnects(run, d, Last(t).log, Last(t).nodes[d], log', node');
      var v := Lifted(t, Shortened(run), d, run.logs[n - 1], run.nodes[n - 1]);
      u := Continued(t, v, run.steps[n - 1], World(log', Last(v).nodes[d := node']));
    }
  }

  lemma Continued(t: Trace, v: Trace, step: Step, w: World) returns (u: Trace)
    requires Continues(t, v) && Next(Last(v), step, w) && Works(step, step.device)
    ensures Continues(t, u) && Last(u) == w
  {
    u := Trace(v.worlds + [w], v.steps + [step]);
    forall i | 0 <= i < |u.steps| ensures Next(u.worlds[i], u.steps[i], u.worlds[i + 1]) {
      if i < |v.steps| {
        assert u.steps[i] == v.steps[i];
      }
    }
    forall k | |t.steps| <= k < |u.steps| ensures Works(u.steps[k], u.steps[k].device) {
      if k < |v.steps| {
        assert u.steps[k] == v.steps[k];
      }
    }
  }

  lemma ContinuesOn(t: Trace, u: Trace, v: Trace)
    requires Continues(t, u) && Continues(u, v)
    ensures Continues(t, v)
  {
    forall k | |t.steps| <= k < |v.steps| ensures Works(v.steps[k], v.steps[k].device) {
      if k < |u.steps| {
        assert v.steps[k] == u.steps[k];
      }
    }
  }

  lemma DrainContinues(t: Trace, d: Bytes, w: World) returns (u: Trace)
    requires IsRun(t) && Drains(Last(t), d, w)
    ensures Continues(t, u) && Last(u) == w
  {
    var run :| Connects(run, d, Last(t).log, Last(t).nodes[d], w.log, w.nodes[d]);
    u := Lifted(t, run, d, w.log, w.nodes[d]);
  }

  // --- A worker with nothing to send -----------------------------------------

  /** A worker in the middle of a round that sends nothing. */
  ghost predicate SendsNothing(node: Node) {
    node.db.outbox == map[] && node.db.prepared.None? && !node.pc.Sealed?
  }

  lemma SilentStep(log: seq<Record>, node: Node, step: Step, log': seq<Record>, node': Node)
    requires LogSound(log) && NodeOk(log, step.device, node) && NodeStep(log, node, step, log', node')
    requires Works(step, step.device) && SendsNothing(node)
    ensures log' == log && SendsNothing(node')
  {
    if step.Exchange? {
      ExchangeKeeps(log, step.device, node, log', step.response, step.delivered);
    } else if step.Merge? {
      var payload := node.pc.page[node.pc.merged].envelope.payload;
      assert SoundPayload(payload);
      MergeRemoteLaw(node.db, payload, step.physical);
      MergeObservedLaw(node.db, payload, step.physical);
    }
  }

  /** Without anything queued or staged, a worker leaves the log as it is. */
  lemma {:induction false} SilentRun(run: NodeRun, d: Bytes, log: seq<Record>, node: Node, log': seq<Record>,
                                     node': Node)
    requires LogSound(log) && NodeOk(log, d, node) && SendsNothing(node) && Connects(run, d, log, node, log', node')
    ensures log' == log && SendsNothing(node') && NodeOk(log', d, node')
    decreases |run.steps|
  {
    var n := |run.steps|;
    if n > 0 {
      ShortenedConnects(run, d, log, node, log', node');
      SilentRun(Shortened(run), d, log, node, run.logs[n - 1], run.nodes[n - 1]);
      SilentStep(run.logs[n - 1], run.nodes[n - 1], run.steps[n - 1], log', node');
      StepKeepsNode(run.logs[n - 1], run.nodes[n - 1], run.steps[n - 1], log', node');
    }
  }

  /** Having read everything means being at the end of the log. */
  lemma NothingRemainsAtTheEnd(log: seq<Record>, cursor: nat)
    requires LogOk(log) && cursor <= MaxCursor(log) && Remaining(log, cursor) == 0
    ensures cursor == MaxCursor(log)
  {
    RowsLaw(log, cursor);
  }

  /** The turn of a clean device: the log stays and the device reads to its end. */
  lemma CleanTurn(w: World, d: Bytes, w': World)
    requires WorldOk(w) && WorldOk(w') && Drains(w, d, w') && Clean(w.nodes[d])
    ensures w'.log == w.log && w'.nodes[d].db.cursor == MaxCursor(w.log)
  {
    var run :| Connects(run, d, w.log, w.nodes[d], w'.log, w'.nodes[d]);
    assert NodeOk(w.log, d, w.nodes[d]) && NodeOk(w'.log, d, w'.nodes[d]);
    SilentRun(run, d, w.log, w.nodes[d], w'.log, w'.nodes[d]);
    NothingRemainsAtTheEnd(w'.log, w'.nodes[d].db.cursor);
  }

  // --- Passes ----------------------------------------------------------------

  /** One pass: the devices drain one after the other. */
  ghost predicate Pass(ds: seq<Bytes>, ws: seq<World>) {
    && |ws| == |ds| + 1
    && forall k {:trigger ds[k]} | 0 <= k < |ds| :: Drains(ws[k], ds[k], ws[k + 1])
  }

  ghost predicate CoversAll(ds: seq<Bytes>, w: World) {
    forall d <- w.nodes :: d in ds
  }

  /** A pass continues the run, whatever its length. */
  lemma {:induction false} PassContinues(t: Trace, ds: seq<Bytes>, ws: seq<World>, k: nat) returns (u: Trace)
    requires IsRun(t) && Pass(ds, ws) && ws[0] == Last(t) && k <= |ds|
    ensures Continues(t, u) && Last(u) == ws[k]
  {
    if k == 0 {
      u := t;
    } else {
      var v := PassContinues(t, ds, ws, k - 1);
      assert Drains(ws[k - 1], ds[k - 1], ws[k]);
      u := DrainContinues(v, ds[k - 1], ws[k]);
      ContinuesOn(t, v, u);
    }
  }

  lemma PassKeepsWorlds(t: Trace, ds: seq<Bytes>, ws: seq<World>, k: nat)
    requires IsRun(t) && Pass(ds, ws) && ws[0] == Last(t) && k <= |ds|
    ensures WorldOk(ws[k])
  {
    var u := PassContinues(t, ds, ws, k);
    RunsKeepTheInvariant(u, |u.worlds| - 1);
  }

  /** Each device is clean once its turn has come. */
  lemma {:induction false} PassCleans(ds: seq<Bytes>, ws: seq<World>, k: nat)
    requires Pass(ds, ws) && k <= |ds|
    ensures ws[k].nodes.Keys == ws[0].nodes.Keys
    ensures forall d <- ws[k].nodes :: d in ds[..k] || Clean(ws[0].nodes[d]) ==> Clean(ws[k].nodes[d])
  {
    if k > 0 {
      PassCleans(ds, ws, k - 1);
      assert Drains(ws[k - 1], ds[k - 1], ws[k]);
      assert ds[..k] == ds[..k - 1] + [ds[k - 1]];
    }
  }

  ghost predicate AllClean(w: World) {
    forall d <- w.nodes :: Clean(w.nodes[d])
  }

  /** The devices of a list have read the log to its end. */
  ghost predicate ReadBy(ds: seq<Bytes>, w: World) {
    forall d <- w.nodes :: d in ds ==> w.nodes[d].db.cursor == MaxCursor(w.log)
  }

  lemma NextReads(ds: seq<Bytes>, k: nat, w: World, w': World)
    requires WorldOk(w) && WorldOk(w') && k < |ds| && Drains(w, ds[k], w') && Clean(w.nodes[ds[k]])
    requires ReadBy(ds[..k], w)
    ensures w'.log == w.log && ReadBy(ds[..k + 1], w')
  {
    CleanTurn(w, ds[k], w');
    OneMoreRead(ds, k, w, w');
  }

  lemma OneMoreRead(ds: seq<Bytes>, k: nat, w: World, w': World)
    requires k < |ds| && ds[k] in w.nodes && ds[k] in w'.nodes && w'.nodes == w.nodes[ds[k] := w'.nodes[ds[k]]]
    requires w'.log == w.log && w'.nodes[ds[k]].db.cursor == MaxCursor(w.log) && ReadBy(ds[..k], w)
    ensures ReadBy(ds[..k + 1], w')
  {
    assert ds[..k + 1] == ds[..k] + [ds[k]];
  }

  /** A pass over clean devices leaves the log alone and brings each to its end. */
  lemma {:induction false} CleanPassReads(t: Trace, ds: seq<Bytes>, ws: seq<World>, k: nat)
    requires IsRun(t) && Pass(ds, ws) && ws[0] == Last(t) && AllClean(ws[0]) && k <= |ds|
    ensures ws[k].log == ws[0].log && ReadBy(ds[..k], ws[k])
  {
    if k > 0 {
      CleanPassReads(t, ds, ws, k - 1);
      PassKeepsWorlds(t, ds, ws, k - 1);
      PassKeepsWorlds(t, ds, ws, k);
      CleanInTurn(ds, ws, k - 1);
      NextReads(ds, k - 1, ws[k - 1], ws[k]);
    }
  }

  lemma CleanInTurn(ds: seq<Bytes>, ws: seq<World>, k: nat)
    requires Pass(ds, ws) && AllClean(ws[0]) && k < |ds|
    ensures Drains(ws[k], ds[k], ws[k + 1]) && Clean(ws[k].nodes[ds[k]])
  {
    PassCleans(ds, ws, k);
    assert ds[k] in ws[k].nodes.Keys;
  }

  /** Two passes over all devices, with no mutation in between, end quiet: the first
      empties every outbox, the second brings every cursor to the end of the log the
      first one left. */
  lemma TwoPassesQuiesce(t: Trace, ds: seq<Bytes>, ws: seq<World>, es: seq<Bytes>, vs: seq<World>) returns (u: Trace)
    requires IsRun(t) && Pass(ds, ws) && ws[0] == Last(t) && CoversAll(ds, ws[0])
    requires Pass(es, vs) && vs[0] == ws[|ds|] && CoversAll(es, vs[0])
    ensures Continues(t, u) && Last(u) == vs[|es|] && Quiescent(vs[|es|])
  {
    var first := PassContinues(t, ds, ws, |ds|);
    u := PassContinues(first, es, vs, |es|);
    ContinuesOn(t, first, u);
    PassCleans(ds, ws, |ds|);
    assert ds[..|ds|] == ds && es[..|es|] == es;
    assert AllClean(vs[0]);
    CleanPassReads(first, es, vs, |es|);
    PassCleans(es, vs, |es|);
  }

  // --- Convergence after two passes ------------------------------------------

  /** Merging a record of the log teaches a device nothing about its own uses. */
  lemma MergeKeepsOwnUses(w: World, c: Bytes, physical: int, interrupted: bool, id: ObjectId)
    requires WorldOk(w) && WorldFresh(w, id) && c in w.nodes
    requires var node := w.nodes[c]; node.pc.Merging? && node.pc.merged < |node.pc.page|
    ensures OwnUses(AfterMerge(w.nodes[c], physical, interrupted), c, id) == OwnUses(w.nodes[c], c, id)
    ensures AfterMerge(w.nodes[c], physical, interrupted).latest == w.nodes[c].latest
  {
    var node := w.nodes[c];
    assert NodeOk(w.log, c, node) && NodeFresh(w.log, c, node, id);
    var k := MergeEffect(w.log, c, node, physical, interrupted);
    if w.log[k].envelope.payload.state.id == id && !interrupted {
      assert KnownRecord(w, c, w.log[k], id);
      assert QueuedOk(w.log, c, node.db, node.latest, id);
      MergeHeld(node.db, w.log[k].envelope.payload, physical);
    }
  }

  /** The worker neither uses a phrase nor queues a use. */
  lemma WorkKeepsUses(w: World, step: Step, w': World, id: ObjectId, d: Bytes)
    requires WorldOk(w) && WorldFresh(w, id) && Next(w, step, w') && Works(step, step.device) && d in w.nodes
    ensures d in w'.nodes && OwnUses(w'.nodes[d], d, id) == OwnUses(w.nodes[d], d, id)
    ensures Queued(w'.nodes[d], d, id) == Queued(w.nodes[d], d, id)
  {
    if d == step.device {
      if step.Merge? {
        MergeKeepsOwnUses(w, d, step.physical, step.interrupted, id);
      } else {
        QuietStep(w.log, w.nodes[d], step, w'.log, w'.nodes[d]);
      }
    }
  }

  lemma WorkStepKeepsUnqueued(w: World, step: Step, w': World, id: ObjectId)
    requires WorldOk(w) && WorldFresh(w, id) && Next(w, step, w') && Works(step, step.device)
    ensures NothingUnqueued(w', id) <==> NothingUnqueued(w, id)
  {
    forall d | d in w.nodes
      ensures OwnUses(w'.nodes[d], d, id) == OwnUses(w.nodes[d], d, id)
      ensures Queued(w'.nodes[d], d, id) == Queued(w.nodes[d], d, id)
    {
      WorkKeepsUses(w, step, w', id, d);
    }
  }

  lemma WorkNext(t: Trace, u: Trace, k: nat, w: World, w': World, id: ObjectId)
    requires Continues(t, u) && FreshInit(u.worlds[0], id) && |t.steps| <= k < |u.steps|
    requires w == u.worlds[k] && w' == u.worlds[k + 1]
    ensures NothingUnqueued(w', id) <==> NothingUnqueued(w, id)
  {
    FreshRunsKeepKnowledge(u, k, id);
    var step := u.steps[k];
    WorkStepKeepsUnqueued(w, step, w', id);
  }

  lemma {:induction false} WorkKeepsUnqueued(t: Trace, u: Trace, j: nat, id: ObjectId)
    requires IsRun(t) && Continues(t, u) && FreshInit(t.worlds[0], id) && |t.steps| <= j < |u.worlds|
    ensures NothingUnqueued(u.worlds[j], id) <==> NothingUnqueued(Last(t), id)
  {
    if j > |t.steps| {
      WorkKeepsUnqueued(t, u, j - 1, id);
      WorkNext(t, u, j - 1, u.worlds[j - 1], u.worlds[j], id);
    }
  }

  /** After any run, two passes over all devices bring a new object everywhere to the
      join of the log if and only if, when they start, no device holds an own use of
      it that was never queued. */
  lemma TwoPassesConverge(t: Trace, ds: seq<Bytes>, ws: seq<World>, es: seq<Bytes>, vs: seq<World>, id: ObjectId)
    requires IsRun(t) && FreshInit(t.worlds[0], id)
    requires Pass(ds, ws) && ws[0] == Last(t) && CoversAll(ds, ws[0])
    requires Pass(es, vs) && vs[0] == ws[|ds|] && CoversAll(es, vs[0])
    ensures Converged(vs[|es|], id) <==> NothingUnqueued(ws[0], id)
  {
    var u := TwoPassesQuiesce(t, ds, ws, es, vs);
    ConvergenceTheorem(u, |u.worlds| - 1, id);
    WorkKeepsUnqueued(t, u, |u.worlds| - 1, id);
  }

  /** The same for every object, whatever the stores held before the run: two passes
      reach the join of the log exactly when the log contains what was never queued. */
  lemma TwoPassesConvergeIffPublished(t: Trace, ds: seq<Bytes>, ws: seq<World>, es: seq<Bytes>, vs: seq<World>,
                                      id: ObjectId) returns (u: Trace)
    requires IsRun(t) && Pass(ds, ws) && ws[0] == Last(t) && CoversAll(ds, ws[0])
    requires Pass(es, vs) && vs[0] == ws[|ds|] && CoversAll(es, vs[0])
    ensures Continues(t, u) && Last(u) == vs[|es|]
    ensures Converged(vs[|es|], id) <==> Published(u, |u.steps|, id)
  {
    u := TwoPassesQuiesce(t, ds, ws, es, vs);
    EveryObjectConvergesIffPublished(u, |u.steps|, id);
  }

  // --- A record that cannot be sealed ----------------------------------------

  /** Sealing in the run takes the size of the row's encoding and refuses larger ones. */
  ghost predicate SealsFit(t: Trace, encoded: Payload -> nat) {
    && |t.worlds| == |t.steps| + 1
    && forall k {:trigger t.steps[k]} | 0 <= k < |t.steps| && t.steps[k].Seal? ::
         && t.steps[k].device in t.worlds[k].nodes
         && var db := t.worlds[k].nodes[t.steps[k].device].db;
            && t.steps[k].id in db.outbox
            && var length := encoded(PayloadOf(db.outbox[t.steps[k].id].phrase));
               length <= MAX_PAYLOAD && t.steps[k].size == SealedSize(length)
  }

  /** The device has nothing staged, no round in progress, and the row first in line. */
  ghost predicate WaitsFor(node: Node, id: ObjectId) {
    node.pc.Idle? && node.db.prepared.None? && IsOldest(node.db, id)
  }

  lemma MutationKeepsOldest(db: Database, m: Mutation, physical: int, id: ObjectId)
    requires DatabaseOk(db) && Callable(m) && IsOldest(db, id)
    ensures IsOldest(Mutated(db, m, physical), id)
  {
    var after := Mutated(db, m, physical);
    MutationRow(db, m, physical, id);
    MutationIsInflationary(db, m, physical);
    assert RowOk(db, id, db.outbox[id]);
    forall o | o in after.outbox ensures after.outbox[id].eventId <= after.outbox[o].eventId {
      MutationRow(db, m, physical, o);
    }
  }

  lemma BlockedStep(log: seq<Record>, node: Node, step: Step, log': seq<Record>, node': Node, id: ObjectId)
    requires LogSound(log) && NodeOk(log, step.device, node) && NodeStep(log, node, step, log', node')
    requires WaitsFor(node, id) && !(step.Seal? && step.id == id)
    ensures log' == log && WaitsFor(node', id) && SameCheckpoint(node.db, node'.db)
  {
    if step.Mutate? {
      MutationKeepsOldest(node.db, step.mutation, step.physical, id);
      MutationKeepsDatabase(node.db, step.mutation, step.physical);
    } else if step.Seal? {
      OldestIsUnique(node.db, id);
    }
  }

  /** No well-formed record of the object can be sealed. */
  ghost predicate Oversize(encoded: Payload -> nat, id: ObjectId) {
    forall p: Payload | SoundPayload(p) && p.state.id == id :: encoded(p) > MAX_PAYLOAD
  }

  /** An encoding holds the text, so a text over the limit is enough. */
  lemma LongTextIsOversize(encoded: Payload -> nat, text: Bytes, pinyin: Bytes)
    requires forall p: Payload :: encoded(p) >= |p.text|
    requires |text| > MAX_PAYLOAD && pinyin != []
    ensures Oversize(encoded, Object(text, pinyin))
  {
    forall p: Payload | SoundPayload(p) && p.state.id == Object(text, pinyin) ensures encoded(p) > MAX_PAYLOAD {
      assert p.text == text;
    }
  }

  /** One save of such a text on a new store is enough to block the device. */
  lemma LongSaveBlocks(encoded: Payload -> nat, device: Bytes, text: Bytes, pinyin: Bytes, physical: int)
    returns (t: Trace)
    requires forall p: Payload :: encoded(p) >= |p.text|
    requires ValidDeviceId(device) && |text| > MAX_PAYLOAD && pinyin != []
    ensures IsRun(t) && SealsFit(t, encoded) && |t.worlds| == 2 && device in t.worlds[1].nodes
    ensures WaitsFor(t.worlds[1].nodes[device], Object(text, pinyin)) && Oversize(encoded, Object(text, pinyin))
  {
    LongTextIsOversize(encoded, text, pinyin);
    var id, db, m := Object(text, pinyin), NewStore(device), Save(Typed(text, pinyin));
    var before := Node(db, Idle, map[]);
    var after := AfterMutation(before, m, physical);
    var w, w' := World([], map[device := before]), World([], map[device := after]);
    t := Trace([w, w'], [Mutate(device, m, physical)]);
    assert InitNode(device, before);
    assert Next(w, t.steps[0], w');
    SaveExplicitAdvances(db, Typed(text, pinyin), physical);
    assert Queues(db, m, physical);
    forall o ensures o in after.db.outbox <==> o == id {
      MutationRow(db, m, physical, o);
    }
    MutationKeepsDatabase(db, m, physical);
  }

  /** The device still waits for the row: its checkpoint and its chain are as before. */
  ghost predicate StillWaits(w: World, w': World, d: Bytes, id: ObjectId) {
    && d in w.nodes && d in w'.nodes && WaitsFor(w'.nodes[d], id)
    && SameCheckpoint(w.nodes[d].db, w'.nodes[d].db) && Chain(w'.log, d) == Chain(w.log, d)
  }

  /** A record too large to seal, first in line on a device, stays there: whatever
      anyone does, the device never uploads and never reads again. */
  lemma {:induction false} OversizeRecordBlocksForever(t: Trace, encoded: Payload -> nat, i: nat, j: nat, d: Bytes,
                                                       id: ObjectId)
    requires IsRun(t) && SealsFit(t, encoded) && i <= j < |t.worlds| && d in t.worlds[i].nodes
    requires WaitsFor(t.worlds[i].nodes[d], id) && Oversize(encoded, id)
    ensures StillWaits(t.worlds[i], t.worlds[j], d, id)
  {
    if i < j {
      OversizeRecordBlocksForever(t, encoded, i, j - 1, d, id);
      WaitsOn(t, encoded, t.worlds[i], j - 1, t.worlds[j - 1], t.worlds[j], d, id);
    }
  }

  lemma WaitsOn(t: Trace, encoded: Payload -> nat, w0: World, k: nat, w: World, w': World, d: Bytes, id: ObjectId)
    requires IsRun(t) && SealsFit(t, encoded) && Oversize(encoded, id) && k < |t.steps|
    requires w == t.worlds[k] && w' == t.worlds[k + 1] && StillWaits(w0, w, d, id)
    ensures StillWaits(w0, w', d, id)
  {
    RunsKeepTheInvariant(t, k);
    NotSealed(t, encoded, k, d, id);
    BlockedNext(w0, w, t.steps[k], w', d, id);
  }

  lemma NotSealed(t: Trace, encoded: Payload -> nat, k: nat, d: Bytes, id: ObjectId)
    requires IsRun(t) && SealsFit(t, encoded) && Oversize(encoded, id) && k < |t.steps| && WorldOk(t.worlds[k])
    requires d in t.worlds[k].nodes
    ensures Next(t.worlds[k], t.steps[k], t.worlds[k + 1])
    ensures !(t.steps[k].Seal? && t.steps[k].device == d && t.steps[k].id == id)
  {
    var step, node := t.steps[k], t.worlds[k].nodes[d];
    if step.Seal? && step.device == d {
      assert NodeOk(t.worlds[k].log, d, node);
      assert RowOk(node.db, step.id, node.db.outbox[step.id]);
    }
  }

  lemma BlockedNext(w0: World, w: World, step: Step, w': World, d: Bytes, id: ObjectId)
    requires WorldOk(w) && Next(w, step, w') && StillWaits(w0, w, d, id)
    requires !(step.Seal? && step.device == d && step.id == id)
    ensures StillWaits(w0, w', d, id)
  {
    var c := step.device;
    assert NodeOk(w.log, c, w.nodes[c]);
    if c == d {
      BlockedStep(w.log, w.nodes[d], step, w'.log, w'.nodes[d], id);
    } else {
      StepKeepsNode(w.log, w.nodes[c], step, w'.log, w'.nodes[c]);
      ChainOfOthers(w.log, w'.log, c, d);
    }
  }
}
