/** The background worker on real store and relay objects: `SyncOnce` performs
    its transactions in the order of the source, every one of them a step of the
    protocol state machine, and `SyncUntilIdle` drains the outbox and the log. */
module Worker {
  import opened Order
  import opened Wrappers
  import opened Crdt
  import opened Wire
  import opened Device
  import opened DeviceLaws
  import opened Relay
  import opened Client
  import opened LocalStore
  import opened Protocol
  import opened ProtocolLaws

  datatype Round = Round(uploaded: bool, acknowledged: bool, downloaded: nat, cursor: nat, hasMore: bool)

  /** A worker's part of a run: what its device and the log were before and after
      each of its steps. */
  datatype NodeRun = NodeRun(logs: seq<seq<Record>>, nodes: seq<Node>, steps: seq<Step>)

  /** A step of the worker of a device. */
  ghost predicate Works(step: Step, device: Bytes) {
    step.device == device && !step.Mutate? && !step.Tick?
  }

  ghost predicate NodeRunOk(run: NodeRun, device: Bytes) {
    && |run.logs| == |run.nodes| == |run.steps| + 1
    && forall i {:trigger run.steps[i]} | 0 <= i < |run.steps| ::
         && Works(run.steps[i], device)
         && NodeStep(run.logs[i], run.nodes[i], run.steps[i], run.logs[i + 1], run.nodes[i + 1])
  }

  ghost predicate Connects(run: NodeRun, device: Bytes, log: seq<Record>, node: Node, log': seq<Record>, node': Node) {
    && NodeRunOk(run, device) && run.logs[0] == log && run.nodes[0] == node
    && run.logs[|run.steps|] == log' && run.nodes[|run.steps|] == node'
  }

  ghost function Taken(run: NodeRun, step: Step, log: seq<Record>, node: Node): NodeRun {
    NodeRun(run.logs + [log], run.nodes + [node], run.steps + [step])
  }

  lemma TakeStep(run: NodeRun, device: Bytes, log0: seq<Record>, node0: Node, log: seq<Record>, node: Node, step: Step,
                 log': seq<Record>, node': Node)
    requires Connects(run, device, log0, node0, log, node) && Works(step, device) &&
             NodeStep(log, node, step, log', node')
    ensures Connects(Taken(run, step, log', node'), device, log0, node0, log', node')
  {
    var grown := Taken(run, step, log', node');
    forall i | 0 <= i < |grown.steps|
      ensures Works(grown.steps[i], device)
              && NodeStep(grown.logs[i], grown.nodes[i], grown.steps[i], grown.logs[i + 1], grown.nodes[i + 1])
    {
      if i < |run.steps| {
        assert Works(run.steps[i], device);
      }
    }
  }

  ghost function Remaining(log: seq<Record>, cursor: nat): (r: nat) {
    |Rows(log, cursor)|
  }

  /** A counter of the protocol has reached the end of its range. */
  ghost predicate Exhausted(db: Database, lastCursor: nat) {
    db.nextSequence >= MAX_I64 || lastCursor >= MAX_I64 || exists o :: o in db.outbox && db.outbox[o].version > MAX_I64
  }

  /** Nothing is staged and the oldest queued record is too large to seal. */
  ghost predicate Stuck(encoded: Payload -> nat, db: Database) {
    db.prepared.None? && exists id :: IsOldest(db, id) && encoded(PayloadOf(db.outbox[id].phrase)) > MAX_PAYLOAD
  }

  lemma RowsAfterPage(log: seq<Record>, cursor: nat, response: Response)
    requires LogOk(log) && IsPage(Rows(log, cursor), PAGE_LIMIT, response.page, response.hasMore)
    requires response.nextCursor == (if response.page == [] then cursor else response.page[|response.page| - 1].cursor)
    ensures Remaining(log, response.nextCursor) + |response.page| == Remaining(log, cursor)
    ensures response.hasMore <==> Remaining(log, response.nextCursor) > 0
    ensures response.page == [] <==> Remaining(log, cursor) == 0
  {
    RowsLaw(log, cursor);
    RowsLaw(log, response.nextCursor);
    var n, p := |log| - Remaining(log, cursor), |response.page|;
    var m := |log| - Remaining(log, response.nextCursor);
    assert response.page == log[n..n + p];
    if p > 0 {
      assert response.page[p - 1] == log[n + p - 1];
    }
    assert m < |log| ==> log[m].cursor > response.nextCursor;
    assert n + p < |log| ==> log[n + p].cursor > response.nextCursor;
    assert m > 0 ==> log[m - 1].cursor <= response.nextCursor;
  }

  lemma {:induction false} RowsOfGrownLog(log: seq<Record>, log': seq<Record>, cursor: nat)
    requires LogOk(log) && LogOk(log') && log <= log' && cursor <= MaxCursor(log)
    ensures Remaining(log', cursor) == Remaining(log, cursor) + |log'| - |log|
  {
    RowsLaw(log, cursor);
    RowsLaw(log', cursor);
    var n, m := |log| - Remaining(log, cursor), |log'| - Remaining(log', cursor);
    assert forall i | 0 <= i < |log| :: log'[i] == log[i];
    assert m < |log'| ==> log'[m].cursor > cursor;
    assert n < |log'| ==> log'[n].cursor > cursor;
    assert m > 0 ==> log'[m - 1].cursor <= cursor;
    assert n > 0 ==> log[n - 1].cursor <= cursor;
  }

  /** Acknowledging removes one row or none. */
  lemma AcknowledgeSize(db: Database, eventId: nat, version: nat)
    requires DistinctEvents(db.outbox)
    ensures var after := Acknowledge(db.outbox, eventId, version);
            if HasRow(db, eventId, version) then |after| + 1 == |db.outbox| else after == db.outbox
  {
    var after := Acknowledge(db.outbox, eventId, version);
    if HasRow(db, eventId, version) {
      var o :| o in db.outbox && db.outbox[o].eventId == eventId && db.outbox[o].version == version;
      assert after.Keys == db.outbox.Keys - {o};
      assert |after.Keys| + 1 == |db.outbox.Keys|;
    }
  }

  // --- Preparing -------------------------------------------------------------

  /** Loads the checkpoint and stages the oldest outbox row unless something is
      staged already or nothing is queued. `encoded` is the length of a payload's
      canonical encoding. */
  method Prepare(store: Store, nonce: int, encoded: Payload -> nat, ghost log: seq<Record>,
                 ghost latest: map<ObjectId, Phrase>)
    returns (ok: bool, ghost run: NodeRun)
    requires NodeOk(log, store.device, Node(store.Db(), Idle, latest))
    modifies store
    ensures store.Db() == old(store.Db()).(prepared := store.prepared)
    ensures !ok ==> store.Db() == old(store.Db()) && (Exhausted(store.Db(), 0) || Stuck(encoded, store.Db()))
    ensures Stuck(encoded, old(store.Db())) ==> !ok
    ensures ok ==> Connects(run, store.device, log, Node(old(store.Db()), Idle, latest), log,
                            Node(store.Db(), Ready(store.cursor, store.prepared), latest))
    ensures ok ==> NodeOk(log, store.device, Node(store.Db(), Ready(store.cursor, store.prepared), latest))
    ensures ok ==> (store.prepared.None? <==> old(store.prepared).None? && store.outbox == map[])
    ensures ok && old(store.prepared).None? && store.prepared.Some? ==>
              HasRow(store.Db(), store.prepared.value.eventId, store.prepared.value.version)
    ensures old(store.prepared).Some? ==> store.prepared == old(store.prepared)
  {
    var start := Node(store.Db(), Idle, latest);
    run := NodeRun([log], [start], []);
    ok := true;
    var event := None;
    if store.prepared.None? {
      event := store.PendingEvent();
    }
    if event.None? {
      TakeStep(run, store.device, log, start, log, start, Load(store.device), log,
               start.(pc := Ready(store.cursor, store.prepared)));
      run := Taken(run, Load(store.device), log, start.(pc := Ready(store.cursor, store.prepared)));
      return;
    }
    var length := encoded(PayloadOf(store.outbox[event.value].phrase));
    OldestIsUnique(store.Db(), event.value);
    if length > MAX_PAYLOAD {
      return false, run;
    }
    SealedSizeIsValid(length);
    ok, run := StageRow(store, event.value, nonce, SealedSize(length), log, start);
  }

  lemma OldestIsUnique(db: Database, id: ObjectId)
    requires DistinctEvents(db.outbox) && IsOldest(db, id)
    ensures forall o | IsOldest(db, o) :: o == id
  {
  }

  /** Seals one outbox row and stages the upload. */
  method StageRow(store: Store, id: ObjectId, nonce: int, size: nat, ghost log: seq<Record>, ghost start: Node)
    returns (ok: bool, ghost run: NodeRun)
    requires start == Node(store.Db(), Idle, start.latest) && NodeOk(log, store.device, start) && ValidSize(size)
    requires store.prepared.None? && IsOldest(store.Db(), id)
    modifies store
    ensures store.Db() == old(store.Db()).(prepared := store.prepared)
    ensures !ok ==> store.Db() == old(store.Db()) && Exhausted(old(store.Db()), 0)
    ensures ok ==>
              store.prepared.Some? && HasRow(store.Db(), store.prepared.value.eventId, store.prepared.value.version)
    ensures ok ==> var ready := Node(store.Db(), Ready(store.cursor, store.prepared), start.latest);
                   Connects(run, store.device, log, start, log, ready) && NodeOk(log, store.device, ready)
  {
    var upload := SealRow(store.Db(), store.outbox[id], nonce, size);
    ghost var sealed := start.(pc := Sealed(upload));
    assert RowOk(store.Db(), id, store.outbox[id]);
    assert HasRow(store.Db(), upload.eventId, upload.version);
    SealKeeps(log, store.device, start, id, nonce, size);
    run := StageTaken(log, store.device, start, sealed, id, nonce, size);
    ok := store.SavePreparedUpload(upload);
  }

  lemma StageTaken(log: seq<Record>, device: Bytes, start: Node, sealed: Node, id: ObjectId, nonce: int, size: nat)
    returns (run: NodeRun)
    requires NodeStep(log, start, Seal(device, id, nonce, size), log, sealed)
    requires NodeOk(log, device, sealed) && sealed.pc.Sealed?
    ensures Connects(run, device, log, start, log, AfterStage(sealed)) && NodeOk(log, device, AfterStage(sealed))
  {
    run := NodeRun([log], [start], []);
    TakeStep(run, device, log, start, log, start, Seal(device, id, nonce, size), log, sealed);
    run := Taken(run, Seal(device, id, nonce, size), log, sealed);
    StageKeeps(log, device, sealed);
    TakeStep(run, device, log, start, log, sealed, Stage(device), log, AfterStage(sealed));
    run := Taken(run, Stage(device), log, AfterStage(sealed));
  }

  // --- Merging ---------------------------------------------------------------

  lemma MergeTaken(run: NodeRun, device: Bytes, log: seq<Record>, merging: Node, last: Node, physical: int)
    requires Connects(run, device, log, merging, log, last) && NodeOk(log, device, last)
    requires last.pc.Merging? && last.pc.merged < |last.pc.page|
    ensures var payload := last.pc.page[last.pc.merged].envelope.payload;
            var (db, ok) := MergeRemote(last.db, payload, physical);
            var next := last.(db := db, pc := last.pc.(merged := last.pc.merged + 1));
            && ok && NodeOk(log, device, next) && SameCheckpoint(last.db, db) && db.outbox == last.db.outbox
            && Connects(Taken(run, Merge(device, physical, false), log, next), device, log, merging, log, next)
  {
    var payload := last.pc.page[last.pc.merged].envelope.payload;
    assert SoundPayload(payload);
    MergeRemoteLaw(last.db, payload, physical);
    MergeKeeps(log, device, last, physical, false);
    TakeStep(run, device, log, merging, log, last, Merge(device, physical, false), log,
             AfterMerge(last, physical, false));
  }

  /** The worker has merged the first `n` records of its page, and nothing else. */
  ghost predicate HasMerged(log: seq<Record>, device: Bytes, merging: Node, run: NodeRun, last: Node, n: nat) {
    && NodeOk(log, device, last) && Connects(run, device, log, merging, log, last)
    && merging.pc.Merging? && last == merging.(db := last.db, pc := merging.pc.(merged := n))
    && SameCheckpoint(merging.db, last.db) && last.db.outbox == merging.db.outbox
  }

  /** Merges the payloads of a page one transaction at a time. */
  method MergePage(store: Store, page: seq<Record>, payloads: seq<Payload>, clock: nat -> int, ghost log: seq<Record>,
                   ghost merging: Node)
    returns (ok: bool, ghost run: NodeRun, ghost last: Node)
    requires payloads == Payloads(page)
    requires NodeOk(log, store.device, merging) && merging.db == store.Db()
    requires merging.pc.Merging? && merging.pc.page == page && merging.pc.merged == 0
    modifies store
    ensures ok && last.db == store.Db() && HasMerged(log, store.device, merging, run, last, |page|)
  {
    run := NodeRun([log], [merging], []);
    last := merging;
    PayloadsLength(page);
    for i := 0 to |payloads|
      invariant last.db == store.Db() && HasMerged(log, store.device, merging, run, last, i)
    {
      PayloadAt(page, i);
      ok, run, last := MergeNext(store, payloads[i], clock(i), i, log, merging, run, last);
    }
    ok := true;
  }

  /** Merges one payload of a page. */
  method MergeNext(store: Store, payload: Payload, physical: int, ghost n: nat, ghost log: seq<Record>,
                   ghost merging: Node, ghost run: NodeRun, ghost last: Node)
    returns (ok: bool, ghost run': NodeRun, ghost last': Node)
    requires last.db == store.Db() && HasMerged(log, store.device, merging, run, last, n)
    requires n < |merging.pc.page| && payload == merging.pc.page[n].envelope.payload
    modifies store
    ensures ok && last'.db == store.Db() && HasMerged(log, store.device, merging, run', last', n + 1)
  {
    MergeTaken(run, store.device, log, merging, last, physical);
    ok := store.MergeRemotePayload(payload, physical);
    last' := last.(db := store.Db(), pc := last.pc.(merged := last.pc.merged + 1));
    run' := Taken(run, Merge(store.device, physical, false), log, last');
  }

  lemma {:induction false} PayloadsLength(page: seq<Record>)
    ensures |Payloads(page)| == |page|
  {
    if page != [] {
      PayloadsLength(page[..|page| - 1]);
    }
  }

  lemma {:induction false} PayloadAt(page: seq<Record>, i: nat)
    requires i < |page| && |Payloads(page)| == |page|
    ensures Payloads(page)[i] == page[i].envelope.payload
  {
    var n := |page| - 1;
    PayloadsLength(page[..n]);
    if i < n {
      PayloadAt(page[..n], i);
    }
  }

  // --- One round -------------------------------------------------------------

  lemma {:induction false} Joined(a: NodeRun, b: NodeRun, device: Bytes, log0: seq<Record>, node0: Node,
                                  log1: seq<Record>, node1: Node,
                                  log2: seq<Record>, node2: Node) returns (run: NodeRun)
    requires Connects(a, device, log0, node0, log1, node1) && Connects(b, device, log1, node1, log2, node2)
    ensures Connects(run, device, log0, node0, log2, node2)
    decreases |b.steps|
  {
    if b.steps == [] {
      run := a;
    } else {
      assert Works(b.steps[0], device);
      TakeStep(a, device, log0, node0, log1, node1, b.steps[0], b.logs[1], b.nodes[1]);
      var rest := NodeRun(b.logs[1..], b.nodes[1..], b.steps[1..]);
      forall i | 0 <= i < |rest.steps|
        ensures Works(rest.steps[i], device)
                && NodeStep(rest.logs[i], rest.nodes[i], rest.steps[i], rest.logs[i + 1], rest.nodes[i + 1])
      {
        assert rest.steps[i] == b.steps[i + 1];
      }
      run := Joined(Taken(a, b.steps[0], b.logs[1], b.nodes[1]), rest, device, log0, node0, b.logs[1], b.nodes[1],
                    log2, node2);
    }
  }

  /** The end of a round: commit the staged upload, then move the cursor. */
  method FinishRound(store: Store, staged: bool, cursor: nat, next: nat, ghost log: seq<Record>, ghost merged: Node)
    returns (ok: bool, acknowledged: bool, ghost run: NodeRun)
    requires NodeOk(log, store.device, merged) && merged.db == store.Db() && merged.pc.Merging?
    requires merged.pc.merged == |merged.pc.page| && merged.pc.cursor == cursor && merged.pc.next == next
    requires staged <==> store.prepared.Some?
    modifies store
    ensures ok && NodeOk(log, store.device, Node(store.Db(), Idle, merged.latest))
    ensures Connects(run, store.device, log, merged, log, Node(store.Db(), Idle, merged.latest))
    ensures store.cursor == next && store.prepared.None?
    ensures acknowledged <==>
              staged && HasRow(merged.db, merged.db.prepared.value.eventId, merged.db.prepared.value.version)
    ensures if acknowledged then |store.outbox| + 1 == |old(store.outbox)| else store.outbox == old(store.outbox)
  {
    acknowledged := false;
    run := FinishTaken(log, store.device, merged);
    FinishEffect(log, store.device, merged);
    ghost var committed := AfterCommit(merged);
    if staged {
      var result := store.CommitPreparedUpload();
      acknowledged := result.value;
    }
    assert store.Db() == committed.db;
    ok := store.AdvanceSyncCursor(cursor, next);
    assert store.Db() == AfterAdvance(committed).db;
  }

  /** Commit and advance as steps of the protocol. */
  lemma FinishTaken(log: seq<Record>, device: Bytes, merged: Node) returns (run: NodeRun)
    requires NodeOk(log, device, merged) && merged.pc.Merging? && merged.pc.merged == |merged.pc.page|
    ensures AfterCommit(merged).pc.Advancing? && NodeOk(log, device, AfterAdvance(AfterCommit(merged)))
    ensures Connects(run, device, log, merged, log, AfterAdvance(AfterCommit(merged)))
  {
    run := NodeRun([log], [merged], []);
    CommitKeeps(log, device, merged);
    var committed := AfterCommit(merged);
    AdvanceKeeps(log, device, committed);
    TakeStep(run, device, log, merged, log, merged, Commit(device), log, committed);
    run := Taken(run, Commit(device), log, committed);
    TakeStep(run, device, log, merged, log, committed, Advance(device), log, AfterAdvance(committed));
    run := Taken(run, Advance(device), log, AfterAdvance(committed));
  }

  /** What commit and advance leave in the store. */
  lemma FinishEffect(log: seq<Record>, device: Bytes, merged: Node)
    requires NodeOk(log, device, merged) && merged.pc.Merging? && AfterCommit(merged).pc.Advancing?
    ensures var committed, done := AfterCommit(merged), AfterAdvance(AfterCommit(merged));
            && done == Node(done.db, Idle, merged.latest)
            && committed.db.cursor == merged.pc.cursor && done.db == committed.db.(cursor := merged.pc.next)
            && merged.pc.cursor <= merged.pc.next && committed.db.prepared.None?
            && (merged.db.prepared.None? ==> committed.db == merged.db)
            && (merged.db.prepared.Some? ==>
                  CommitPrepared(merged.db).1.Ok? && committed.db == CommitPrepared(merged.db).0)
            && (var p := merged.db.prepared;
                if p.Some? && HasRow(merged.db, p.value.eventId, p.value.version)
                then |committed.db.outbox| + 1 == |merged.db.outbox| else committed.db.outbox == merged.db.outbox)
  {
    if merged.db.prepared.Some? {
      AcknowledgeSize(merged.db, merged.db.prepared.value.eventId, merged.db.prepared.value.version);
    }
  }

  lemma StillExhausted(db: Database, lastCursor: nat)
    ensures Exhausted(db, 0) ==> Exhausted(db, lastCursor)
  {
  }

  lemma ReadyRequestWellFormed(log: seq<Record>, device: Bytes, ready: Node)
    requires NodeOk(log, device, ready) && ready.pc.Ready?
    ensures WellFormed(RequestFor(ready.db.cursor, ready.db.prepared)) && ready.db.cursor <= MaxCursor(log)
  {
  }

  ghost predicate ReadsOn(log: seq<Record>, cursor: nat, log': seq<Record>, response: Response) {
    && Remaining(log', response.nextCursor) + |response.page| == Remaining(log, cursor) + |log'| - |log|
    && (response.hasMore <==> Remaining(log', response.nextCursor) > 0)
    && (response.page == [] ==> Remaining(log', response.nextCursor) == 0)
  }

  /** What one answered request leaves to be read. */
  lemma RoundReads(log: seq<Record>, device: Bytes, cursor: nat, prepared: Option<Prepared>, log': seq<Record>,
                   response: Response)
    requires LogOk(log) && cursor <= MaxCursor(log)
    requires Handled(log, device, RequestFor(cursor, prepared), log', response)
    ensures ReadsOn(log, cursor, log', response)
  {
    RowsAfterPage(log', cursor, response);
    RowsOfGrownLog(log, log', cursor);
  }

  lemma MergingMayStop(log: seq<Record>, device: Bytes, merging: Node)
    requires NodeOk(log, device, merging) && merging.pc.Merging?
    ensures NodeOk(log, device, merging.(pc := Idle)) && merging.pc.next <= MaxCursor(log)
  {
  }

  /** An honest answer passes every check and keeps the invariant. */
  lemma HonestAnswer(log: seq<Record>, device: Bytes, ready: Node, log': seq<Record>, response: Response)
    requires LogSound(log) && NodeOk(log, device, ready) && ready.pc == Ready(ready.db.cursor, ready.db.prepared)
    requires Handled(log, device, RequestFor(ready.db.cursor, ready.db.prepared), log', response)
    ensures LogSound(log') && OneUpload(log, device, ready.db, log')
    ensures Acknowledges(ready.db.prepared, response) && InOrder(ready.db.cursor, response)
    ensures NodeOk(log', device, AfterExchange(ready, response, true)) &&
            AfterExchange(ready, response, true).pc.Merging?
  {
    HonestRelayAccepts(log, device, ready.db, log', response);
    ExchangeKeeps(log, device, ready, log', response, true);
  }

  /** Sends the request of a loaded checkpoint and checks the answer: an honest relay's
      answer is refused only when its cursors are exhausted. */
  method Converse(store: Store, relay: Table, ghost ready: Node) returns (r: Result<Response>, payloads: seq<Payload>)
    requires relay.Valid() && LogSound(relay.log) && NodeOk(relay.log, store.device, ready)
    requires ready.db == store.Db() && ready.pc == Ready(store.cursor, store.prepared)
    modifies relay
    ensures relay.Valid() && LogSound(relay.log) && NodeOk(relay.log, store.device, ready.(pc := Idle))
    ensures r.Err? ==> relay.lastCursor >= MAX_I64
    ensures r.Ok? ==>
              Handled(old(relay.log), store.device, RequestFor(store.cursor, store.prepared), relay.log, r.value)
    ensures r.Ok? ==>
              NodeOk(relay.log, store.device, AfterExchange(ready, r.value, true)) &&
                  AfterExchange(ready, r.value, true).pc.Merging?
    ensures r.Ok? ==>
              payloads == Payloads(r.value.page) && OneUpload(old(relay.log), store.device, store.Db(), relay.log)
  {
    ghost var log := relay.log;
    payloads := [];
    ReadyRequestWellFormed(log, store.device, ready);
    ghost var reached;
    r, reached := relay.Sync(store.device, RequestFor(store.cursor, store.prepared));
    if r.Err? {
      return;
    }
    HonestAnswer(log, store.device, ready, relay.log, r.value);
    MergingMayStop(relay.log, store.device, AfterExchange(ready, r.value, true));
    var ok := CheckAnswer(store.prepared, r.value);
    if !ok {
      return Err, payloads;
    }
    var decoded := DecodeDownloads(r.value, store.cursor);
    if decoded.Err? {
      return Err, payloads;
    }
    payloads := decoded.value;
  }

  /** Merges a checked page, commits the staged upload and moves the cursor. */
  method Absorb(store: Store, response: Response, payloads: seq<Payload>, clock: nat -> int, ghost log: seq<Record>,
                ghost merging: Node)
    returns (acknowledged: bool, ghost run: NodeRun)
    requires payloads == Payloads(response.page) && NodeOk(log, store.device, merging) && merging.db == store.Db()
    requires merging.pc == Merging(store.cursor, store.prepared, response.page, 0, response.nextCursor)
    modifies store
    ensures NodeOk(log, store.device, Node(store.Db(), Idle, merging.latest))
    ensures Connects(run, store.device, log, merging, log, Node(store.Db(), Idle, merging.latest))
    ensures Finished(old(store.Db()), store.Db(), response, acknowledged)
  {
    var cursor, staged := store.cursor, store.prepared.Some?;
    var ok;
    ghost var last, run2;
    ok, run, last := MergePage(store, response.page, payloads, clock, log, merging);
    ok, acknowledged, run2 := FinishRound(store, staged, cursor, response.nextCursor, log, last);
    run := Joined(run, run2, store.device, log, merging, log, last, log, Node(store.Db(), Idle, merging.latest));
  }

  /** So far: a run of the worker from the start, all invariants kept. */
  ghost predicate Carried(run: NodeRun, device: Bytes, log: seq<Record>, start: Node, log': seq<Record>, now: Node) {
    LogSound(log') && NodeOk(log', device, now) && Connects(run, device, log, start, log', now)
  }

  /** The first half of a round: something was staged if there was anything to send, and
      one request was answered. */
  ghost predicate Fetched(db: Database, log: seq<Record>, staged: Database, log': seq<Record>, response: Response) {
    && staged == db.(prepared := staged.prepared)
    && (staged.prepared.Some? <==> db.prepared.Some? || db.outbox != map[])
    && (db.prepared.None? && staged.prepared.Some? ==>
          HasRow(staged, staged.prepared.value.eventId, staged.prepared.value.version))
    && (db.prepared.Some? ==> staged.prepared == db.prepared)
    && ReadsOn(log, db.cursor, log', response)
    && |log'| <= |log| + 1 && (staged.prepared.None? ==> log' == log)
  }

  /** The second half: the page is merged, the upload committed, the cursor moved. */
  ghost predicate Finished(staged: Database, after: Database, response: Response, acknowledged: bool) {
    && after.cursor == response.nextCursor && after.prepared.None?
    && (acknowledged <==> staged.prepared.Some?
                          && HasRow(staged, staged.prepared.value.eventId, staged.prepared.value.version))
    && (if acknowledged then |after.outbox| + 1 == |staged.outbox| else after.outbox == staged.outbox)
  }

  /** Prepares, sends the request and checks the answer. */
  method Fetch(store: Store, relay: Table, nonce: int, encoded: Payload -> nat, ghost latest: map<ObjectId, Phrase>)
    returns (answer: Result<Response>, payloads: seq<Payload>, ghost run: NodeRun, ghost merging: Node)
    requires relay.Valid() && LogSound(relay.log)
    requires NodeOk(relay.log, store.device, Node(store.Db(), Idle, latest))
    modifies store, relay
    ensures relay.Valid() && LogSound(relay.log)
    ensures answer.Err? ==> NodeOk(relay.log, store.device, Node(store.Db(), Idle, latest))
    ensures answer.Err? ==> Exhausted(store.Db(), relay.lastCursor) || Stuck(encoded, old(store.Db()))
    ensures Stuck(encoded, old(store.Db())) ==>
              answer.Err? && store.Db() == old(store.Db()) && relay.log == old(relay.log)
    ensures answer.Ok? ==> payloads == Payloads(answer.value.page)
    ensures answer.Ok? ==> merging == Node(store.Db(), Merging(store.cursor, store.prepared, answer.value.page, 0,
                                                               answer.value.nextCursor), latest)
    ensures answer.Ok? ==> Carried(run, store.device, old(relay.log), Node(old(store.Db()), Idle, latest),
                                   relay.log, merging)
    ensures answer.Ok? ==> Fetched(old(store.Db()), old(relay.log), store.Db(), relay.log, answer.value)
  {
    ghost var log, start := relay.log, Node(store.Db(), Idle, latest);
    merging := start;
    payloads := [];
    var ok;
    ok, run := Prepare(store, nonce, encoded, log, latest);
    if !ok {
      StillExhausted(store.Db(), relay.lastCursor);
      return Err, payloads, run, merging;
    }
    ghost var ready := Node(store.Db(), Ready(store.cursor, store.prepared), latest);
    answer, payloads := Converse(store, relay, ready);
    if answer.Ok? {
      RoundReads(log, store.device, store.cursor, store.prepared, relay.log, answer.value);
      merging := AfterExchange(ready, answer.value, true);
      ghost var step := Exchange(store.device, answer.value, true);
      TakeStep(run, store.device, log, start, log, ready, step, relay.log, merging);
      run := Taken(run, step, relay.log, merging);
    }
  }

  /** What a round did: nothing stays staged, exactly the row that was sent leaves the
      outbox if its version is still the same, the page read and what is left to read
      add up, and the log gained at most the upload. */
  ghost predicate RoundDid(db: Database, log: seq<Record>, after: Database, log': seq<Record>, r: Round) {
    && after.prepared.None? && after.cursor == r.cursor
    && (r.hasMore <==> Remaining(log', after.cursor) > 0)
    && (if r.acknowledged then |after.outbox| + 1 == |db.outbox| else after.outbox == db.outbox)
    && (db.prepared.None? ==> (r.acknowledged <==> db.outbox != map[]))
    && (db.prepared.Some? ==> (r.acknowledged <==> HasRow(db, db.prepared.value.eventId, db.prepared.value.version)))
    && (r.uploaded <==> db.prepared.Some? || db.outbox != map[])
    && Remaining(log', after.cursor) + r.downloaded == Remaining(log, db.cursor) + |log'| - |log|
    && |log'| <= |log| + 1 && (!r.uploaded ==> log' == log)
    && (r.downloaded == 0 ==> Remaining(log', after.cursor) == 0)
  }

  /** The two halves make a round. */
  lemma RoundAddsUp(db: Database, log: seq<Record>, staged: Database, log': seq<Record>, response: Response,
                    after: Database, acknowledged: bool)
    requires Fetched(db, log, staged, log', response) && Finished(staged, after, response, acknowledged)
    ensures RoundDid(db, log, after, log', Round(staged.prepared.Some?, acknowledged, |response.page|,
                                                 response.nextCursor, response.hasMore))
  {
    assert forall e, v :: HasRow(staged, e, v) <==> HasRow(db, e, v);
  }

  /** One round against an honest relay. It fails only when a counter is exhausted or
      the oldest queued record is too large to seal, and then always; otherwise it
      leaves nothing staged, removes exactly the sent outbox row, and reads one page.
      Everything it does is a sequence of steps of the protocol state machine. */
  method SyncOnce(store: Store, relay: Table, nonce: int, encoded: Payload -> nat, clock: nat -> int,
                  ghost latest: map<ObjectId, Phrase>)
    returns (r: Result<Round>, ghost run: NodeRun)
    requires relay.Valid() && LogSound(relay.log)
    requires NodeOk(relay.log, store.device, Node(store.Db(), Idle, latest))
    modifies store, relay
    ensures relay.Valid() && LogSound(relay.log) && NodeOk(relay.log, store.device, Node(store.Db(), Idle, latest))
    ensures r.Err? ==> Exhausted(store.Db(), relay.lastCursor) || Stuck(encoded, old(store.Db()))
    ensures Stuck(encoded, old(store.Db())) ==> r.Err? && store.Db() == old(store.Db()) && relay.log == old(relay.log)
    ensures r.Ok? ==> Connects(run, store.device, old(relay.log), Node(old(store.Db()), Idle, latest),
                               relay.log, Node(store.Db(), Idle, latest))
    ensures r.Ok? ==> RoundDid(old(store.Db()), old(relay.log), store.Db(), relay.log, r.value)
  {
    ghost var log, start := relay.log, Node(store.Db(), Idle, latest);
    var answer, payloads;
    ghost var merging, rest;
    answer, payloads, run, merging := Fetch(store, relay, nonce, encoded, latest);
    if answer.Err? {
      return Err, run;
    }
    var response, uploaded, acknowledged := answer.value, store.prepared.Some?, false;
    acknowledged, rest := Absorb(store, response, payloads, clock, relay.log, merging);
    RoundAddsUp(start.db, log, merging.db, relay.log, response, store.Db(), acknowledged);
    run := Joined(run, rest, store.device, log, start, relay.log, merging, relay.log, Node(store.Db(), Idle, latest));
    return Ok(Round(uploaded, acknowledged, |response.page|, response.nextCursor, response.hasMore)), run;
  }

  // --- Until idle ------------------------------------------------------------

  /** The rounds an undisturbed device still needs: one per queued row, one per
      unread record, one more for a staged upload whose row was replaced. */
  ghost function Work(db: Database, log: seq<Record>): (r: nat) {
    |db.outbox| + Remaining(log, db.cursor)
    + (if db.prepared.Some? && !HasRow(db, db.prepared.value.eventId, db.prepared.value.version) then 1 else 0)
  }

  lemma RoundWorks(db: Database, log: seq<Record>, after: Database, log': seq<Record>, r: Round)
    requires RoundDid(db, log, after, log', r)
    ensures !r.hasMore && |after.outbox| == 0 ==> after.outbox == map[] && Remaining(log', after.cursor) == 0
    ensures r.hasMore || |after.outbox| > 0 ==> 0 < Work(after, log') < Work(db, log)
  {
  }

  /** A round against an honest relay either leaves nothing to do or does some of it;
      it continues the run of the rounds before it. */
  method WorkingRound(store: Store, relay: Table, nonce: int, encoded: Payload -> nat, clock: nat -> int,
                      ghost latest: map<ObjectId, Phrase>, ghost log: seq<Record>, ghost start: Node,
                      ghost before: NodeRun)
    returns (idle: Result<bool>, ghost run: NodeRun)
    requires relay.Valid()
    requires Carried(before, store.device, log, start, relay.log, Node(store.Db(), Idle, latest))
    modifies store, relay
    ensures relay.Valid() && LogSound(relay.log) && NodeOk(relay.log, store.device, Node(store.Db(), Idle, latest))
    ensures idle.Err? ==> Exhausted(store.Db(), relay.lastCursor) || Stuck(encoded, store.Db())
    ensures Stuck(encoded, old(store.Db())) ==>
              idle.Err? && store.Db() == old(store.Db()) && relay.log == old(relay.log)
    ensures idle.Ok? ==> Carried(run, store.device, log, start, relay.log, Node(store.Db(), Idle, latest))
    ensures idle == Ok(true) ==>
              store.outbox == map[] && store.prepared.None? && Remaining(relay.log, store.cursor) == 0
    ensures idle == Ok(false) ==> 0 < Work(store.Db(), relay.log) < Work(old(store.Db()), old(relay.log))
  {
    ghost var log1, node1 := relay.log, Node(store.Db(), Idle, latest);
    var r;
    ghost var rest;
    r, rest := SyncOnce(store, relay, nonce, encoded, clock, latest);
    run := before;
    if r.Err? {
      return Err, run;
    }
    RoundWorks(node1.db, log1, store.Db(), relay.log, r.value);
    run := Joined(before, rest, store.device, log, start, log1, node1, relay.log, Node(store.Db(), Idle, latest));
    idle := Ok(!r.value.hasMore && |store.outbox| == 0);
  }

  /** Rounds until nothing is queued and nothing is unread. Undisturbed, it
      succeeds whenever it may use as many rounds as there is work, unless a counter
      is exhausted or the oldest queued record is too large to seal; such a record
      makes it fail at once, with nothing sent and nothing read. */
  method SyncUntilIdle(store: Store, relay: Table, maxRounds: int, nonce: nat -> int, encoded: Payload -> nat,
                       clock: nat -> int, ghost latest: map<ObjectId, Phrase>)
    returns (r: Result<nat>, ghost run: NodeRun)
    requires relay.Valid() && LogSound(relay.log)
    requires NodeOk(relay.log, store.device, Node(store.Db(), Idle, latest))
    modifies store, relay
    ensures relay.Valid() && LogSound(relay.log) && NodeOk(relay.log, store.device, Node(store.Db(), Idle, latest))
    ensures r.Ok? ==> Connects(run, store.device, old(relay.log), Node(old(store.Db()), Idle, latest),
                               relay.log, Node(store.Db(), Idle, latest))
    ensures r.Ok? ==> store.outbox == map[] && store.prepared.None? && Remaining(relay.log, store.cursor) == 0
    ensures r.Ok? ==> 1 <= r.value <= maxRounds <= 1024 && r.value <= Max(1, Work(old(store.Db()), old(relay.log)))
    ensures 1 <= maxRounds <= 1024 && Work(old(store.Db()), old(relay.log)) <= maxRounds && r.Err? ==>
              Exhausted(store.Db(), relay.lastCursor) || Stuck(encoded, store.Db())
    ensures Stuck(encoded, old(store.Db())) ==> r.Err? && store.Db() == old(store.Db()) && relay.log == old(relay.log)
  {
    ghost var log, start := relay.log, Node(store.Db(), Idle, latest);
    run := NodeRun([log], [start], []);
    if maxRounds < 1 || maxRounds > 1024 {
      return Err, run;
    }
    var round := 0;
    while round < maxRounds
      invariant 0 <= round <= maxRounds
      invariant relay.Valid() && Carried(run, store.device, log, start, relay.log, Node(store.Db(), Idle, latest))
      invariant if round == 0 then store.Db() == start.db && relay.log == log
                else !Stuck(encoded, start.db) && Work(store.Db(), relay.log) > 0
      invariant Work(store.Db(), relay.log) + round <= Work(start.db, log)
    {
      var idle;
      idle, run := WorkingRound(store, relay, nonce(round), encoded, clock, latest, log, start, run);
      if idle.Err? {
        return Err, run;
      }
      round := round + 1;
      if idle.value {
        return Ok(round), run;
      }
    }
    return Err, run;
  }
}
