/** The sync protocol as a state machine: one relay log and any number of
    devices, each with its database and at most one background worker. Every
    store transaction and every relay request is one atomic step; workers may
    crash and answers may get lost between any two steps. */
module Protocol {
  import opened Order
  import opened Wrappers
  import opened Crdt
  import opened Wire
  import opened Device
  import opened DeviceLaws
  import opened Relay
  import opened Client

  /** Where a worker is inside one `SyncOnce` round. */
  datatype Pc =
    | Idle
    | Sealed(upload: Prepared)
    | Ready(cursor: nat, prepared: Option<Prepared>)
    | Merging(cursor: nat, prepared: Option<Prepared>, page: seq<Record>, merged: nat, next: nat)
    | Advancing(cursor: nat, next: nat)

  /** `latest` is a history variable: the record each object was last queued with. */
  datatype Node = Node(db: Database, pc: Pc, latest: map<ObjectId, Phrase>)

  datatype World = World(log: seq<Record>, nodes: map<Bytes, Node>)

  /** A local mutation by the user of one device. */
  datatype Mutation =
    | Save(phrase: Phrase)
    | Select(phrase: Phrase, disabled: bool, day: int)
    | Remove(text: Bytes, pinyin: Bytes)

  /** `Tick` is a mutation, or a merge into a record without metadata, that stopped
      after the transaction that takes its clock. */
  datatype Step =
    | Mutate(device: Bytes, mutation: Mutation, physical: int)
    | Tick(device: Bytes, physical: int)
    | Load(device: Bytes)
    | Seal(device: Bytes, id: ObjectId, nonce: int, size: nat)
    | Stage(device: Bytes)
    | Exchange(device: Bytes, response: Response, delivered: bool)
    | Merge(device: Bytes, physical: int, interrupted: bool)
    | Commit(device: Bytes)
    | Advance(device: Bytes)
    | Crash(device: Bytes)

  // --- Steps -----------------------------------------------------------------

  function Target(m: Mutation): ObjectId {
    match m
    case Save(p) => ObjectOf(p.text, p.pinyin)
    case Select(p, disabled, _) => if disabled then NoObject else ObjectOf(p.text, p.pinyin)
    case Remove(text, pinyin) => ObjectOf(text, pinyin)
  }

  ghost function Decide(db: Database, m: Mutation, clock: Hlc): Decision {
    match m
    case Save(p) => SaveExplicitDecision(db, p, clock)
    case Select(p, _, day) => SelectionDecision(db, p, clock, day)
    case Remove(text, pinyin) => DeleteDecision(db, text, pinyin, clock)
  }

  /** A selection of a phrase the store does not know comes without metadata. */
  ghost predicate Callable(m: Mutation) {
    m.Select? ==> m.phrase.crdt.id == NoObject
  }

  ghost function Mutated(db: Database, m: Mutation, physical: int): Database {
    if Target(m) == NoObject then db
    else
      var (ticked, clock) := NextClock(db, physical);
      Apply(ticked, Target(m), Decide(db, m, clock))
  }

  /** A mutation step is exactly one call of the store operation it stands for. */
  lemma MutatedIsTheStoreOperation(db: Database, m: Mutation, physical: int)
    ensures Mutated(db, m, physical) ==
            match m
            case Save(p) => SaveExplicit(db, p, physical).0
            case Select(p, disabled, day) => RecordSelection(db, p, disabled, physical, day).0
            case Remove(text, pinyin) => Delete(db, text, pinyin, physical).0
  {
  }

  /** Whether the mutation queues its record. */
  ghost predicate Queues(db: Database, m: Mutation, physical: int) {
    var decision := Decide(db, m, NextClock(db, physical).1);
    Target(m) != NoObject && decision.Write? && decision.enqueue
  }

  ghost function AfterMutation(node: Node, m: Mutation, physical: int): Node {
    node.(db := Mutated(node.db, m, physical),
          latest := if Queues(node.db, m, physical)
                    then node.latest[Target(m) := Decide(node.db, m, NextClock(node.db, physical).1).phrase]
                    else node.latest)
  }

  /** The upload a worker seals for an outbox row. */
  function SealRow(db: Database, row: OutboxRow, nonce: int, size: nat): Prepared {
    Prepared(row.eventId, row.version, db.nextSequence,
             Envelope(db.nextSequence, db.previous, nonce, size, PayloadOf(row.phrase)))
  }

  ghost function AfterStage(node: Node): Node
    requires node.pc.Sealed?
  {
    var (db, ok) := SavePrepared(node.db, node.pc.upload);
    node.(db := db, pc := if ok then Ready(db.cursor, db.prepared) else Idle)
  }

  /** A delivered answer is checked before it is used; a lost one ends the round. */
  ghost function AfterExchange(node: Node, response: Response, delivered: bool): Node
    requires node.pc.Ready?
  {
    var usable := delivered && Acknowledges(node.pc.prepared, response) && InOrder(node.pc.cursor, response);
    node.(pc := if usable then Merging(node.pc.cursor, node.pc.prepared, response.page, 0, response.nextCursor)
            else Idle)
  }

  ghost function AfterMerge(node: Node, physical: int, interrupted: bool): Node
    requires node.pc.Merging? && node.pc.merged < |node.pc.page|
  {
    var payload := node.pc.page[node.pc.merged].envelope.payload;
    if interrupted then node.(db := MergeObserved(node.db, payload, physical), pc := Idle)
    else
      var (db, ok) := MergeRemote(node.db, payload, physical);
      node.(db := db, pc := if ok then node.pc.(merged := node.pc.merged + 1) else Idle)
  }

  ghost function AfterCommit(node: Node): Node
    requires node.pc.Merging?
  {
    if node.pc.prepared.None? then node.(pc := Advancing(node.pc.cursor, node.pc.next))
    else
      var (db, result) := CommitPrepared(node.db);
      node.(db := db, pc := if result.Ok? then Advancing(node.pc.cursor, node.pc.next) else Idle)
  }

  ghost function AfterAdvance(node: Node): Node
    requires node.pc.Advancing?
  {
    node.(db := AdvanceCursor(node.db, node.pc.cursor, node.pc.next).0, pc := Idle)
  }

  /** One step of a device, given the log before and after it. */
  ghost predicate NodeStep(log: seq<Record>, node: Node, step: Step, log': seq<Record>, node': Node) {
    match step
    case Mutate(_, m, physical) => log' == log && Callable(m) && node' == AfterMutation(node, m, physical)
    case Tick(_, physical) => log' == log && node' == node.(db := NextClock(node.db, physical).0)
    case Load(_) =>
      && log' == log && node.pc.Idle? && (node.db.prepared.Some? || node.db.outbox == map[])
      && node' == node.(pc := Ready(node.db.cursor, node.db.prepared))
    case Seal(_, id, nonce, size) =>
      && log' == log && node.pc.Idle? && node.db.prepared.None? && IsOldest(node.db, id) && ValidSize(size)
      && node' == node.(pc := Sealed(SealRow(node.db, node.db.outbox[id], nonce, size)))
    case Stage(_) => log' == log && node.pc.Sealed? && node' == AfterStage(node)
    case Exchange(device, response, delivered) =>
      && node.pc.Ready?
      && Handled(log, device, RequestFor(node.pc.cursor, node.pc.prepared), log', response)
      && node' == AfterExchange(node, response, delivered)
    case Merge(_, physical, interrupted) =>
      && log' == log && node.pc.Merging? && node.pc.merged < |node.pc.page|
      && node' == AfterMerge(node, physical, interrupted)
    case Commit(_) =>
      && log' == log && node.pc.Merging? && node.pc.merged == |node.pc.page|
      && node' == AfterCommit(node)
    case Advance(_) => log' == log && node.pc.Advancing? && node' == AfterAdvance(node)
    case Crash(_) => log' == log && node' == node.(pc := Idle)
  }

  ghost predicate Next(w: World, step: Step, w': World) {
    && step.device in w.nodes && step.device in w'.nodes
    && w'.nodes == w.nodes[step.device := w'.nodes[step.device]]
    && NodeStep(w.log, w.nodes[step.device], step, w'.log, w'.nodes[step.device])
  }

  /** A store that has never synced; its records either come from before the
      metadata or carry all of it. */
  ghost predicate InitNode(device: Bytes, node: Node) {
    && DatabaseOk(node.db) && node.db.device == device && node.db.outbox == map[]
    && node.db.cursor == 0 && node.db.nextSequence == 1 && node.db.previous == NoHash && node.db.prepared == None
    && node.pc == Idle && node.latest == map[]
  }

  ghost predicate Init(w: World) {
    w.log == [] && forall d <- w.nodes :: InitNode(d, w.nodes[d])
  }

  datatype Trace = Trace(worlds: seq<World>, steps: seq<Step>)

  /** A run: any number of steps of any devices in any order. */
  ghost predicate IsRun(t: Trace) {
    && |t.worlds| == |t.steps| + 1 && Init(t.worlds[0])
    && forall i {:trigger t.steps[i]} | 0 <= i < |t.steps| :: Next(t.worlds[i], t.steps[i], t.worlds[i + 1])
  }

  // --- Invariants ------------------------------------------------------------

  ghost predicate InLog(log: seq<Record>, device: Bytes, payload: Payload) {
    exists i :: 0 <= i < |log| && log[i].device == device && log[i].envelope.payload == payload
  }

  /** A sealed or staged upload: it continues the local chain and carries what
      its outbox row held at its version. */
  ghost predicate UploadOk(db: Database, u: Prepared) {
    var payload := u.envelope.payload;
    && u.sequence == u.envelope.sequence == db.nextSequence && u.envelope.previous == db.previous
    && ValidSize(u.envelope.size) && SoundPayload(payload)
    && 1 <= u.eventId && 1 <= u.version
    && payload.state.id in db.outbox
    && var row := db.outbox[payload.state.id];
       && row.eventId == u.eventId && u.version <= row.version
       && (u.version == row.version ==> PayloadOf(row.phrase) == payload)
       && Below(payload.state, row.phrase.crdt)
  }

  /** No queued update is ever lost: the last queued record of an object is its
      outbox row or is on the relay, and is below what the device holds. */
  ghost predicate QueuedOk(log: seq<Record>, device: Bytes, db: Database, latest: map<ObjectId, Phrase>, id: ObjectId) {
    && (id in db.outbox ==> id in latest && db.outbox[id].phrase == latest[id])
    && (id in latest ==>
          && latest[id].crdt.id == id
          && (id in db.outbox || InLog(log, device, PayloadOf(latest[id])))
          && OptBelow(Some(latest[id].crdt), Held(db, id)))
  }

  ghost predicate QueueOk(log: seq<Record>, device: Bytes, db: Database, latest: map<ObjectId, Phrase>) {
    forall id :: QueuedOk(log, device, db, latest, id)
  }

  /** The relay's chain ends where the checkpoint says. */
  ghost predicate Behind(chain: seq<Envelope>, device: Bytes, db: Database) {
    |chain| == db.nextSequence - 1 && HeadHash(device, chain) == db.previous
  }

  /** The relay already stored the staged upload. */
  ghost predicate Ahead(chain: seq<Envelope>, db: Database) {
    db.prepared.Some? && |chain| == db.nextSequence && 0 < |chain| && chain[|chain| - 1] == db.prepared.value.envelope
  }

  ghost predicate Lockstep(log: seq<Record>, device: Bytes, db: Database) {
    && 1 <= db.nextSequence
    && (Behind(Chain(log, device), device, db) || Ahead(Chain(log, device), db))
    && (db.prepared.Some? ==>
          UploadOk(db, db.prepared.value) && db.prepared.value.sequence < MAX_I64)
  }

  ghost predicate Holds(db: Database, r: Record) {
    OptBelow(Some(r.envelope.payload.state), Held(db, r.envelope.payload.state.id))
  }

  /** Every record at or below a cursor is already contained in the store. */
  ghost predicate Absorbed(log: seq<Record>, cursor: nat, db: Database) {
    forall i | 0 <= i < |log| && log[i].cursor <= cursor :: Holds(db, log[i])
  }

  ghost predicate PcOk(log: seq<Record>, device: Bytes, node: Node) {
    match node.pc
    case Idle => true
    case Sealed(upload) => node.db.prepared.None? && UploadOk(node.db, upload)
    case Ready(cursor, prepared) => cursor == node.db.cursor && prepared == node.db.prepared
    case Merging(cursor, prepared, page, merged, next) =>
      && cursor == node.db.cursor && prepared == node.db.prepared
      && (prepared.Some? ==> Ahead(Chain(log, device), node.db))
      && cursor <= next <= MaxCursor(log) && merged <= |page|
      && (forall i | 0 <= i < |page| :: page[i] in log && SoundPayload(page[i].envelope.payload))
      && (forall i | 0 <= i < merged :: Holds(node.db, page[i]))
      && (forall i | 0 <= i < |log| && cursor < log[i].cursor <= next :: log[i] in page)
    case Advancing(cursor, next) =>
      && cursor == node.db.cursor && cursor <= next <= MaxCursor(log)
      && Absorbed(log, next, node.db)
  }

  ghost predicate NodeOk(log: seq<Record>, device: Bytes, node: Node) {
    && node.db.device == device && DatabaseOk(node.db)
    && QueueOk(log, device, node.db, node.latest) && Lockstep(log, device, node.db)
    && node.db.cursor <= MaxCursor(log) && Absorbed(log, node.db.cursor, node.db)
    && PcOk(log, device, node)
  }

  ghost predicate LogSound(log: seq<Record>) {
    LogOk(log) && forall i | 0 <= i < |log| :: SoundPayload(log[i].envelope.payload)
  }

  ghost predicate WorldOk(w: World) {
    LogSound(w.log) && forall d <- w.nodes :: NodeOk(w.log, d, w.nodes[d])
  }
}
