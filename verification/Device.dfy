/** One device's encrypted database as a value: the phrase table, the coalescing
    outbox, the persisted clock and the sync checkpoint, and what each store
    operation does to them (localstore/store.go, crdt_adapter.go, sync_state.go).
    The class in Store.dfy performs these operations in place. */
module Device {
  import opened Order
  import opened Wrappers
  import opened Crdt
  import opened Wire

  const LEARNING_THRESHOLD := 2
  const ZERO_CLOCK := Hlc(0, 0, [])
  const ZERO_STATE := PhraseState(NoObject, map[], LwwBool(false, ZERO_CLOCK), Presence(false, ZERO_CLOCK, 0))
  const MANUAL: Bytes := [109, 97, 110, 117, 97, 108]
  const LEARNED: Bytes := [108, 101, 97, 114, 110, 101, 100]
  const TOMBSTONE: Bytes := [116, 111, 109, 98, 115, 116, 111, 110, 101]

  /** `useCount`, `pinned` and `deleted` are materialized from `crdt`; records
      written by older versions may have an empty `crdt`. */
  datatype Phrase = Phrase(text: Bytes, pinyin: Bytes, source: Bytes, useCount: u64, pinned: bool,
                           deleted: bool, lastUsedDay: int, crdt: PhraseState)

  datatype OutboxRow = OutboxRow(eventId: nat, version: nat, phrase: Phrase)

  datatype Prepared = Prepared(eventId: nat, version: nat, sequence: nat, envelope: Envelope)

  datatype Database = Database(
    device: Bytes,
    phrases: map<ObjectId, Phrase>,
    outbox: map<ObjectId, OutboxRow>,
    nextEvent: nat,
    wall: int,
    counter: u32,
    revision: nat,
    cursor: nat,
    nextSequence: nat,
    previous: Hash,
    prepared: Option<Prepared>)

  // --- Clock -----------------------------------------------------------------

  function NextClock(db: Database, physical: int): (r: (Database, Hlc)) {
    var (wall, counter: u32) :=
      if physical > db.wall then (physical, 0)
      else if db.counter >= MAX_U32 then (db.wall + 1, 0)
      else (db.wall, db.counter + 1);
    (db.(wall := wall, counter := counter), Hlc(wall, counter, db.device))
  }

  function ObserveClock(db: Database, observed: Hlc): (r: Database) {
    if observed.wall > db.wall || (observed.wall == db.wall && observed.counter > db.counter) then
      db.(wall := observed.wall, counter := observed.counter)
    else db
  }

  /** The persisted clock is at or past a reading. */
  predicate Covers(wall: int, counter: int, clock: Hlc) {
    clock.wall < wall || (clock.wall == wall && clock.counter <= counter)
  }

  /** An issued clock is later than every clock the persisted one covers,
      whatever their nodes, and is itself covered afterwards. */
  lemma IssuedClockIsLater(db: Database, physical: int, earlier: Hlc)
    requires Covers(db.wall, db.counter, earlier)
    ensures var (next, clock) := NextClock(db, physical);
            && HlcCompare(earlier, clock) < 0
            && Covers(next.wall, next.counter, earlier) && Covers(next.wall, next.counter, clock)
            && clock.node == db.device
  {
  }

  function Wrap64(n: int): (r: int) {
    if n > MAX_I64 then n - 2 * (MAX_I64 + 1) else n
  }

  /** In 64-bit arithmetic the issued clock is later than the last one exactly as long
      as the range is not used up: at the largest wall time, with the counter full and
      no later physical reading, the wall time wraps around. */
  lemma ClockNeedsHeadroom(db: Database, physical: int)
    requires -MAX_I64 - 1 <= db.wall <= MAX_I64 && -MAX_I64 - 1 <= physical <= MAX_I64
    ensures var clock := NextClock(db, physical).1;
            var wrapped := clock.(wall := Wrap64(clock.wall));
            var room := !(db.wall == MAX_I64 && db.counter == MAX_U32);
            (wrapped == clock <==> room) && (HlcCompare(Hlc(db.wall, db.counter, db.device), wrapped) < 0 <==> room)
  {
  }

  // --- Records ---------------------------------------------------------------

  ghost function Total(counts: Counts): u64 {
    Saturate(Sum(counts))
  }

  ghost function Materialize(p: Phrase): Phrase {
    p.(useCount := Total(p.crdt.counts), pinned := p.crdt.pinned.value, deleted := !p.crdt.presence.present)
  }

  /** Gives a record that lacks CRDT metadata, or part of it, complete metadata. */
  ghost function EnsureState(p: Phrase, id: ObjectId, device: Bytes, clock: Hlc): (r: Result<Phrase>) {
    if p.crdt.id != NoObject && p.crdt.id != id then Err
    else
      var s := if p.crdt.id == NoObject
               then PhraseState(id, map[], LwwBool(p.pinned, clock), Presence(!p.deleted, clock, 1))
               else p.crdt;
      CountAtMostSum(s.counts, device);
      var counts := if Total(s.counts) < p.useCount
                    then s.counts[device := Count(s.counts, device) + (p.useCount - Total(s.counts))]
                    else s.counts;
      var aged := if s.presence.generation == 0
                  then s.presence.(generation := 1, present := !p.deleted) else s.presence;
      var pinned := if s.pinned.clock == ZERO_CLOCK then LwwBool(p.pinned, clock) else s.pinned;
      var presence := if aged.clock == ZERO_CLOCK then aged.(clock := clock) else aged;
      Ok(Materialize(p.(crdt := PhraseState(id, counts, pinned, presence))))
  }

  function ObjectOf(text: Bytes, pinyin: Bytes): (r: ObjectId) {
    if text == [] || pinyin == [] then NoObject else Object(text, pinyin)
  }

  /** Writes the record and, in the same transaction, inserts or replaces its
      outbox row; replacing raises the row's version. */
  function Upsert(db: Database, id: ObjectId, p: Phrase, enqueue: bool): (r: Database) {
    var written := db.(phrases := db.phrases[id := p], revision := db.revision + 1);
    if !enqueue then written
    else if id in db.outbox then
      written.(outbox := db.outbox[id := OutboxRow(db.outbox[id].eventId, db.outbox[id].version + 1, p)])
    else
      written.(outbox := db.outbox[id := OutboxRow(db.nextEvent, 1, p)], nextEvent := db.nextEvent + 1)
  }

  function Max(a: int, b: int): int {
    if a < b then b else a
  }

  // --- Local mutations -------------------------------------------------------

  /** What a local mutation decides: refuse, keep only the clock tick, or write
      a record (and queue it). */
  datatype Decision = Refuse | Write(phrase: Phrase, enqueue: bool)

  ghost function Apply(db: Database, id: ObjectId, decision: Decision): (r: Database) {
    if decision.Write? then Upsert(db, id, decision.phrase, decision.enqueue) else db
  }

  /** The record `SaveExplicit` hands to `EnsureState`. */
  ghost function ExplicitBase(db: Database, id: ObjectId, p: Phrase): (r: Phrase) {
    var source := if p.source == [] then MANUAL else p.source;
    if id in db.phrases then
      var existing := db.phrases[id];
      existing.(text := p.text, pinyin := p.pinyin, source := source,
                lastUsedDay := Max(p.lastUsedDay, existing.lastUsedDay))
    else p.(source := source, deleted := false, crdt := ZERO_STATE)
  }

  /** Re-adds, re-pins and raises the own counter of a record with complete metadata. */
  ghost function ExplicitEdit(e: Phrase, device: Bytes, clock: Hlc, wantedPinned: bool,
                              wantedCount: u64): (r: Decision) {
    var s := e.crdt;
    if !s.presence.present && s.presence.generation == MAX_U64 then Refuse
    else
      var presence := if s.presence.present then s.presence
                      else Presence(true, clock, s.presence.generation + 1);
      var pinned := if s.pinned.value != wantedPinned then LwwBool(wantedPinned, clock) else s.pinned;
      CountAtMostSum(s.counts, device);
      if wantedCount > Total(s.counts) && MAX_U64 - Count(s.counts, device) < wantedCount - Total(s.counts) then Refuse
      else
        var counts := if wantedCount > Total(s.counts)
                      then s.counts[device := Count(s.counts, device) + (wantedCount - Total(s.counts))]
                      else s.counts;
        Write(Materialize(e.(crdt := PhraseState(s.id, counts, pinned, presence))), true)
  }

  ghost function SaveExplicitDecision(db: Database, p: Phrase, clock: Hlc): (r: Decision)
  {
    var id := ObjectOf(p.text, p.pinyin);
    match EnsureState(ExplicitBase(db, id, p), id, db.device, clock)
    case Err => Refuse
    case Ok(e) => ExplicitEdit(e, db.device, clock, p.pinned, p.useCount)
  }

  ghost function SaveExplicit(db: Database, p: Phrase, physical: int): (r: (Database, bool)) {
    var id := ObjectOf(p.text, p.pinyin);
    if id == NoObject then (db, false)
    else
      var (ticked, clock) := NextClock(db, physical);
      var decision := SaveExplicitDecision(db, p, clock);
      (Apply(ticked, id, decision), decision.Write?)
  }

  datatype LearnResult = LearnResult(recorded: bool, useCount: u64, syncEligible: bool)

  ghost function SelectionBase(db: Database, id: ObjectId, p: Phrase): (r: Phrase) {
    if id in db.phrases then db.phrases[id] else p.(source := LEARNED)
  }

  /** Counts one more use on this device; a removed phrase is left alone. */
  ghost function SelectionEdit(e: Phrase, device: Bytes, day: int): (r: Decision) {
    var s := e.crdt;
    if !s.presence.present || Count(s.counts, device) == MAX_U64 then Refuse
    else
      var counted := Materialize(e.(lastUsedDay := day,
                                    crdt := s.(counts := s.counts[device := Count(s.counts, device) + 1])));
      Write(counted, counted.useCount >= LEARNING_THRESHOLD)
  }

  ghost function SelectionDecision(db: Database, p: Phrase, clock: Hlc, day: int): (r: Decision) {
    var id := ObjectOf(p.text, p.pinyin);
    match EnsureState(SelectionBase(db, id, p), id, db.device, clock)
    case Err => Refuse
    case Ok(e) => SelectionEdit(e, db.device, day)
  }

  ghost function RecordSelection(db: Database, p: Phrase, disabled: bool, physical: int, day: int)
    : (r: (Database, Result<LearnResult>))
  {
    var id := ObjectOf(p.text, p.pinyin);
    if disabled then (db, Ok(LearnResult(false, 0, false)))
    else if id == NoObject then (db, Err)
    else
      var (ticked, clock) := NextClock(db, physical);
      match EnsureState(SelectionBase(db, id, p), id, db.device, clock)
      case Err => (ticked, Err)
      case Ok(e) =>
        var decision := SelectionEdit(e, db.device, day);
        if decision.Write? then
          (Apply(ticked, id, decision), Ok(LearnResult(true, decision.phrase.useCount, decision.enqueue)))
        else if !e.crdt.presence.present then (ticked, Ok(LearnResult(false, e.useCount, false)))
        else (ticked, Err)
  }

  ghost function DeleteBase(db: Database, id: ObjectId, text: Bytes, pinyin: Bytes): (r: Phrase) {
    if id in db.phrases then db.phrases[id]
    else Phrase(text, pinyin, TOMBSTONE, 0, false, false, 0, ZERO_STATE)
  }

  ghost function DeleteEdit(e: Phrase, clock: Hlc): (r: Decision) {
    Write(Materialize(e.(crdt := e.crdt.(presence := e.crdt.presence.(present := false, clock := clock)))), true)
  }

  ghost function DeleteDecision(db: Database, text: Bytes, pinyin: Bytes, clock: Hlc): (r: Decision) {
    var id := ObjectOf(text, pinyin);
    match EnsureState(DeleteBase(db, id, text, pinyin), id, db.device, clock)
    case Err => Refuse
    case Ok(e) => DeleteEdit(e, clock)
  }

  ghost function Delete(db: Database, text: Bytes, pinyin: Bytes, physical: int): (r: (Database, bool)) {
    var id := ObjectOf(text, pinyin);
    if id == NoObject then (db, false)
    else
      var (ticked, clock) := NextClock(db, physical);
      var decision := DeleteDecision(db, text, pinyin, clock);
      (Apply(ticked, id, decision), decision.Write?)
  }

  // --- Remote payloads -------------------------------------------------------

  function ChooseStableString(left: Bytes, right: Bytes): (r: Bytes) {
    if left == [] then right
    else if right == [] || Compare(left, right) <= 0 then left
    else right
  }

  function JoinPayload(left: Payload, right: Payload): (r: Payload) {
    Payload(ChooseStableString(left.text, right.text), ChooseStableString(left.pinyin, right.pinyin),
            ChooseStableString(left.source, right.source), Max(left.lastUsedDay, right.lastUsedDay),
            Join(left.state, right.state))
  }

  function MergePayload(left: Payload, right: Payload): (r: Result<Payload>) {
    if Mergeable(left.state, right.state) then Ok(JoinPayload(left, right)) else Err
  }

  predicate ValidCounters(counts: Counts) {
    forall d <- counts :: ValidDeviceId(d)
  }

  /** The checks a payload passes before it is stored. */
  predicate ValidPayload(p: Payload) {
    && ObjectOf(p.text, p.pinyin) != NoObject
    && p.state.id == ObjectOf(p.text, p.pinyin)
    && p.state.presence.generation != 0
    && ValidCounters(p.state.counts)
    && ValidDeviceId(p.state.pinned.clock.node)
    && ValidDeviceId(p.state.presence.clock.node)
  }

  function PayloadOf(p: Phrase): (r: Payload) {
    Payload(p.text, p.pinyin, p.source, p.lastUsedDay, p.crdt)
  }

  function PhraseOf(p: Payload): (r: Phrase) {
    Phrase(p.text, p.pinyin, p.source, 0, false, false, p.lastUsedDay, p.state)
  }

  function LatestClock(s: PhraseState): (r: Hlc) {
    if HlcCompare(s.pinned.clock, s.presence.clock) < 0 then s.presence.clock else s.pinned.clock
  }

  /** The stored record a payload is merged with, its metadata completed first
      when there is none; completing it costs a clock tick. */
  ghost function MergeBase(db: Database, id: ObjectId, physical: int): (r: (Database, Result<Phrase>))
    requires id in db.phrases
  {
    var existing := db.phrases[id];
    if existing.crdt.id == NoObject then
      var (ticked, clock) := NextClock(db, physical);
      (ticked, EnsureState(existing, id, db.device, clock))
    else (db, Ok(existing))
  }

  /** The payload that replaces the stored one, or a refusal. */
  ghost function MergedPayload(db: Database, payload: Payload, physical: int): (r: Result<Payload>) {
    if payload.state.id !in db.phrases then Ok(payload)
    else
      match MergeBase(db, payload.state.id, physical).1
      case Err => Err
      case Ok(existing) => MergePayload(PayloadOf(existing), payload)
  }

  ghost function MergeTicked(db: Database, payload: Payload, physical: int): (r: Database) {
    if payload.state.id !in db.phrases then db else MergeBase(db, payload.state.id, physical).0
  }

  /** Two transactions: observe the merged clocks, then write the record. */
  ghost function MergeObserved(db: Database, payload: Payload, physical: int): (r: Database) {
    match MergedPayload(db, payload, physical)
    case Err => MergeTicked(db, payload, physical)
    case Ok(merged) =>
      if ValidPayload(merged) then ObserveClock(MergeTicked(db, payload, physical), LatestClock(merged.state))
      else MergeTicked(db, payload, physical)
  }

  ghost function MergeRemote(db: Database, payload: Payload, physical: int): (r: (Database, bool)) {
    if !ValidPayload(payload) then (db, false)
    else
      match MergedPayload(db, payload, physical)
      case Err => (MergeTicked(db, payload, physical), false)
      case Ok(merged) =>
        if !ValidPayload(merged) then (MergeTicked(db, payload, physical), false)
        else
          (Upsert(MergeObserved(db, payload, physical), payload.state.id, Materialize(PhraseOf(merged)), false), true)
  }

  // --- Checkpoint ------------------------------------------------------------

  /** The oldest outbox row, as `PendingEvents` with limit one selects it. */
  ghost predicate IsOldest(db: Database, id: ObjectId) {
    id in db.outbox && forall o <- db.outbox :: db.outbox[id].eventId <= db.outbox[o].eventId
  }

  predicate HasRow(db: Database, eventId: nat, version: nat) {
    exists o :: o in db.outbox && db.outbox[o].eventId == eventId && db.outbox[o].version == version
  }

  ghost function SavePrepared(db: Database, upload: Prepared): (r: (Database, bool)) {
    if upload.eventId < 1 || upload.version < 1 || upload.sequence < 1
       || upload.version > MAX_I64 || upload.sequence >= MAX_I64 then (db, false)
    else if db.prepared.Some? then (db, db.prepared.value == upload)
    else if db.nextSequence != upload.sequence then (db, false)
    else if !HasRow(db, upload.eventId, upload.version) then (db, false)
    else (db.(prepared := Some(upload)), true)
  }

  /** Removes exactly the row that was sent; a newer version stays queued. */
  function Acknowledge(outbox: map<ObjectId, OutboxRow>, eventId: nat, version: nat): (r: map<ObjectId, OutboxRow>) {
    map o | o in outbox && !(outbox[o].eventId == eventId && outbox[o].version == version) :: outbox[o]
  }

  ghost function CommitPrepared(db: Database): (r: (Database, Result<bool>)) {
    if db.prepared.None? then (db, Err)
    else
      var p := db.prepared.value;
      if p.eventId < 1 || p.version < 1 || p.sequence < 1 || p.sequence >= MAX_I64 then (db, Err)
      else
        (db.(outbox := Acknowledge(db.outbox, p.eventId, p.version), nextSequence := p.sequence + 1,
             previous := RecordHash(db.device, p.envelope), prepared := None),
         Ok(HasRow(db, p.eventId, p.version)))
  }

  function AdvanceCursor(db: Database, expected: nat, next: nat): (r: (Database, bool)) {
    if next < expected || db.cursor != expected then (db, false)
    else (db.(cursor := next), true)
  }
}
