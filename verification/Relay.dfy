/** The append-only relay of one account: an upload batch is sorted, cleaned of
    duplicates and chained per device, then one page after the caller's cursor
    is returned (`syncEnvelopes` in sync/internal/server/server.go). Cursors are
    assigned strictly increasing in commit order. */
module Relay {
  import opened Order
  import opened Wrappers
  import opened Wire

  const MAX_UPLOAD_BATCH := 256
  const DEFAULT_SYNC_LIMIT := 256
  const MAXIMUM_SYNC_LIMIT := 256
  const MAX_DOWNLOAD_BYTES := MAX_CIPHERTEXT

  datatype Record = Record(cursor: nat, device: Bytes, envelope: Envelope)

  datatype Code = SequenceConflict | SequenceGap | PreviousHashMismatch

  datatype Rejection = Rejection(sequence: nat, code: Code)

  datatype Request = Request(cursor: int, ackCursor: int, limit: int, envelopes: seq<Envelope>)

  datatype Response = Response(accepted: seq<nat>, rejected: seq<Rejection>, page: seq<Record>, nextCursor: nat,
                               hasMore: bool)

  // --- The stored chains -----------------------------------------------------

  /** One device's records in commit order. */
  ghost function Chain(log: seq<Record>, device: Bytes): (r: seq<Envelope>) {
    if log == [] then []
    else
      var rest := Chain(log[..|log| - 1], device);
      var last := log[|log| - 1];
      if last.device == device then rest + [last.envelope] else rest
  }

  ghost function HeadHash(device: Bytes, chain: seq<Envelope>): (r: Hash) {
    if chain == [] then NoHash else RecordHash(device, chain[|chain| - 1])
  }

  /** Sequences are exactly 1..n and every record names its predecessor's hash. */
  ghost predicate Linked(device: Bytes, chain: seq<Envelope>) {
    chain == [] ||
    var rest, last := chain[..|chain| - 1], chain[|chain| - 1];
    Linked(device, rest) && last.sequence == |chain| && last.previous == HeadHash(device, rest)
  }

  ghost predicate Increasing(log: seq<Record>) {
    forall i, j | 0 <= i < j < |log| :: log[i].cursor < log[j].cursor
  }

  ghost predicate LogOk(log: seq<Record>) {
    && Increasing(log)
    && (forall i | 0 <= i < |log| :: 1 <= log[i].cursor && ValidEnvelope(log[i].envelope))
    && (forall d :: Linked(d, Chain(log, d)))
  }

  function MaxCursor(log: seq<Record>): (r: nat) {
    if log == [] then 0 else log[|log| - 1].cursor
  }

  /** SELECT record_hash WHERE device_id AND device_seq. */
  function Find(log: seq<Record>, device: Bytes, sequence: nat): (r: Option<Envelope>) {
    if log == [] then None
    else
      var last := log[|log| - 1];
      if last.device == device && last.envelope.sequence == sequence then Some(last.envelope)
      else Find(log[..|log| - 1], device, sequence)
  }

  /** SELECT ... ORDER BY device_seq DESC LIMIT 1. */
  function Newest(log: seq<Record>, device: Bytes): (r: Option<Envelope>) {
    if log == [] then None
    else
      var last := log[|log| - 1];
      var rest := Newest(log[..|log| - 1], device);
      if last.device == device && (rest.None? || rest.value.sequence < last.envelope.sequence) then Some(last.envelope)
      else rest
  }

  lemma ChainAppend(log: seq<Record>, r: Record, device: Bytes)
    ensures Chain(log + [r], device) == if r.device == device then Chain(log, device) + [r.envelope]
              else Chain(log, device)
  {
    assert (log + [r])[..|log|] == log;
  }

  lemma {:induction false} ChainMember(log: seq<Record>, device: Bytes, e: Envelope)
    ensures e in Chain(log, device) <==> exists i :: 0 <= i < |log| && log[i].device == device && log[i].envelope == e
  {
    if log != [] {
      var n := |log| - 1;
      ChainMember(log[..n], device, e);
      if e in Chain(log, device) {
        if log[n].device == device && log[n].envelope == e {
        } else {
          var i :| 0 <= i < n && log[..n][i].device == device && log[..n][i].envelope == e;
          assert log[i].device == device && log[i].envelope == e;
        }
      }
      if i :| 0 <= i < |log| && log[i].device == device && log[i].envelope == e {
        if i < n {
          assert log[..n][i].device == device && log[..n][i].envelope == e;
        }
      }
    }
  }

  lemma {:induction false} LinkedAt(device: Bytes, chain: seq<Envelope>, i: nat)
    requires i < |chain| && Linked(device, chain)
    ensures chain[i].sequence == i + 1 && chain[i].previous == HeadHash(device, chain[..i])
  {
    var n := |chain| - 1;
    if i < n {
      LinkedAt(device, chain[..n], i);
      assert chain[..n][..i] == chain[..i];
    }
  }

  /** The two table queries read the chain. */
  lemma {:induction false} QueriesReadChain(log: seq<Record>, device: Bytes, sequence: nat)
    requires Linked(device, Chain(log, device))
    ensures var chain := Chain(log, device);
            && Find(log, device, sequence) == (if 1 <= sequence <= |chain| then Some(chain[sequence - 1]) else None)
            && Newest(log, device) == (if chain == [] then None else Some(chain[|chain| - 1]))
            && (chain != [] ==> chain[|chain| - 1].sequence == |chain|)
  {
    if log != [] {
      var chain := Chain(log, device);
      var rest := Chain(log[..|log| - 1], device);
      if log[|log| - 1].device == device {
        assert rest == chain[..|chain| - 1];
      }
      QueriesReadChain(log[..|log| - 1], device, sequence);
    }
  }

  lemma LinkedAppend(device: Bytes, chain: seq<Envelope>, e: Envelope)
    requires Linked(device, chain)
    requires e.sequence == |chain| + 1 && e.previous == HeadHash(device, chain)
    ensures Linked(device, chain + [e])
  {
    assert (chain + [e])[..|chain|] == chain;
  }

  lemma InsertKeepsLog(log: seq<Record>, r: Record)
    requires LogOk(log) && MaxCursor(log) < r.cursor && ValidEnvelope(r.envelope)
    requires r.envelope.sequence == |Chain(log, r.device)| + 1
    requires r.envelope.previous == HeadHash(r.device, Chain(log, r.device))
    ensures LogOk(log + [r])
  {
    forall d ensures Linked(d, Chain(log + [r], d)) {
      ChainAppend(log, r, d);
      assert Linked(d, Chain(log, d));
      if d == r.device {
        LinkedAppend(d, Chain(log, d), r.envelope);
      }
    }
    forall i | 0 <= i < |log| ensures log[i].cursor < r.cursor {
      assert log[i].cursor <= MaxCursor(log);
    }
  }

  // --- Batches ---------------------------------------------------------------

  function InsertSorted(e: Envelope, es: seq<Envelope>): (r: seq<Envelope>) {
    if es == [] || e.sequence <= es[0].sequence then [e] + es else [es[0]] + InsertSorted(e, es[1..])
  }

  /** Stable sort by device sequence. */
  function SortBatch(es: seq<Envelope>): (r: seq<Envelope>) {
    if es == [] then [] else InsertSorted(es[0], SortBatch(es[1..]))
  }

  ghost predicate Ascending(es: seq<Envelope>) {
    forall i, j | 0 <= i < j < |es| :: es[i].sequence <= es[j].sequence
  }

  ghost predicate StrictlyAscending(es: seq<Envelope>) {
    forall i, j | 0 <= i < j < |es| :: es[i].sequence < es[j].sequence
  }

  lemma {:induction false} InsertSortedLaw(e: Envelope, es: seq<Envelope>)
    requires Ascending(es)
    ensures Ascending(InsertSorted(e, es)) && multiset(InsertSorted(e, es)) == multiset(es) + multiset{e}
  {
    if es != [] && e.sequence > es[0].sequence {
      InsertSortedLaw(e, es[1..]);
      assert es == [es[0]] + es[1..];
      var rest := InsertSorted(e, es[1..]);
      forall i | 0 <= i < |rest| ensures es[0].sequence <= rest[i].sequence {
        assert rest[i] in multiset(rest);
        assert rest[i] == e || rest[i] in es[1..];
      }
    }
  }

  lemma {:induction false} SortBatchLaw(es: seq<Envelope>)
    ensures Ascending(SortBatch(es)) && multiset(SortBatch(es)) == multiset(es)
    ensures forall e :: e in SortBatch(es) <==> e in es
  {
    if es != [] {
      SortBatchLaw(es[1..]);
      InsertSortedLaw(es[0], SortBatch(es[1..]));
      assert es == [es[0]] + es[1..];
    }
    SameMultisetSameMembers(SortBatch(es), es);
  }

  lemma SameMultisetSameMembers(a: seq<Envelope>, b: seq<Envelope>)
    requires multiset(a) == multiset(b)
    ensures forall e :: e in a <==> e in b
  {
    forall e ensures e in a <==> e in b {
      assert e in a <==> e in multiset(a);
      assert e in b <==> e in multiset(b);
    }
  }

  ghost function Members(es: seq<Envelope>): (r: set<Envelope>) {
    set e | e in es
  }

  ghost predicate Agreed(batch: set<Envelope>, e: Envelope) {
    e in batch && forall f <- batch :: f.sequence == e.sequence ==> f == e
  }

  ghost predicate Disputed(batch: set<Envelope>, sequence: nat) {
    exists e, f :: e in batch && f in batch && e.sequence == f.sequence == sequence && e != f
  }

  /** One envelope for every sequence whose copies agree. */
  ghost predicate UniqueOk(batch: set<Envelope>, unique: seq<Envelope>) {
    StrictlyAscending(unique) && forall e :: e in unique <==> Agreed(batch, e)
  }

  /** One conflict for every other sequence. */
  ghost predicate ConflictsOk(batch: set<Envelope>, conflicts: seq<Rejection>) {
    && (forall i, j | 0 <= i < j < |conflicts| :: conflicts[i].sequence < conflicts[j].sequence)
    && (forall r :: r in conflicts <==> r.code == SequenceConflict && Disputed(batch, r.sequence))
  }

  /** What the duplicate scan of a batch leaves. */
  ghost predicate Deduplicated(batch: set<Envelope>, unique: seq<Envelope>, conflicts: seq<Rejection>) {
    UniqueOk(batch, unique) && ConflictsOk(batch, conflicts)
  }

  lemma UniqueStep(a: set<Envelope>, g: set<Envelope>, e0: Envelope, unique: seq<Envelope>)
    requires UniqueOk(a, unique) && e0 in g
    requires (forall e <- g :: e.sequence == e0.sequence) && (forall e <- a :: e.sequence < e0.sequence)
    ensures g == {e0} ==> UniqueOk(a + g, unique + [e0])
    ensures g != {e0} ==> UniqueOk(a + g, unique)
  {
    forall e ensures Agreed(a + g, e) <==> Agreed(a, e) || (e == e0 && g == {e0}) {
      if Agreed(a + g, e) && e in g {
        assert e == e0;
        assert g == {e0};
      }
    }
    forall i | 0 <= i < |unique| ensures unique[i].sequence < e0.sequence {
      assert unique[i] in unique;
      assert Agreed(a, unique[i]);
    }
  }

  lemma ConflictStep(a: set<Envelope>, g: set<Envelope>, e0: Envelope, conflicts: seq<Rejection>)
    requires ConflictsOk(a, conflicts) && e0 in g
    requires (forall e <- g :: e.sequence == e0.sequence) && (forall e <- a :: e.sequence < e0.sequence)
    ensures g == {e0} ==> ConflictsOk(a + g, conflicts)
    ensures g != {e0} ==> ConflictsOk(a + g, conflicts + [Rejection(e0.sequence, SequenceConflict)])
  {
    forall t: nat ensures Disputed(a + g, t) <==> Disputed(a, t) || (t == e0.sequence && g != {e0}) {
      if g != {e0} {
        var f :| f in g && f != e0;
        assert f in a + g && e0 in a + g;
      }
      if e, f :| e in a && f in a && e.sequence == f.sequence == t && e != f {
        assert e in a + g && f in a + g;
      }
    }
    forall i | 0 <= i < |conflicts| ensures conflicts[i].sequence < e0.sequence {
      assert conflicts[i] in conflicts;
      var e :| e in a && e.sequence == conflicts[i].sequence;
    }
  }

  /** The end of the group of equal sequences that starts at `start`. */
  method ScanGroup(device: Bytes, sorted: seq<Envelope>, start: nat) returns (end: nat, conflict: bool)
    requires start < |sorted| && Ascending(sorted)
    ensures start < end <= |sorted|
    ensures forall k | start <= k < end :: sorted[k].sequence == sorted[start].sequence
    ensures end < |sorted| ==> sorted[start].sequence < sorted[end].sequence
    ensures conflict <==> Members(sorted[start..end]) != {sorted[start]}
  {
    end, conflict := start + 1, false;
    while end < |sorted| && sorted[end].sequence == sorted[start].sequence
      invariant start < end <= |sorted|
      invariant forall k | start <= k < end :: sorted[k].sequence == sorted[start].sequence
      invariant conflict <==> exists k :: start <= k < end && sorted[k] != sorted[start]
    {
      if RecordHash(device, sorted[end]) != RecordHash(device, sorted[start]) {
        conflict := true;
      }
      end := end + 1;
    }
    ghost var group := sorted[start..end];
    assert group[0] == sorted[start];
    if conflict {
      ghost var k :| start <= k < end && sorted[k] != sorted[start];
      assert group[k - start] in Members(group);
    } else {
      assert forall k | 0 <= k < |group| :: group[k] == sorted[start];
    }
  }

  method Deduplicate(device: Bytes, sorted: seq<Envelope>) returns (unique: seq<Envelope>, conflicts: seq<Rejection>)
    requires Ascending(sorted)
    ensures Deduplicated(Members(sorted), unique, conflicts)
  {
    unique, conflicts := [], [];
    var start := 0;
    while start < |sorted|
      invariant 0 <= start <= |sorted|
      invariant 0 < start < |sorted| ==> sorted[start - 1].sequence < sorted[start].sequence
      invariant Deduplicated(Members(sorted[..start]), unique, conflicts)
    {
      var end, conflict := ScanGroup(device, sorted, start);
      ghost var a, g := Members(sorted[..start]), Members(sorted[start..end]);
      assert Members(sorted[..end]) == a + g by {
        assert sorted[..end] == sorted[..start] + sorted[start..end];
      }
      assert sorted[start] in g by { assert sorted[start..end][0] == sorted[start]; }
      UniqueStep(a, g, sorted[start], unique);
      ConflictStep(a, g, sorted[start], conflicts);
      if conflict {
        conflicts := conflicts + [Rejection(sorted[start].sequence, SequenceConflict)];
      } else {
        unique := unique + [sorted[start]];
      }
      start := end;
    }
    assert sorted[..start] == sorted;
  }

  // --- Verdicts --------------------------------------------------------------

  datatype Verdict = Accepted | Rejected(code: Code)

  /** The relay's answer to an upload, read off the device's final chain. */
  ghost function VerdictOf(chain: seq<Envelope>, e: Envelope): (r: Verdict) {
    if 1 <= e.sequence <= |chain| then
      if chain[e.sequence - 1] == e then Accepted else Rejected(SequenceConflict)
    else if e.sequence == |chain| + 1 then Rejected(PreviousHashMismatch)
    else Rejected(SequenceGap)
  }

  ghost function AcceptedOf(chain: seq<Envelope>, es: seq<Envelope>): (r: seq<nat>) {
    if es == [] then []
    else
      var last := es[|es| - 1];
      AcceptedOf(chain, es[..|es| - 1]) + (if VerdictOf(chain, last).Accepted? then [last.sequence] else [])
  }

  ghost function RejectedOf(chain: seq<Envelope>, es: seq<Envelope>): (r: seq<Rejection>) {
    if es == [] then []
    else
      var last := es[|es| - 1];
      var verdict := VerdictOf(chain, last);
      RejectedOf(chain, es[..|es| - 1]) + (if verdict.Rejected? then [Rejection(last.sequence, verdict.code)] else [])
  }

  ghost predicate Extends(device: Bytes, chain: seq<Envelope>, e: Envelope) {
    e.sequence == |chain| + 1 && e.previous == HeadHash(device, chain)
  }

  /** The chain grew by uploads of the batch, as far as the batch allows. */
  ghost predicate ChainGrew(device: Bytes, unique: seq<Envelope>, was: seq<Envelope>, now: seq<Envelope>) {
    && was <= now
    && (forall i | |was| <= i < |now| :: now[i] in unique)
    && (forall e <- unique :: !Extends(device, now, e))
  }

  /** The log after a batch: only this device's chain grew. */
  ghost predicate Uploaded(before: seq<Record>, device: Bytes, unique: seq<Envelope>, after: seq<Record>) {
    && LogOk(after) && before <= after
    && (forall i | |before| <= i < |after| :: after[i].device == device)
    && ChainGrew(device, unique, Chain(before, device), Chain(after, device))
  }

  lemma {:induction false} VerdictsSurviveGrowth(chain: seq<Envelope>, e: Envelope, es: seq<Envelope>)
    requires forall f <- es :: 1 <= f.sequence <= |chain|
    ensures AcceptedOf(chain + [e], es) == AcceptedOf(chain, es)
    ensures RejectedOf(chain + [e], es) == RejectedOf(chain, es)
  {
    if es != [] {
      assert es[|es| - 1] in es;
      VerdictsSurviveGrowth(chain, e, es[..|es| - 1]);
    }
  }

  /** Answers one upload. The conflict below the newest sequence, which the
      source guards against, cannot happen: it would need a stored chain with a
      hole. */
  method Judge(log: seq<Record>, device: Bytes, e: Envelope) returns (verdict: Verdict, insert: bool)
    requires Linked(device, Chain(log, device)) && 1 <= e.sequence
    ensures insert <==> Extends(device, Chain(log, device), e)
    ensures verdict == if insert then Accepted else VerdictOf(Chain(log, device), e)
  {
    QueriesReadChain(log, device, e.sequence);
    var existing := Find(log, device, e.sequence);
    if existing.Some? {
      return if RecordHash(device, existing.value) == RecordHash(device, e) then Accepted
               else Rejected(SequenceConflict), false;
    }
    var newest := Newest(log, device);
    var lastSequence := if newest.None? then 0 else newest.value.sequence;
    var lastHash := if newest.None? then NoHash else RecordHash(device, newest.value);
    if e.sequence != lastSequence + 1 {
      return Rejected(if e.sequence <= lastSequence then SequenceConflict else SequenceGap), false;
    }
    if e.previous != lastHash {
      return Rejected(PreviousHashMismatch), false;
    }
    return Accepted, true;
  }

  /** The answers so far stand when the next upload extends the chain. */
  lemma VerdictStep(device: Bytes, unique: seq<Envelope>, i: nat, chain: seq<Envelope>, next: seq<Envelope>)
    requires StrictlyAscending(unique) && i < |unique| && forall e <- unique :: ValidEnvelope(e)
    requires next == (if Extends(device, chain, unique[i]) then chain + [unique[i]] else chain)
    ensures var verdict := VerdictOf(next, unique[i]);
            && AcceptedOf(next, unique[..i + 1])
               == AcceptedOf(chain, unique[..i]) + (if verdict.Accepted? then [unique[i].sequence] else [])
            && RejectedOf(next, unique[..i + 1])
               == RejectedOf(chain, unique[..i]) + (if verdict.Rejected?
                                                      then [Rejection(unique[i].sequence, verdict.code)] else [])
  {
    assert unique[..i + 1][..i] == unique[..i];
    if Extends(device, chain, unique[i]) {
      forall f | f in unique[..i] ensures 1 <= f.sequence <= |chain| {
        assert f in unique;
        var k :| 0 <= k < i && unique[k] == f;
      }
      VerdictsSurviveGrowth(chain, unique[i], unique[..i]);
    }
  }

  lemma ChainStep(device: Bytes, unique: seq<Envelope>, i: nat, was: seq<Envelope>, chain: seq<Envelope>,
                  next: seq<Envelope>)
    requires StrictlyAscending(unique) && i < |unique|
    requires ChainGrew(device, unique[..i], was, chain)
    requires next == (if Extends(device, chain, unique[i]) then chain + [unique[i]] else chain)
    ensures ChainGrew(device, unique[..i + 1], was, next)
  {
    assert unique[..i + 1] == unique[..i] + [unique[i]];
    if Extends(device, chain, unique[i]) {
      forall e | e in unique[..i + 1] ensures !Extends(device, next, e) {
        var k :| 0 <= k <= i && unique[k] == e;
        assert e.sequence <= unique[i].sequence;
      }
    }
  }

  /** New records get the next cursors, one by one. */
  ghost predicate Assigned(before: seq<Record>, last: nat, log: seq<Record>) {
    before <= log && forall k | |before| <= k < |log| :: log[k].cursor == last + 1 + k - |before|
  }

  lemma AssignedOn(before: seq<Record>, last: nat, mid: seq<Record>, next: nat, log: seq<Record>)
    requires Assigned(before, last, mid) && Assigned(mid, next, log) && next == last + |mid| - |before|
    ensures Assigned(before, last, log)
  {
    forall k | |before| <= k < |log| ensures log[k].cursor == last + 1 + k - |before| {
      if k < |mid| { assert log[k] == mid[k]; }
    }
  }

  /** Judges one upload and stores it if it extends the chain. */
  method UploadOne(before: seq<Record>, lastCursor: nat, device: Bytes, e: Envelope)
    returns (log: seq<Record>, cursor: nat, verdict: Verdict)
    requires LogOk(before) && MaxCursor(before) <= lastCursor && ValidEnvelope(e)
    ensures LogOk(log) && MaxCursor(log) <= cursor && Assigned(before, lastCursor, log) &&
            cursor == lastCursor + |log| - |before|
    ensures before <= log && forall k | |before| <= k < |log| :: log[k].device == device
    ensures var chain := Chain(before, device);
            Chain(log, device) == if Extends(device, chain, e) then chain + [e] else chain
    ensures verdict == VerdictOf(Chain(log, device), e)
  {
    log, cursor := before, lastCursor;
    assert Linked(device, Chain(log, device));
    var insert;
    verdict, insert := Judge(log, device, e);
    if insert {
      cursor := cursor + 1;
      InsertKeepsLog(log, Record(cursor, device, e));
      ChainAppend(log, Record(cursor, device, e), device);
      log := log + [Record(cursor, device, e)];
    }
  }

  /** The first `i` uploads of a batch have been handled. */
  ghost predicate Uploading(before: seq<Record>, last: nat, device: Bytes, unique: seq<Envelope>, i: nat,
                            log: seq<Record>, cursor: nat, accepted: seq<nat>, late: seq<Rejection>)
    requires i <= |unique|
  {
    && Uploaded(before, device, unique[..i], log)
    && MaxCursor(log) <= cursor && Assigned(before, last, log) && cursor == last + |log| - |before|
    && accepted == AcceptedOf(Chain(log, device), unique[..i])
    && late == RejectedOf(Chain(log, device), unique[..i])
  }

  lemma UploadStep(before: seq<Record>, last: nat, device: Bytes, unique: seq<Envelope>, i: nat, log: seq<Record>,
                   cursor: nat, accepted: seq<nat>, late: seq<Rejection>, log': seq<Record>, cursor': nat)
    requires StrictlyAscending(unique) && i < |unique| && forall e <- unique :: ValidEnvelope(e)
    requires Uploading(before, last, device, unique, i, log, cursor, accepted, late)
    requires LogOk(log') && MaxCursor(log') <= cursor' && Assigned(log, cursor, log')
    requires cursor' == cursor + |log'| - |log| && forall k | |log| <= k < |log'| :: log'[k].device == device
    requires var chain := Chain(log, device);
             Chain(log', device) == if Extends(device, chain, unique[i]) then chain + [unique[i]] else chain
    ensures var verdict := VerdictOf(Chain(log', device), unique[i]);
            Uploading(before, last, device, unique, i + 1, log', cursor',
                      accepted + (if verdict.Accepted? then [unique[i].sequence] else []),
                      late + (if verdict.Rejected? then [Rejection(unique[i].sequence, verdict.code)] else []))
  {
    AssignedOn(before, last, log, cursor, log');
    VerdictStep(device, unique, i, Chain(log, device), Chain(log', device));
    ChainStep(device, unique, i, Chain(before, device), Chain(log, device), Chain(log', device));
    forall k | |before| <= k < |log'| ensures log'[k].device == device {
      if k < |log| { assert log'[k] == log[k]; }
    }
  }

  method Upload(before: seq<Record>, lastCursor: nat, device: Bytes, unique: seq<Envelope>, conflicts: seq<Rejection>)
    returns (log: seq<Record>, cursor: nat, accepted: seq<nat>, rejected: seq<Rejection>)
    requires LogOk(before) && MaxCursor(before) <= lastCursor && StrictlyAscending(unique)
    requires forall e <- unique :: ValidEnvelope(e)
    ensures Uploaded(before, device, unique, log)
    ensures MaxCursor(log) <= cursor && Assigned(before, lastCursor, log) && cursor == lastCursor + |log| - |before|
    ensures accepted == AcceptedOf(Chain(log, device), unique)
    ensures rejected == conflicts + RejectedOf(Chain(log, device), unique)
  {
    log, cursor, accepted, rejected := before, lastCursor, [], conflicts;
    ghost var late := [];
    for i := 0 to |unique|
      invariant Uploading(before, lastCursor, device, unique, i, log, cursor, accepted, late)
      invariant rejected == conflicts + late
    {
      var e := unique[i];
      assert e in unique;
      ghost var was, last := log, cursor;
      var verdict;
      log, cursor, verdict := UploadOne(log, cursor, device, e);
      UploadStep(before, lastCursor, device, unique, i, was, last, accepted, late, log, cursor);
      if verdict.Accepted? {
        accepted := accepted + [e.sequence];
      } else {
        late := late + [Rejection(e.sequence, verdict.code)];
        rejected := rejected + [Rejection(e.sequence, verdict.code)];
      }
    }
    assert unique[..|unique|] == unique;
  }

  // --- Pages -----------------------------------------------------------------

  /** SELECT ... WHERE cursor > ? ORDER BY cursor. */
  function Rows(log: seq<Record>, cursor: int): (r: seq<Record>) {
    if log == [] then []
    else if log[0].cursor > cursor then [log[0]] + Rows(log[1..], cursor)
    else Rows(log[1..], cursor)
  }

  ghost function TotalSize(rows: seq<Record>): (r: nat) {
    if rows == [] then 0 else TotalSize(rows[..|rows| - 1]) + rows[|rows| - 1].envelope.size
  }

  /** A page is the longest prefix of the remaining rows within the row and byte
      limits, and says whether anything is left. */
  ghost predicate IsPage(rows: seq<Record>, limit: int, page: seq<Record>, hasMore: bool) {
    && page <= rows && |page| <= limit && TotalSize(page) <= MAX_DOWNLOAD_BYTES
    && (hasMore <==> |page| < |rows|)
    && (|page| < |rows| ==> |page| == limit || (0 < |page| && TotalSize(rows[..|page| + 1]) > MAX_DOWNLOAD_BYTES))
  }

  method BuildPage(rows: seq<Record>, limit: nat) returns (page: seq<Record>, hasMore: bool)
    requires 1 <= limit && forall r <- rows :: ValidSize(r.envelope.size)
    ensures IsPage(rows, limit, page, hasMore)
  {
    var fetched := if |rows| > limit + 1 then rows[..limit + 1] else rows;
    page, hasMore := [], false;
    var downloadBytes := 0;
    for i := 0 to |fetched|
      invariant page == rows[..i] && i <= limit && downloadBytes == TotalSize(page) <= MAX_DOWNLOAD_BYTES && !hasMore
    {
      var row := fetched[i];
      assert row == rows[i] && row in rows;
      assert rows[..i + 1][..i] == rows[..i];
      if |page| >= limit || (|page| > 0 && downloadBytes + row.envelope.size > MAX_DOWNLOAD_BYTES) {
        hasMore := true;
        return;
      }
      page := page + [row];
      downloadBytes := downloadBytes + row.envelope.size;
    }
  }

  // --- One request -----------------------------------------------------------

  function Limit(request: Request): int {
    if request.limit == 0 then DEFAULT_SYNC_LIMIT else request.limit
  }

  predicate WellFormed(request: Request) {
    && 0 <= request.cursor && 0 <= request.ackCursor && |request.envelopes| <= MAX_UPLOAD_BATCH
    && 1 <= Limit(request) <= MAXIMUM_SYNC_LIMIT
    && forall i :: 0 <= i < |request.envelopes| ==> ValidEnvelope(request.envelopes[i])
  }

  /** What one answered request does to the log and says about it. */
  ghost predicate Handled(before: seq<Record>, device: Bytes, request: Request, after: seq<Record>,
                          response: Response) {
    exists unique, conflicts ::
      && Deduplicated(Members(request.envelopes), unique, conflicts)
      && Answered(before, device, request, unique, conflicts, after, response)
  }

  ghost predicate Answered(before: seq<Record>, device: Bytes, request: Request, unique: seq<Envelope>,
                           conflicts: seq<Rejection>, after: seq<Record>, response: Response) {
    && Uploaded(before, device, unique, after)
    && response.accepted == AcceptedOf(Chain(after, device), unique)
    && response.rejected == conflicts + RejectedOf(Chain(after, device), unique)
    && IsPage(Rows(after, request.cursor), Limit(request), response.page, response.hasMore)
    && response.nextCursor == (if response.page == [] then request.cursor
                                 else response.page[|response.page| - 1].cursor)
  }

  /** The log that the batch of a request leads to, with the cursors it would assign. */
  ghost predicate LeadsTo(before: seq<Record>, last: nat, device: Bytes, request: Request, after: seq<Record>) {
    && Assigned(before, last, after)
    && exists unique, conflicts ::
         Deduplicated(Members(request.envelopes), unique, conflicts) && Uploaded(before, device, unique, after)
  }

  lemma {:induction false} RowsOfLater(log: seq<Record>, cursor: int)
    requires forall r <- log :: r.cursor > cursor
    ensures Rows(log, cursor) == log
  {
    if log != [] {
      assert log[0] in log;
      RowsOfLater(log[1..], cursor);
    }
  }

  /** The rows after a cursor are a suffix of the log: all and only the records
      past the cursor, in order. */
  lemma {:induction false} RowsLaw(log: seq<Record>, cursor: int)
    requires Increasing(log)
    ensures var rows := Rows(log, cursor);
            |rows| <= |log| && rows == log[|log| - |rows|..]
            && forall i | 0 <= i < |log| :: i < |log| - |rows| <==> log[i].cursor <= cursor
  {
    if log != [] {
      if log[0].cursor > cursor {
        assert forall r <- log :: r.cursor > cursor;
        RowsOfLater(log, cursor);
      } else {
        RowsLaw(log[1..], cursor);
        assert forall i | 1 <= i < |log| :: log[i] == log[1..][i - 1];
      }
    }
  }

  class Table {
    var log: seq<Record>
    var lastCursor: nat

    ghost predicate Valid()
      reads this
    {
      LogOk(log) && MaxCursor(log) <= lastCursor
    }

    /** The whole request runs in one transaction: a refused cursor undoes the
        inserts of the same request. */
    method Sync(device: Bytes, request: Request) returns (r: Result<Response>, ghost reached: seq<Record>)
      requires Valid()
      modifies this
      ensures Valid() && old(lastCursor) <= lastCursor
      ensures WellFormed(request) ==> LeadsTo(old(log), old(lastCursor), device, request, reached)
      ensures r.Ok? <==>
                WellFormed(request) && request.cursor <= MaxCursor(reached) && request.ackCursor <= MaxCursor(reached)
      ensures log == if r.Ok? then reached else old(log)
      ensures r.Ok? ==> Handled(old(log), device, request, log, r.value)
      ensures MaxCursor(old(log)) <= MaxCursor(reached)
    {
      reached := log;
      if !WellFormed(request) {
        return Err, reached;
      }
      var limit := Limit(request);
      var sorted := SortBatch(request.envelopes);
      SortBatchLaw(request.envelopes);
      var unique, conflicts := Deduplicate(device, sorted);
      assert Members(sorted) == Members(request.envelopes);
      var after, cursor, accepted, rejected := Upload(log, lastCursor, device, unique, conflicts);
      PrefixCursor(log, after);
      reached := after;
      if request.cursor > MaxCursor(after) || request.ackCursor > MaxCursor(after) {
        return Err, reached;
      }
      var rows := Rows(after, request.cursor);
      RowsLaw(after, request.cursor);
      var page, hasMore := BuildPage(rows, limit);
      var nextCursor := request.cursor;
      if |page| > 0 {
        nextCursor := page[|page| - 1].cursor;
      }
      var response := Response(accepted, rejected, page, nextCursor, hasMore);
      assert Answered(log, device, request, unique, conflicts, after, response);
      log, lastCursor := after, cursor;
      return Ok(response), reached;
    }
  }

  lemma PrefixCursor(before: seq<Record>, after: seq<Record>)
    requires before <= after && Increasing(after)
    ensures MaxCursor(before) <= MaxCursor(after)
  {
  }
}
