/** What the relay promises over requests: every submitted sequence is answered
    once, replaying a request changes nothing, and following the cursor reads
    the whole log once, in order, however it grows meanwhile. */
module RelayLaws {
  import opened Order
  import opened Wire
  import opened Relay

  // --- Every submitted sequence is answered exactly once ---------------------

  ghost predicate Submitted(request: Request, sequence: nat) {
    exists e :: e in request.envelopes && e.sequence == sequence
  }

  ghost predicate Refused(response: Response, sequence: nat) {
    exists r :: r in response.rejected && r.sequence == sequence
  }

  lemma {:induction false} AcceptedMembers(chain: seq<Envelope>, es: seq<Envelope>, s: nat)
    ensures s in AcceptedOf(chain, es) <==> exists e :: e in es && e.sequence == s && VerdictOf(chain, e).Accepted?
  {
    if es != [] {
      var front, last := es[..|es| - 1], es[|es| - 1];
      assert es == front + [last];
      AcceptedMembers(chain, front, s);
    }
  }

  lemma {:induction false} RejectedMembers(chain: seq<Envelope>, es: seq<Envelope>, r: Rejection)
    ensures r in RejectedOf(chain, es) <==>
              exists e :: e in es && e.sequence == r.sequence && VerdictOf(chain, e) == Rejected(r.code)
  {
    if es != [] {
      var front, last := es[..|es| - 1], es[|es| - 1];
      assert es == front + [last];
      RejectedMembers(chain, front, r);
    }
  }

  ghost predicate InBatch(batch: set<Envelope>, s: nat) {
    exists e :: e in batch && e.sequence == s
  }

  ghost predicate InList(rejections: seq<Rejection>, s: nat) {
    exists r :: r in rejections && r.sequence == s
  }

  /** A disputed sequence is refused by the duplicate scan and reaches no chain. */
  lemma DisputedAnswer(batch: set<Envelope>, unique: seq<Envelope>, conflicts: seq<Rejection>,
                       chain: seq<Envelope>, s: nat)
    requires Deduplicated(batch, unique, conflicts) && Disputed(batch, s)
    ensures InBatch(batch, s) && InList(conflicts, s)
    ensures s !in AcceptedOf(chain, unique)
  {
    assert Rejection(s, SequenceConflict) in conflicts;
    AcceptedMembers(chain, unique, s);
    forall e | e in unique ensures e.sequence != s {
      assert Agreed(batch, e);
    }
  }

  lemma AgreedAnswer(batch: set<Envelope>, unique: seq<Envelope>, conflicts: seq<Rejection>,
                     chain: seq<Envelope>, s: nat)
    requires Deduplicated(batch, unique, conflicts) && !Disputed(batch, s)
    ensures !InList(conflicts, s)
    ensures InBatch(batch, s) <==> s in AcceptedOf(chain, unique) || InList(RejectedOf(chain, unique), s)
    ensures !(s in AcceptedOf(chain, unique) && InList(RejectedOf(chain, unique), s))
  {
    AcceptedMembers(chain, unique, s);
    forall r: Rejection | r.sequence == s
      ensures r in RejectedOf(chain, unique) <==>
                exists e :: e in unique && e.sequence == s && VerdictOf(chain, e) == Rejected(r.code)
    {
      RejectedMembers(chain, unique, r);
    }
    assert forall e :: e in unique ==> Agreed(batch, e);
    if InBatch(batch, s) {
      var e :| e in batch && e.sequence == s;
      assert Agreed(batch, e);
      assert e in unique;
      var verdict := VerdictOf(chain, e);
      if verdict.Rejected? {
        assert Rejection(s, verdict.code) in RejectedOf(chain, unique);
      }
    }
  }

  /** A submitted sequence is in exactly one of the two lists, and nothing else
      is in either. */
  lemma EverySequenceAnsweredOnce(before: seq<Record>, device: Bytes, request: Request, after: seq<Record>,
                                  response: Response, s: nat)
    requires Handled(before, device, request, after, response)
    ensures Submitted(request, s) <==> s in response.accepted || Refused(response, s)
    ensures !(s in response.accepted && Refused(response, s))
  {
    var unique, conflicts :|
      && Deduplicated(Members(request.envelopes), unique, conflicts)
      && Answered(before, device, request, unique, conflicts, after, response);
    var chain, batch := Chain(after, device), Members(request.envelopes);
    assert Submitted(request, s) <==> InBatch(batch, s);
    assert Refused(response, s) <==> InList(conflicts, s) || InList(RejectedOf(chain, unique), s);
    if Disputed(batch, s) {
      DisputedAnswer(batch, unique, conflicts, chain, s);
    } else {
      AgreedAnswer(batch, unique, conflicts, chain, s);
    }
  }

  // --- Replay ----------------------------------------------------------------

  lemma {:induction false} AscendingDetermined(a: seq<Envelope>, b: seq<Envelope>)
    requires StrictlyAscending(a) && StrictlyAscending(b) && forall e :: e in a <==> e in b
    ensures a == b
  {
    if a != [] { assert a[0] in b; }
    if b != [] { assert b[0] in a; }
    if a != [] && b != [] {
      assert a[0] in b && b[0] in a;
      assert a[0] == b[0];
      assert a == [a[0]] + a[1..] && b == [b[0]] + b[1..];
      forall e ensures e in a[1..] <==> e in b[1..] {
        assert e in a[1..] ==> e.sequence > a[0].sequence && e in a;
        assert e in b[1..] ==> e.sequence > a[0].sequence && e in b;
      }
      AscendingDetermined(a[1..], b[1..]);
    }
  }

  lemma {:induction false} ConflictsDetermined(a: seq<Rejection>, b: seq<Rejection>)
    requires forall i, j | 0 <= i < j < |a| :: a[i].sequence < a[j].sequence
    requires forall i, j | 0 <= i < j < |b| :: b[i].sequence < b[j].sequence
    requires forall r :: r in a <==> r in b
    ensures a == b
  {
    if a != [] { assert a[0] in b; }
    if b != [] { assert b[0] in a; }
    if a != [] && b != [] {
      assert a[0] in b && b[0] in a;
      assert a[0] == b[0];
      assert a == [a[0]] + a[1..] && b == [b[0]] + b[1..];
      forall r ensures r in a[1..] <==> r in b[1..] {
        assert r in a[1..] ==> r.sequence > a[0].sequence && r in a;
        assert r in b[1..] ==> r.sequence > a[0].sequence && r in b;
      }
      ConflictsDetermined(a[1..], b[1..]);
    }
  }

  lemma {:induction false} ChainLength(before: seq<Record>, after: seq<Record>, device: Bytes)
    requires before <= after && forall i | |before| <= i < |after| :: after[i].device == device
    ensures |Chain(after, device)| == |Chain(before, device)| + |after| - |before|
  {
    if |before| < |after| {
      ChainLength(before, after[..|after| - 1], device);
    } else {
      assert before == after;
    }
  }

  /** The first new link of a grown chain extends the old chain. */
  lemma GrowthExtends(device: Bytes, was: seq<Envelope>, now: seq<Envelope>)
    requires was <= now && Linked(device, now)
    ensures |was| < |now| ==> Extends(device, was, now[|was|])
  {
    if |was| < |now| {
      LinkedAt(device, now, |was|);
      assert now[..|was|] == was;
    }
  }

  /** A request answered a second time leaves the log alone and gives the same
      answer about every upload. */
  lemma ReplayChangesNothing(before: seq<Record>, device: Bytes, first: Request, after: seq<Record>, response: Response,
                             again: Request, later: seq<Record>, response2: Response)
    requires Handled(before, device, first, after, response)
    requires Handled(after, device, again, later, response2) && again.envelopes == first.envelopes
    ensures later == after
    ensures response2.accepted == response.accepted && response2.rejected == response.rejected
  {
    var u1, c1 :|
      && Deduplicated(Members(first.envelopes), u1, c1)
      && Answered(before, device, first, u1, c1, after, response);
    var u2, c2 :|
      && Deduplicated(Members(again.envelopes), u2, c2)
      && Answered(after, device, again, u2, c2, later, response2);
    AscendingDetermined(u1, u2);
    ConflictsDetermined(c1, c2);
    var was, now := Chain(after, device), Chain(later, device);
    assert Linked(device, now);
    GrowthExtends(device, was, now);
    ChainLength(after, later, device);
  }

  // --- A request decides its outcome -----------------------------------------

  /** A batch leads from one chain to one chain. */
  lemma {:induction false} GrowthDetermined(device: Bytes, unique: seq<Envelope>, was: seq<Envelope>, a: seq<Envelope>,
                                            b: seq<Envelope>, k: nat)
    requires StrictlyAscending(unique) && Linked(device, a) && Linked(device, b)
    requires ChainGrew(device, unique, was, a) && ChainGrew(device, unique, was, b)
    requires |was| <= k <= |a| && k <= |b| && a[..k] == b[..k]
    ensures a == b
    decreases |a| - k
  {
    if k < |a| && k < |b| {
      GrowthExtends(device, a[..k], a);
      GrowthExtends(device, b[..k], b);
      SameSequence(unique, a[k], b[k]);
      assert a[..k + 1] == a[..k] + [a[k]] && b[..k + 1] == b[..k] + [b[k]];
      GrowthDetermined(device, unique, was, a, b, k + 1);
    } else if k == |a| {
      assert a == b[..k];
      GrowthIsMaximal(device, unique, was, a, b);
    } else {
      assert b == a[..k];
      GrowthIsMaximal(device, unique, was, b, a);
    }
  }

  /** A batch takes a chain as far as it can. */
  lemma GrowthIsMaximal(device: Bytes, unique: seq<Envelope>, was: seq<Envelope>, a: seq<Envelope>, b: seq<Envelope>)
    requires ChainGrew(device, unique, was, a) && ChainGrew(device, unique, was, b) && Linked(device, b) && a <= b
    ensures a == b
  {
    assert |a| < |b| ==> b[|a|] in unique;
    GrowthExtends(device, a, b);
  }

  lemma SameSequence(unique: seq<Envelope>, e: Envelope, f: Envelope)
    requires StrictlyAscending(unique) && e in unique && f in unique && e.sequence == f.sequence
    ensures e == f
  {
    var i :| 0 <= i < |unique| && unique[i] == e;
    var j :| 0 <= j < |unique| && unique[j] == f;
  }

  lemma {:induction false} LogDetermined(before: seq<Record>, last: nat, device: Bytes, a: seq<Record>, b: seq<Record>)
    requires Assigned(before, last, a) && Assigned(before, last, b)
    requires forall i | |before| <= i < |a| :: a[i].device == device
    requires forall i | |before| <= i < |b| :: b[i].device == device
    requires |a| == |b| && Chain(a, device) == Chain(b, device)
    ensures a == b
  {
    if |before| < |a| {
      var n := |a| - 1;
      assert Chain(a, device) == Chain(a[..n], device) + [a[n].envelope];
      assert Chain(b, device) == Chain(b[..n], device) + [b[n].envelope];
      assert Chain(a[..n], device) == Chain(a, device)[..|Chain(a, device)| - 1];
      assert Chain(b[..n], device) == Chain(b, device)[..|Chain(b, device)| - 1];
      LogDetermined(before, last, device, a[..n], b[..n]);
      assert a == a[..n] + [a[n]] && b == b[..n] + [b[n]];
    } else {
      assert a == before && b == before;
    }
  }

  /** A request leads to one log, so whether it is refused does not depend on how it
      is carried out. */
  lemma RequestLeadsToOneLog(before: seq<Record>, last: nat, device: Bytes, request: Request, a: seq<Record>,
                             b: seq<Record>)
    requires LeadsTo(before, last, device, request, a) && LeadsTo(before, last, device, request, b)
    ensures a == b
  {
    var u1, c1 :| Deduplicated(Members(request.envelopes), u1, c1) && Uploaded(before, device, u1, a);
    var u2, c2 :| Deduplicated(Members(request.envelopes), u2, c2) && Uploaded(before, device, u2, b);
    AscendingDetermined(u1, u2);
    var was := Chain(before, device);
    assert Linked(device, Chain(a, device)) && Linked(device, Chain(b, device));
    assert Chain(a, device)[..|was|] == was == Chain(b, device)[..|was|];
    GrowthDetermined(device, u1, was, Chain(a, device), Chain(b, device), |was|);
    ChainLength(before, a, device);
    ChainLength(before, b, device);
    LogDetermined(before, last, device, a, b);
  }

  // --- Following the cursor --------------------------------------------------

  /** A reader that follows `nextCursor` while the log grows. */
  datatype Reader = Reader(log: seq<Record>, cursor: nat, collected: seq<Record>)

  ghost predicate Grows(a: Reader, b: Reader) {
    LogOk(b.log) && a.log <= b.log && b == a.(log := b.log)
  }

  ghost predicate Fetches(a: Reader, b: Reader, limit: nat, page: seq<Record>, hasMore: bool) {
    && IsPage(Rows(a.log, a.cursor), limit, page, hasMore)
    && b == Reader(a.log, if page == [] then a.cursor else page[|page| - 1].cursor, a.collected + page)
  }

  ghost predicate ReaderStep(a: Reader, b: Reader) {
    Grows(a, b) || exists limit, page, hasMore :: 1 <= limit && Fetches(a, b, limit, page, hasMore)
  }

  /** Everything up to the cursor has been read: the collected records are the
      front of the log and the remaining rows are the rest. */
  ghost predicate ReadSoFar(r: Reader) {
    && LogOk(r.log) && r.collected <= r.log && r.cursor == MaxCursor(r.collected)
    && Rows(r.log, r.cursor) == r.log[|r.collected|..]
  }

  lemma FrontOfLog(log: seq<Record>, k: nat)
    requires LogOk(log) && k <= |log|
    ensures Rows(log, MaxCursor(log[..k])) == log[k..]
  {
    var c := MaxCursor(log[..k]);
    RowsLaw(log, c);
    forall i | 0 <= i < |log| ensures i < k <==> log[i].cursor <= c {
    }
    var n := |log| - |Rows(log, c)|;
    assert n < |log| ==> log[n].cursor > c;
    assert k < |log| ==> log[k].cursor > c;
  }

  lemma ReaderStepKeeps(a: Reader, b: Reader)
    requires ReadSoFar(a) && ReaderStep(a, b)
    ensures ReadSoFar(b)
  {
    if !Grows(a, b) {
      var limit, page, hasMore :| 1 <= limit && Fetches(a, b, limit, page, hasMore);
      assert b.collected == a.log[..|a.collected| + |page|];
    }
    assert b.collected == b.log[..|b.collected|];
    FrontOfLog(b.log, |b.collected|);
  }

  /** Starting at cursor 0, whatever is appended between the requests, the pages
      read so far are exactly the front of the log: no record is skipped,
      repeated or reordered, and nothing remains exactly when all is read. */
  lemma {:induction false} FollowingTheCursorReadsEverything(run: seq<Reader>)
    requires |run| > 0 && LogOk(run[0].log) && run[0].cursor == 0 && run[0].collected == []
    requires forall i | 0 <= i < |run| - 1 :: ReaderStep(run[i], run[i + 1])
    ensures ReadSoFar(run[|run| - 1])
    ensures var r := run[|run| - 1];
            && r.collected <= r.log
            && (forall i | 0 <= i < |r.log| :: i < |r.collected| <==> r.log[i].cursor <= r.cursor)
  {
    var n := |run| - 1;
    if n == 0 {
      FrontOfLog(run[0].log, 0);
    } else {
      FollowingTheCursorReadsEverything(run[..n]);
      assert ReaderStep(run[n - 1], run[n]);
      ReaderStepKeeps(run[n - 1], run[n]);
    }
    var r := run[n];
    RowsLaw(r.log, r.cursor);
  }

  /** Every page makes progress, stays in the limits and announces a remainder
      exactly when there is one. */
  lemma PagesMakeProgress(a: Reader, b: Reader, limit: nat, page: seq<Record>, hasMore: bool)
    requires ReadSoFar(a) && 1 <= limit && Fetches(a, b, limit, page, hasMore)
    ensures |page| <= limit && TotalSize(page) <= MAX_DOWNLOAD_BYTES
    ensures page == [] <==> |a.collected| == |a.log|
    ensures hasMore <==> |b.collected| < |b.log|
    ensures hasMore <==> exists r :: r in b.log && r.cursor > b.cursor
  {
    ReaderStepKeeps(a, b);
    RowsLaw(b.log, b.cursor);
    if hasMore {
      assert b.log[|b.collected|] in b.log;
    }
  }

  /** The guarded conflict below the newest sequence is unreachable: a sequence that is not
      stored lies above every stored one. */
  lemma ConflictBranchUnreachable(log: seq<Record>, device: Bytes, sequence: nat)
    requires LogOk(log) && 1 <= sequence && Find(log, device, sequence).None?
    ensures Newest(log, device).Some? ==> Newest(log, device).value.sequence < sequence
  {
    QueriesReadChain(log, device, sequence);
  }
}
