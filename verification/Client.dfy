/** The checks the background worker makes on a relay answer before it touches
    the store (syncclient/worker.go). */
module Client {
  import opened Wrappers
  import opened Wire
  import opened Device
  import opened Relay

  const PAGE_LIMIT := 256

  /** The request of one round: the staged upload, if any, and the cursor. */
  function RequestFor(cursor: nat, prepared: Option<Prepared>): (r: Request) {
    Request(cursor, cursor, PAGE_LIMIT, if prepared.Some? then [prepared.value.envelope] else [])
  }

  /** An answer the worker goes on with: exactly the staged sequence accepted,
      nothing refused. */
  ghost predicate Acknowledges(prepared: Option<Prepared>, response: Response) {
    response.rejected == [] && response.accepted == (if prepared.Some? then [prepared.value.sequence] else [])
  }

  /** The cursor the i-th record of a page has to exceed. */
  function Floor(cursor: nat, page: seq<Record>, i: nat): (r: nat)
    requires i <= |page|
  {
    if i == 0 then cursor else page[i - 1].cursor
  }

  ghost predicate Climbs(cursor: nat, response: Response, n: nat)
    requires n <= |response.page|
  {
    forall i {:trigger Floor(cursor, response.page, i)} | 0 <= i < n ::
             Floor(cursor, response.page, i) < response.page[i].cursor <= response.nextCursor
  }

  /** A page the worker goes on with: cursors climb from the checkpoint and end
      at the announced cursor. */
  ghost predicate InOrder(cursor: nat, response: Response) {
    var page := response.page;
    && Climbs(cursor, response, |page|)
    && response.nextCursor == Floor(cursor, page, |page|)
  }

  method CheckAnswer(prepared: Option<Prepared>, response: Response) returns (ok: bool)
    ensures ok <==> Acknowledges(prepared, response)
  {
    if prepared.None? {
      return |response.accepted| == 0 && |response.rejected| == 0;
    }
    var sequence := prepared.value.sequence;
    var seenAccepted, seenRejected := false, false;
    for i := 0 to |response.rejected|
      invariant seenRejected <==> i > 0
    {
      if response.rejected[i].sequence != sequence || seenRejected {
        return false;
      }
      seenRejected := true;
    }
    for i := 0 to |response.accepted|
      invariant i <= 1 && (seenAccepted <==> i == 1)
      invariant i == 1 ==> response.accepted[0] == sequence
    {
      if response.accepted[i] != sequence || seenAccepted {
        return false;
      }
      seenAccepted := true;
    }
    if seenRejected && seenAccepted {
      return false;
    }
    if seenRejected {
      return false;
    }
    return seenAccepted;
  }

  ghost function Payloads(page: seq<Record>): (r: seq<Payload>) {
    if page == [] then [] else Payloads(page[..|page| - 1]) + [page[|page| - 1].envelope.payload]
  }

  lemma PayloadsAppend(page: seq<Record>, i: nat)
    requires i < |page|
    ensures Payloads(page[..i + 1]) == Payloads(page[..i]) + [page[i].envelope.payload]
  {
    assert page[..i + 1][..i] == page[..i];
  }

  method DecodeDownloads(response: Response, cursor: nat) returns (r: Result<seq<Payload>>)
    ensures r.Ok? <==> InOrder(cursor, response) && (response.page == [] || response.nextCursor <= MAX_I64)
    ensures r.Ok? ==> r.value == Payloads(response.page)
  {
    var payloads, page := [], response.page;
    var lastCursor := cursor;
    for i := 0 to |page|
      invariant lastCursor == Floor(cursor, page, i) && Climbs(cursor, response, i)
      invariant i == 0 || lastCursor <= MAX_I64
      invariant payloads == Payloads(page[..i])
    {
      PayloadsAppend(page, i);
      var wire := page[i];
      if wire.cursor > MAX_I64 || wire.cursor <= lastCursor || wire.cursor > response.nextCursor {
        return Err;
      }
      lastCursor := wire.cursor;
      payloads := payloads + [wire.envelope.payload];
    }
    assert page[..|page|] == page;
    if |page| == 0 && response.nextCursor != cursor {
      return Err;
    }
    if |page| > 0 && lastCursor != response.nextCursor {
      return Err;
    }
    return Ok(payloads);
  }

  /** A window of the log that starts right after a cursor. */
  ghost predicate Window(log: seq<Record>, cursor: nat, n: nat, page: seq<Record>) {
    && n + |page| <= |log| && page == log[n..n + |page|]
    && forall i | 0 <= i < |log| :: i < n <==> log[i].cursor <= cursor
  }

  lemma WindowInOrder(log: seq<Record>, cursor: nat, n: nat, response: Response)
    requires LogOk(log) && Window(log, cursor, n, response.page)
    requires response.nextCursor == Floor(cursor, response.page, |response.page|)
    ensures InOrder(cursor, response) && cursor <= response.nextCursor
  {
    var page := response.page;
    forall i | 0 <= i < |page| ensures page[i] == log[n + i] {
    }
    forall i | 0 <= i < |page| ensures Floor(cursor, page, i) < page[i].cursor <= response.nextCursor {
      assert log[n + i].cursor > cursor;
      if i > 0 { assert page[i - 1] == log[n + i - 1]; }
      assert page[|page| - 1] == log[n + |page| - 1];
    }
  }

  lemma WindowCovers(log: seq<Record>, cursor: nat, n: nat, page: seq<Record>, r: Record)
    requires LogOk(log) && Window(log, cursor, n, page) && r in log
    ensures r.cursor <= Floor(cursor, page, |page|) <==> r.cursor <= cursor || r in page
  {
    var i :| 0 <= i < |log| && log[i] == r;
    if page != [] { assert page[|page| - 1] == log[n + |page| - 1]; }
    if n <= i < n + |page| { assert page[i - n] == r; }
    if r in page {
      var k :| 0 <= k < |page| && page[k] == r;
      assert log[n + k] == r;
    }
  }

  /** Every page an honest relay builds passes the worker's own cursor checks,
      and the announced cursor covers exactly what was read before or is on the
      page. */
  lemma HonestPagesAreInOrder(log: seq<Record>, cursor: nat, limit: int, response: Response)
    requires LogOk(log) && IsPage(Rows(log, cursor), limit, response.page, response.hasMore)
    requires response.nextCursor == (if response.page == [] then cursor else response.page[|response.page| - 1].cursor)
    ensures InOrder(cursor, response) && cursor <= response.nextCursor
    ensures forall r | r in log :: r.cursor <= response.nextCursor <==> r.cursor <= cursor || r in response.page
    ensures forall r | r in response.page :: r in log
  {
    RowsLaw(log, cursor);
    var rows, page := Rows(log, cursor), response.page;
    var n := |log| - |rows|;
    assert page == log[n..][..|page|] == log[n..n + |page|];
    assert Window(log, cursor, n, page);
    WindowInOrder(log, cursor, n, response);
    forall r | r in log ensures r.cursor <= response.nextCursor <==> r.cursor <= cursor || r in page {
      WindowCovers(log, cursor, n, page, r);
    }
  }
}
