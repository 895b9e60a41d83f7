/** Replay event streams and the checker that admits them (replaylab/event.go,
    replaylab/sequence.go). */
module ReplaySequence {
  import opened Wrappers

  const MAX_EPISODES := 1_000_000
  const MAX_CANDIDATES := 8

  datatype Kind = Composition | Select | Commit | Backspace | Delete | Abort | Pause | Resume | DropCount

  datatype Candidate = Candidate(text: string, correction: bool, highlighted: bool)

  datatype Snapshot = Snapshot(pinyin: string, exact: bool, candidates: seq<Candidate>)

  /** `rank` is the one-based selection, `count` the edit or drop count. */
  datatype Event = Event(
    session: string, episode: string, number: nat, monotonic: nat, utc: int, kind: Kind,
    composition: Option<Snapshot>, rank: Option<int>, count: nat, text: string)

  /** The validation rules the stream logic relies on. */
  predicate ValidEvent(e: Event) {
    && |e.session| == 32 && |e.episode| == 32 && e.number >= 1
    && (e.composition.Some? ==> |e.composition.value.candidates| <= MAX_CANDIDATES)
    && (e.rank.Some? ==> e.composition.Some? && 1 <= e.rank.value <= |e.composition.value.candidates|)
    && match e.kind
       case Composition => e.composition.Some? && e.rank.None?
       case Select => e.rank.Some?
       case Commit => e.composition.Some?
       case Pause => e.composition.None? && e.rank.None?
       case Resume => e.composition.None? && e.rank.None?
       case DropCount => e.composition.None? && e.rank.None? && e.count >= 1
       case Backspace => e.rank.None? && 1 <= e.count <= 1024
       case Delete => e.rank.None? && 1 <= e.count <= 1024
       case Abort => e.rank.None?
  }

  // --- Admissible streams ----------------------------------------------------

  ghost function Episodes(h: seq<Event>): (r: set<string>) {
    set i | 0 <= i < |h| :: h[i].episode
  }

  /** The events of one episode. */
  ghost function InEpisode(h: seq<Event>, id: string): (r: seq<Event>) {
    if h == [] then []
    else InEpisode(h[..|h| - 1], id) + (if h[|h| - 1].episode == id then [h[|h| - 1]] else [])
  }

  ghost function Current(h: seq<Event>): (r: seq<Event>) {
    if h == [] then [] else InEpisode(h, h[|h| - 1].episode)
  }

  predicate Closing(k: Kind) {
    k == Commit || k == Abort || k == Pause
  }

  /** The current episode takes no more input. */
  ghost predicate Closed(h: seq<Event>) {
    AnyClosing(Current(h))
  }

  ghost predicate Paused(h: seq<Event>) {
    AnyPause(Current(h))
  }

  ghost predicate AnyClosing(c: seq<Event>) {
    exists i | 0 <= i < |c| :: Closing(c[i].kind)
  }

  ghost predicate AnyPause(c: seq<Event>) {
    exists i | 0 <= i < |c| :: c[i].kind == Pause
  }

  ghost predicate Continues(h: seq<Event>, e: Event)
    requires h != []
  {
    var last := h[|h| - 1];
    e.session == h[0].session && e.number == |h| + 1 && e.monotonic >= last.monotonic && e.utc >= last.utc
  }

  /** `e` may come after the stream `h`. An episode opens with a resume, at the
      start and after a pause, or with a composition, after a commit or an abort. */
  ghost predicate Admissible(h: seq<Event>, e: Event) {
    && ValidEvent(e)
    && if h == [] then e.number == 1 && e.kind == Resume
       else
         && Continues(h, e)
         && if e.episode == h[|h| - 1].episode
            then e.kind != Resume && (Closed(h) ==> e.kind == Pause || e.kind == DropCount) &&
                (Paused(h) ==> e.kind == DropCount)
            else
              && e.episode !in Episodes(h) && |Episodes(h)| < MAX_EPISODES
              && if Paused(h) then e.kind == Resume else Closed(h) && e.kind == Composition
  }

  ghost predicate Stream(h: seq<Event>) {
    h == [] || (Stream(h[..|h| - 1]) && Admissible(h[..|h| - 1], h[|h| - 1]))
  }

  // --- The checker -----------------------------------------------------------

  /** What the checker remembers of the stream so far. */
  datatype Memory = Memory(
    session: string, episode: string, number: nat, monotonic: nat, utc: int,
    paused: bool, closed: bool, seen: set<string>)

  const FRESH := Memory("", "", 0, 0, 0, false, false, {})

  /** The memory is exact. */
  ghost predicate Remembers(m: Memory, h: seq<Event>) {
    if h == [] then m == FRESH
    else
      var last := h[|h| - 1];
      m == Memory(h[0].session, last.episode, |h|, last.monotonic, last.utc, Paused(h), Closed(h), Episodes(h))
  }

  lemma AppendCurrent(h: seq<Event>, e: Event)
    ensures h != [] && e.episode == h[|h| - 1].episode ==> Current(h + [e]) == Current(h) + [e]
    ensures e.episode !in Episodes(h) ==> Current(h + [e]) == [e]
    ensures Episodes(h + [e]) == Episodes(h) + {e.episode}
  {
    assert (h + [e])[..|h|] == h;
    if e.episode !in Episodes(h) {
      NotSeen(h, e.episode);
    }
    assert forall i | 0 <= i < |h| :: (h + [e])[i] == h[i];
    assert (h + [e])[|h|] == e;
  }

  lemma {:induction false} NotSeen(h: seq<Event>, id: string)
    requires id !in Episodes(h)
    ensures InEpisode(h, id) == []
  {
    if h != [] {
      var front := h[..|h| - 1];
      assert h[|h| - 1].episode in Episodes(h);
      forall x | x in Episodes(front) ensures x in Episodes(h) {
        var i :| 0 <= i < |front| && front[i].episode == x;
        assert h[i].episode == x;
      }
      NotSeen(front, id);
    }
  }

  lemma AppendAny(c: seq<Event>, e: Event)
    ensures AnyClosing(c + [e]) <==> AnyClosing(c) || Closing(e.kind)
    ensures AnyPause(c + [e]) <==> AnyPause(c) || e.kind == Pause
    ensures AnyPause(c) ==> AnyClosing(c)
  {
    var d := c + [e];
    assert d[|c|] == e;
    assert forall i | 0 <= i < |c| :: d[i] == c[i];
  }

  /** The next event, decided from memory alone. */
  predicate MayFollow(m: Memory, e: Event) {
    && ValidEvent(e)
    && if m.episode == "" then e.number == 1 && e.kind == Resume
       else
         && e.session == m.session && e.number == m.number + 1 && e.monotonic >= m.monotonic && e.utc >= m.utc
         && if e.episode == m.episode
            then e.kind != Resume && (m.closed ==> e.kind == Pause || e.kind == DropCount) &&
                (m.paused ==> e.kind == DropCount)
            else
              && e.episode !in m.seen && |m.seen| < MAX_EPISODES
              && if m.paused then e.kind == Resume else m.closed && e.kind == Composition
  }

  function Recall(m: Memory, e: Event): (r: Memory) {
    var same := e.episode == m.episode;
    Memory(if m.episode == "" then e.session else m.session, e.episode, e.number, e.monotonic, e.utc,
           (same && m.paused) || e.kind == Pause, (same && m.closed) || Closing(e.kind), m.seen + {e.episode})
  }

  lemma {:induction false} StreamEvents(h: seq<Event>, i: nat)
    requires Stream(h) && i < |h|
    ensures ValidEvent(h[i])
  {
    if i < |h| - 1 {
      StreamEvents(h[..|h| - 1], i);
    }
  }

  lemma MemoryDecides(m: Memory, h: seq<Event>, e: Event)
    requires Stream(h) && Remembers(m, h)
    ensures Admissible(h, e) <==> MayFollow(m, e)
    ensures Coherent(m)
  {
    if h != [] {
      StreamEvents(h, 0);
      StreamEvents(h, |h| - 1);
      AppendAny(Current(h), e);
    }
  }

  lemma MemoryFollows(m: Memory, h: seq<Event>, e: Event)
    requires Stream(h) && Remembers(m, h) && Admissible(h, e)
    ensures Stream(h + [e]) && Remembers(Recall(m, e), h + [e])
  {
    MemoryDecides(m, h, e);
    AppendCurrent(h, e);
    AppendAny(Current(h), e);
    AppendAny([], e);
    assert [] + [e] == [e];
    assert (h + [e])[..|h|] == h;
  }

  /** Facts every memory of a stream has. */
  predicate Coherent(m: Memory) {
    && (m.episode == "" <==> m.session == "") && (m.episode == "" <==> m.number == 0)
    && (m.paused ==> m.closed) && (m.episode == "" ==> m == FRESH)
    && (m.episode != "" ==> m.episode in m.seen)
  }

  /** The checks and updates, on a copy of the memory. */
  method Advance(state: Memory, event: Event) returns (ok: bool, next: Memory)
    requires Coherent(state)
    ensures ok <==> MayFollow(state, event)
    ensures ok ==> next == Recall(state, event)
  {
    if !ValidEvent(event) {
      return false, state;
    }
    next := state;
    if next.session == "" {
      if event.number != 1 || event.kind != Resume {
        return false, state;
      }
      next := next.(session := event.session);
    } else if event.session != next.session || event.number != next.number + 1 ||
              event.monotonic < next.monotonic || event.utc < next.utc {
      return false, state;
    }
    var newEpisode := next.episode != "" && event.episode != next.episode;
    if next.episode == "" {
      newEpisode := true;
    }
    if newEpisode && (event.episode in next.seen || |next.seen| >= MAX_EPISODES) {
      return false, state;
    }
    if newEpisode && next.episode != "" && !next.closed && !next.paused {
      return false, state;
    }
    if newEpisode && next.episode != "" && event.kind != Composition && event.kind != Resume {
      return false, state;
    }
    if !newEpisode && next.closed && event.kind != Pause && event.kind != DropCount {
      return false, state;
    }
    if next.paused && event.kind != Resume && event.kind != DropCount {
      return false, state;
    }
    match event.kind {
      case Resume =>
        if next.number != 0 && (!next.paused || !newEpisode) {
          return false, state;
        }
        next := next.(paused := false, closed := false);
      case Pause =>
        if next.paused {
          return false, state;
        }
        next := next.(paused := true, closed := true);
      case Commit => next := next.(closed := true);
      case Abort => next := next.(closed := true);
      case DropCount =>
      case _ =>
        if newEpisode {
          next := next.(closed := false);
        }
    }
    next := next.(episode := event.episode, number := event.number, monotonic := event.monotonic, utc := event.utc);
    if newEpisode {
      next := next.(seen := next.seen + {event.episode});
    }
    assert next.seen == state.seen + {event.episode};
    return true, next;
  }

  // --- What every accepted stream looks like ---------------------------------

  lemma {:induction false} StreamPrefix(h: seq<Event>, n: nat)
    requires Stream(h) && n <= |h|
    ensures Stream(h[..n])
    ensures n < |h| ==> Admissible(h[..n], h[n])
  {
    if n < |h| {
      StreamPrefix(h[..|h| - 1], n);
      if n < |h| - 1 {
        assert h[..|h| - 1][..n] == h[..n];
      } else {
        assert h[..|h| - 1] == h[..n];
      }
    } else {
      assert h[..n] == h;
    }
  }

  /** Sequence numbers are 1..n, all in one session that starts with a resume, and
      neither clock moves back. */
  lemma StreamIsNumbered(h: seq<Event>, i: nat)
    requires Stream(h) && i < |h|
    ensures h[i].number == i + 1 && h[i].session == h[0].session && h[0].kind == Resume
    ensures i > 0 ==> h[i].monotonic >= h[i - 1].monotonic && h[i].utc >= h[i - 1].utc
  {
    StreamPrefix(h, i);
    StreamPrefix(h, 0);
  }

  /** An episode is one contiguous block: once left it never comes back. */
  lemma {:induction false} EpisodesAreBlocks(h: seq<Event>, i: nat, j: nat, k: nat)
    requires Stream(h) && i <= j <= k < |h| && h[i].episode == h[k].episode
    ensures h[j].episode == h[i].episode
    decreases k
  {
    if j < k {
      StreamPrefix(h, k);
      var front := h[..k];
      assert front[i].episode in Episodes(front);
      assert h[k].episode == front[k - 1].episode;
      EpisodesAreBlocks(h, i, j, k - 1);
    }
  }

  /** A session holds at most a million episodes. */
  lemma {:induction false} EpisodesAreBounded(h: seq<Event>)
    requires Stream(h)
    ensures |Episodes(h)| <= MAX_EPISODES
  {
    if h != [] {
      var front, e := h[..|h| - 1], h[|h| - 1];
      assert h == front + [e];
      EpisodesAreBounded(front);
      AppendCurrent(front, e);
      if front != [] && e.episode == front[|front| - 1].episode {
        assert front[|front| - 1].episode in Episodes(front);
        assert Episodes(h) == Episodes(front);
      }
    }
  }

  class Checker {
    var state: Memory
    ghost var history: seq<Event>

    ghost predicate Valid()
      reads this
    {
      Stream(history) && Remembers(state, history)
    }

    constructor ()
      ensures Valid() && history == []
    {
      state, history := FRESH, [];
    }

    /** Admits exactly the events that may come next, and changes nothing on the
        others. */
    method Accept(event: Event) returns (ok: bool)
      requires Valid()
      modifies this
      ensures Valid()
      ensures ok <==> Admissible(old(history), event)
      ensures history == if ok then old(history) + [event] else old(history)
      ensures !ok ==> state == old(state)
    {
      MemoryDecides(state, history, event);
      var admitted, next := Advance(state, event);
      if !admitted {
        return false;
      }
      MemoryFollows(state, history, event);
      state := next;
      history := history + [event];
      return true;
    }
  }
}
