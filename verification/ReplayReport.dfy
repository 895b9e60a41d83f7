/** The streaming analyzer of replaylab/report.go. It remembers only the episode in
    progress, and still reports exact totals over the whole stream. */
module ReplayReport {
  import opened Wrappers
  import opened ReplaySequence

  // --- What each event contributes, given all events before it ---------------

  predicate Edit(e: Event) {
    e.kind == Backspace || e.kind == Delete
  }

  ghost predicate AnyEdit(c: seq<Event>) {
    c != [] && (Edit(c[|c| - 1]) || AnyEdit(c[..|c| - 1]))
  }

  ghost predicate AnySelect(c: seq<Event>) {
    c != [] && (c[|c| - 1].kind == Select || AnySelect(c[..|c| - 1]))
  }

  /** The latest composition shown. */
  ghost function LastSnapshot(c: seq<Event>): (r: Option<Snapshot>) {
    if c == [] then None
    else if c[|c| - 1].composition.Some? then c[|c| - 1].composition
    else LastSnapshot(c[..|c| - 1])
  }

  /** The one-based position of the highlighted candidate, or zero. */
  ghost function Highlight(candidates: seq<Candidate>): (r: nat)
    ensures r <= |candidates|
    ensures r > 0 ==> candidates[r - 1].highlighted && forall i | 0 <= i < r - 1 :: !candidates[i].highlighted
    ensures r == 0 ==> forall i | 0 <= i < |candidates| :: !candidates[i].highlighted
  {
    if candidates == [] then 0
    else if candidates[0].highlighted then 1
    else var rest := Highlight(candidates[1..]); if rest == 0 then 0 else rest + 1
  }

  /** The pinyin and the text a composition offered. */
  ghost function Offered(s: Option<Snapshot>): (r: (string, string)) {
    if s.None? then ("", "")
    else
      var c := s.value.candidates;
      var text := if Highlight(c) > 0 then c[Highlight(c) - 1].text else "";
      (s.value.pinyin, if text == "" && c != [] then c[0].text else text)
  }

  /** What was offered when an episode was first edited. */
  ghost function BeforeEdit(c: seq<Event>): (r: (string, string)) {
    if c == [] then ("", "")
    else if AnyEdit(c[..|c| - 1]) then BeforeEdit(c[..|c| - 1])
    else if Edit(c[|c| - 1]) then Offered(LastSnapshot(c))
    else ("", "")
  }

  /** The rank an event chooses: an explicit selection, or the highlighted candidate
      of a commit when its episode had no selection. */
  ghost function Chosen(h: seq<Event>, e: Event): (r: int) {
    if e.kind == Select && e.rank.Some? then e.rank.value
    else if e.kind == Commit && e.composition.Some? && !AnySelect(InEpisode(h, e.episode))
    then Highlight(e.composition.value.candidates)
    else 0
  }

  /** A commit that, after an edit, replaces the text offered for the same pinyin. */
  ghost predicate Replaces(h: seq<Event>, e: Event) {
    var c := InEpisode(h, e.episode);
    && e.kind == Commit && e.composition.Some? && AnyEdit(c)
    && e.composition.value.pinyin == BeforeEdit(c).0 && BeforeEdit(c).1 != "" && e.text != BeforeEdit(c).1
  }

  predicate Rerank(e: Event) {
    && e.kind == Select && e.composition.Some? && e.rank.Some?
    && var c := e.composition.value;
       && c.exact && 1 < e.rank.value <= |c.candidates|
       && !c.candidates[e.rank.value - 1].correction && !c.candidates[0].correction
  }

  ghost predicate CorrectionFirst(e: Event) {
    && e.kind == Composition && e.composition.Some?
    && var c := e.composition.value;
       && c.exact && |c.candidates| > 1 && c.candidates[0].correction
       && exists i | 1 <= i < |c.candidates| :: !c.candidates[i].correction
  }

  datatype Measure =
    | Commits | Backspaces | Deletes | Drops | CorrectionFirsts | Reranks | Replacements
    | Selections | RankSum | RankCount(rank: int)

  ghost function Contribution(m: Measure, h: seq<Event>, e: Event): (r: int) {
    match m
    case Commits => One(e.kind == Commit)
    case Backspaces => if e.kind == Backspace then e.count else 0
    case Deletes => if e.kind == Delete then e.count else 0
    case Drops => if e.kind == DropCount then e.count else 0
    case CorrectionFirsts => One(CorrectionFirst(e))
    case Reranks => One(Rerank(e))
    case Replacements => One(Replaces(h, e))
    case Selections => One(Chosen(h, e) > 0)
    case RankSum => Chosen(h, e)
    case RankCount(rank) => One(Chosen(h, e) == rank)
  }

  /** The sum of a measure over a stream. */
  ghost function Sum(m: Measure, h: seq<Event>): (r: int) {
    if h == [] then 0 else Sum(m, h[..|h| - 1]) + Contribution(m, h[..|h| - 1], h[|h| - 1])
  }

  ghost function One(b: bool): (r: int) {
    if b then 1 else 0
  }

  lemma SumAppend(m: Measure, h: seq<Event>, e: Event)
    ensures Sum(m, h + [e]) == Sum(m, h) + Contribution(m, h, e)
  {
    assert (h + [e])[..|h|] == h;
  }

  ghost function Edited(h: seq<Event>): (r: set<string>) {
    set i | 0 <= i < |h| && Edit(h[i]) :: h[i].episode
  }

  // --- The report ------------------------------------------------------------

  datatype Counters = Counters(
    commits: int, backspaces: int, deletes: int, drops: int, correctionFirst: int, reranks: int, replaced: int,
    selections: int, rankSum: int, histogram: map<int, int>)

  datatype Report = Report(events: nat, episodes: nat, editedEpisodes: nat, counters: Counters)

  const EMPTY := Report(0, 0, 0, Counters(0, 0, 0, 0, 0, 0, 0, 0, 0, map[]))

  function At(histogram: map<int, int>, rank: int): (r: int) {
    if rank in histogram then histogram[rank] else 0
  }

  ghost predicate Totals(r: Counters, h: seq<Event>) {
    && r.commits == Sum(Commits, h) && r.backspaces == Sum(Backspaces, h) && r.deletes == Sum(Deletes, h)
    && r.drops == Sum(Drops, h) && r.correctionFirst == Sum(CorrectionFirsts, h) && r.reranks == Sum(Reranks, h)
    && r.replaced == Sum(Replacements, h)
  }

  ghost predicate Choices(r: Counters, h: seq<Event>) {
    && r.selections == Sum(Selections, h) && r.rankSum == Sum(RankSum, h)
    && (forall rank | rank in r.histogram :: 1 <= rank <= MAX_CANDIDATES)
    && (forall rank | 1 <= rank <= MAX_CANDIDATES :: At(r.histogram, rank) == Sum(RankCount(rank), h))
  }

  /** The report on a whole stream is exact. */
  ghost predicate Exact(r: Report, h: seq<Event>) {
    && r.events == |h| && Totals(r.counters, h) && Choices(r.counters, h)
    && r.episodes == |Episodes(h)| && r.editedEpisodes == |Edited(h)|
  }

  /** The sum of a histogram over the ranks up to n. */
  ghost function Total(histogram: map<int, int>, n: nat): (r: int) {
    if n == 0 then 0 else Total(histogram, n - 1) + At(histogram, n)
  }

  ghost function ChosenUpTo(h: seq<Event>, n: nat): (r: int) {
    if n == 0 then 0 else ChosenUpTo(h, n - 1) + Sum(RankCount(n), h)
  }

  lemma {:induction false} ChosenUpToAppend(h: seq<Event>, e: Event, n: nat)
    ensures ChosenUpTo(h + [e], n) == ChosenUpTo(h, n) + One(1 <= Chosen(h, e) <= n)
  {
    if n > 0 {
      ChosenUpToAppend(h, e, n - 1);
      SumAppend(RankCount(n), h, e);
    }
  }

  lemma {:induction false} NothingChosen(n: nat)
    ensures ChosenUpTo([], n) == 0
  {
    if n > 0 {
      NothingChosen(n - 1);
    }
  }

  lemma {:induction false} EveryChoiceHasARank(h: seq<Event>)
    requires Stream(h)
    ensures ChosenUpTo(h, MAX_CANDIDATES) == Sum(Selections, h)
  {
    if h == [] {
      NothingChosen(MAX_CANDIDATES);
    } else {
      var front, e := h[..|h| - 1], h[|h| - 1];
      assert h == front + [e];
      EveryChoiceHasARank(front);
      ChosenUpToAppend(front, e, MAX_CANDIDATES);
      SumAppend(Selections, front, e);
    }
  }

  lemma {:induction false} TotalIsChosen(r: Counters, h: seq<Event>, n: nat)
    requires Choices(r, h) && n <= MAX_CANDIDATES
    ensures Total(r.histogram, n) == ChosenUpTo(h, n)
  {
    if n > 0 {
      TotalIsChosen(r, h, n - 1);
    }
  }

  /** The histogram of an exact report sums to its selections. */
  lemma HistogramSumsToSelections(r: Report, h: seq<Event>)
    requires Stream(h) && Exact(r, h)
    ensures Total(r.counters.histogram, MAX_CANDIDATES) == r.counters.selections
    ensures forall rank | rank in r.counters.histogram :: 1 <= rank <= MAX_CANDIDATES
  {
    TotalIsChosen(r.counters, h, MAX_CANDIDATES);
    EveryChoiceHasARank(h);
  }

  // --- One episode of memory -------------------------------------------------

  datatype Episode = Episode(
    edited: bool, selected: bool, last: Option<Snapshot>, pinyin: string, text: string)

  const NEW_EPISODE := Episode(false, false, None, "", "")

  /** The memory is that of an episode with events `c`. */
  ghost predicate Summarises(m: Episode, c: seq<Event>) {
    m == Episode(AnyEdit(c), AnySelect(c), LastSnapshot(c), BeforeEdit(c).0, BeforeEdit(c).1)
  }

  method HighlightedRank(candidates: seq<Candidate>) returns (rank: nat)
    ensures rank == Highlight(candidates)
  {
    for i := 0 to |candidates|
      invariant forall j | 0 <= j < i :: !candidates[j].highlighted
    {
      if candidates[i].highlighted {
        return i + 1;
      }
    }
    return 0;
  }

  method HasOrdinaryCandidate(candidates: seq<Candidate>) returns (found: bool)
    ensures found <==> exists i | 0 <= i < |candidates| :: !candidates[i].correction
  {
    for i := 0 to |candidates|
      invariant forall j | 0 <= j < i :: candidates[j].correction
    {
      if !candidates[i].correction {
        return true;
      }
    }
    return false;
  }

  /** A correction leads a composition that also has an ordinary candidate on its
      exact path. */
  method ShowsCorrectionFirst(e: Event) returns (shows: bool)
    ensures shows <==> CorrectionFirst(e)
  {
    if e.kind != Composition || e.composition.None? {
      return false;
    }
    var c := e.composition.value.candidates;
    if !e.composition.value.exact || |c| <= 1 || !c[0].correction {
      return false;
    }
    shows := HasOrdinaryCandidate(c[1..]);
    assert forall i | 0 <= i < |c| - 1 :: c[1..][i] == c[i + 1];
    assert forall i | 1 <= i < |c| :: c[i] == c[1..][i - 1];
  }

  /** Notes an edit: the first one fixes what the episode had offered. */
  method MarkFirstEdit(m: Episode, e: Event, ghost c: seq<Event>) returns (r: Episode)
    requires Summarises(m.(last := LastSnapshot(c)), c) && m.last == LastSnapshot(c + [e]) && Edit(e)
    ensures Summarises(r, c + [e])
  {
    assert (c + [e])[..|c|] == c;
    r := m.(edited := true);
    if m.edited {
      return;
    }
    var shown := if e.composition.Some? then e.composition else m.last;
    if shown.None? {
      return;
    }
    var candidates := shown.value.candidates;
    var rank := HighlightedRank(candidates);
    var text := if rank > 0 then candidates[rank - 1].text else "";
    if text == "" && |candidates| > 0 {
      text := candidates[0].text;
    }
    r := r.(pinyin := shown.value.pinyin, text := text);
  }

  lemma SameEpisodeBlock(h: seq<Event>, e: Event)
    ensures InEpisode(h + [e], e.episode) == InEpisode(h, e.episode) + [e]
  {
    assert (h + [e])[..|h|] == h;
  }

  /** How the memory moves along, but for the first edit. */
  lemma MemoryAppend(m: Episode, c: seq<Event>, e: Event)
    requires Summarises(m, c) && !Edit(e)
    ensures Summarises(m.(selected := m.selected || e.kind == Select,
                          last := if e.composition.Some? then e.composition else m.last), c + [e])
  {
    assert (c + [e])[..|c|] == c;
    NoEditNothingBefore(c);
  }

  lemma {:induction false} NoEditNothingBefore(c: seq<Event>)
    ensures !AnyEdit(c) ==> BeforeEdit(c) == ("", "")
  {
  }

  lemma TotalsAppend(r: Counters, h: seq<Event>, e: Event, r': Counters)
    requires Totals(r, h)
    requires r'.commits == r.commits + Contribution(Commits, h, e)
    requires r'.backspaces == r.backspaces + Contribution(Backspaces, h, e)
    requires r'.deletes == r.deletes + Contribution(Deletes, h, e)
    requires r'.drops == r.drops + Contribution(Drops, h, e)
    requires r'.correctionFirst == r.correctionFirst + Contribution(CorrectionFirsts, h, e)
    requires r'.reranks == r.reranks + Contribution(Reranks, h, e)
    requires r'.replaced == r.replaced + Contribution(Replacements, h, e)
    ensures Totals(r', h + [e])
  {
    SumAppend(Commits, h, e);
    SumAppend(Backspaces, h, e);
    SumAppend(Deletes, h, e);
    SumAppend(Drops, h, e);
    SumAppend(CorrectionFirsts, h, e);
    SumAppend(Reranks, h, e);
    SumAppend(Replacements, h, e);
  }

  function Choose(r: Counters, rank: int): (r': Counters) {
    r.(selections := r.selections + 1, rankSum := r.rankSum + rank,
       histogram := r.histogram[rank := At(r.histogram, rank) + 1])
  }

  lemma ChoicesAppend(r: Counters, h: seq<Event>, e: Event)
    requires Choices(r, h) && 0 <= Chosen(h, e) <= MAX_CANDIDATES
    ensures Choices(if Chosen(h, e) > 0 then Choose(r, Chosen(h, e)) else r, h + [e])
  {
    SumAppend(Selections, h, e);
    SumAppend(RankSum, h, e);
    forall rank ensures Sum(RankCount(rank), h + [e]) == Sum(RankCount(rank), h) + One(Chosen(h, e) == rank) {
      SumAppend(RankCount(rank), h, e);
    }
  }

  /** The counters one event later. */
  ghost function Add(r: Counters, h: seq<Event>, e: Event): (r': Counters) {
    var counted := r.(
      commits := r.commits + Contribution(Commits, h, e), backspaces := r.backspaces + Contribution(Backspaces, h, e),
      deletes := r.deletes + Contribution(Deletes, h, e), drops := r.drops + Contribution(Drops, h, e),
      correctionFirst := r.correctionFirst + Contribution(CorrectionFirsts, h, e),
      reranks := r.reranks + Contribution(Reranks, h, e), replaced := r.replaced + Contribution(Replacements, h, e));
    if Chosen(h, e) > 0 then Choose(counted, Chosen(h, e)) else counted
  }

  ghost function Tally(h: seq<Event>): (r: Counters) {
    if h == [] then EMPTY.counters else Add(Tally(h[..|h| - 1]), h[..|h| - 1], h[|h| - 1])
  }

  lemma {:induction false} TallyTotals(h: seq<Event>)
    ensures Totals(Tally(h), h)
  {
    if h != [] {
      var front, e := h[..|h| - 1], h[|h| - 1];
      assert h == front + [e];
      TallyTotals(front);
      TotalsAppend(Tally(front), front, e, Tally(h));
    }
  }

  lemma {:induction false} TallyChoices(h: seq<Event>)
    requires Stream(h)
    ensures Choices(Tally(h), h)
  {
    if h != [] {
      var front, e := h[..|h| - 1], h[|h| - 1];
      assert h == front + [e];
      TallyChoices(front);
      ChoicesAppend(Tally(front), front, e);
    }
  }

  lemma TallyIsExact(h: seq<Event>)
    requires Stream(h)
    ensures Totals(Tally(h), h) && Choices(Tally(h), h)
  {
    TallyTotals(h);
    TallyChoices(h);
  }

  lemma TallyAppend(h: seq<Event>, e: Event)
    ensures Tally(h + [e]) == Add(Tally(h), h, e)
  {
    assert (h + [e])[..|h|] == h;
  }

  // --- The analyzer ----------------------------------------------------------

  lemma EditedAppend(h: seq<Event>, e: Event)
    ensures Edited(h + [e]) == Edited(h) + (if Edit(e) then {e.episode} else {})
  {
    var g := h + [e];
    assert forall i | 0 <= i < |h| :: g[i] == h[i];
    assert g[|h|] == e;
  }

  lemma {:induction false} EditedIffAnyEdit(h: seq<Event>, id: string)
    ensures id in Edited(h) <==> AnyEdit(InEpisode(h, id))
  {
    if h != [] {
      var front, e := h[..|h| - 1], h[|h| - 1];
      assert h == front + [e];
      EditedIffAnyEdit(front, id);
      EditedAppend(front, e);
      var c := InEpisode(front, id);
      assert InEpisode(h, id) == if e.episode == id then c + [e] else c;
      assert (c + [e])[..|c|] == c;
    }
  }

  /** An edit adds its episode to those edited, once. */
  lemma EditedCount(h: seq<Event>, e: Event)
    ensures |Edited(h + [e])| - One(AnyEdit(InEpisode(h + [e], e.episode)))
              == |Edited(h)| - One(AnyEdit(InEpisode(h, e.episode)))
  {
    EditedAppend(h, e);
    EditedIffAnyEdit(h, e.episode);
    EditedIffAnyEdit(h + [e], e.episode);
    if Edit(e) && e.episode in Edited(h) {
      assert Edited(h + [e]) == Edited(h);
    }
  }

  /** The analyzer's fields after the stream `h`. */
  ghost predicate Books(report: Report, current: string, episode: Episode, finished: bool, h: seq<Event>) {
    && current == (if h == [] then "" else h[|h| - 1].episode)
    && Summarises(episode, Current(h))
    && report.events == |h| && report.episodes == |Episodes(h)|
    && report.counters == Tally(h)
    && report.editedEpisodes + (if finished then 0 else One(episode.edited)) == |Edited(h)|
  }

  /** The books after one more event. */
  lemma BooksAppend(report: Report, episode: Episode, h: seq<Event>, e: Event, g: seq<Event>)
    requires g == h + [e] && Summarises(episode, InEpisode(h, e.episode) + [e])
    requires report.events == |g| && report.episodes == |Episodes(g)| && report.counters == Tally(g)
    requires report.editedEpisodes + One(AnyEdit(InEpisode(h, e.episode))) == |Edited(h)|
    ensures Books(report, e.episode, episode, false, g)
  {
    EditedNow(report, episode, h, e);
    SameEpisodeBlock(h, e);
    assert g[|g| - 1] == e;
  }

  lemma EditedNow(report: Report, episode: Episode, h: seq<Event>, e: Event)
    requires Summarises(episode, InEpisode(h, e.episode) + [e])
    requires report.editedEpisodes + One(AnyEdit(InEpisode(h, e.episode))) == |Edited(h)|
    ensures report.editedEpisodes + One(episode.edited) == |Edited(h + [e])|
  {
    SameEpisodeBlock(h, e);
    EditedCount(h, e);
  }

  /** The counters after one more event, from the memory of its episode. */
  method CountEvent(before: Counters, episode: Episode, event: Event, ghost h: seq<Event>) returns (counters: Counters)
    requires ValidEvent(event) && Summarises(episode, InEpisode(h, event.episode))
    ensures counters == Add(before, h, event)
  {
    counters := before;
    var exactFirst := ShowsCorrectionFirst(event);
    if exactFirst {
      counters := counters.(correctionFirst := counters.correctionFirst + 1);
    }
    var rank := 0;
    match event.kind {
      case Select =>
        rank := event.rank.value;
        if Rerank(event) {
          counters := counters.(reranks := counters.reranks + 1);
        }
      case Backspace => counters := counters.(backspaces := counters.backspaces + event.count);
      case Delete => counters := counters.(deletes := counters.deletes + event.count);
      case DropCount => counters := counters.(drops := counters.drops + event.count);
      case Commit =>
        counters := counters.(commits := counters.commits + 1);
        if !episode.selected {
          rank := HighlightedRank(event.composition.value.candidates);
        }
        if episode.edited && event.composition.value.pinyin == episode.pinyin && episode.text != "" &&
           event.text != episode.text {
          counters := counters.(replaced := counters.replaced + 1);
        }
      case _ =>
    }
    if rank > 0 {
      counters := Choose(counters, rank);
    }
  }

  /** The episode memory after one more event. */
  method NoteEvent(before: Episode, event: Event, ghost c: seq<Event>) returns (episode: Episode)
    requires Summarises(before, c)
    ensures Summarises(episode, c + [event])
  {
    episode := before;
    if event.composition.Some? {
      episode := episode.(last := event.composition);
    }
    assert (c + [event])[..|c|] == c;
    if Edit(event) {
      episode := MarkFirstEdit(episode, event, c);
    } else {
      MemoryAppend(before, c, event);
      if event.kind == Select {
        episode := episode.(selected := true);
      }
    }
  }

  class Analyzer {
    const checker: Checker
    var report: Report
    var current: string
    var episode: Episode
    var finished: bool

    ghost predicate Valid()
      reads this, checker
    {
      checker.Valid() && Books(report, current, episode, finished, checker.history)
    }

    constructor ()
      ensures Valid() && fresh(checker) && checker.history == [] && !finished
    {
      checker := new Checker();
      report, current, episode, finished := EMPTY, "", NEW_EPISODE, false;
    }

    /** Closes the books on the episode in progress. */
    method FinishEpisode()
      modifies this`report
      ensures report == old(report).(editedEpisodes := old(report).editedEpisodes + if current != "" && episode.edited
                                       then 1 else 0)
    {
      if current != "" && episode.edited {
        report := report.(editedEpisodes := report.editedEpisodes + 1);
      }
    }

    method Accept(event: Event) returns (ok: bool)
      requires Valid()
      modifies this, checker
      ensures Valid() && finished == old(finished)
      ensures ok <==> !old(finished) && Admissible(old(checker.history), event)
      ensures checker.history == if ok then old(checker.history) + [event] else old(checker.history)
      ensures !ok ==> report == old(report)
    {
      if finished {
        return false;
      }
      ghost var h := checker.history;
      ok := checker.Accept(event);
      if ok {
        Record(event, h);
      }
    }

    /** What an admitted event does to the report. */
    method Record(event: Event, ghost h: seq<Event>)
      requires Stream(h) && Admissible(h, event)
      requires Books(report, current, episode, false, h)
      modifies this`report, this`current, this`episode
      ensures Books(report, current, episode, false, h + [event])
    {
      Enter(event, h);
      Digest(event, h);
      TallyAppend(h, event);
      BooksAppend(report, episode, h, event, h + [event]);
    }

    /** Moves on to the episode of the next event. */
    method Enter(event: Event, ghost h: seq<Event>)
      requires Stream(h) && Admissible(h, event)
      requires Books(report, current, episode, false, h)
      modifies this`report, this`current, this`episode
      ensures current == event.episode && Summarises(episode, InEpisode(h, event.episode))
      ensures report.events == |h| + 1 && report.counters == old(report.counters)
      ensures report.episodes == |Episodes(h + [event])|
      ensures report.editedEpisodes + One(AnyEdit(InEpisode(h, event.episode))) == |Edited(h)|
    {
      AppendCurrent(h, event);
      if h != [] {
        StreamEvents(h, |h| - 1);
      }
      report := report.(events := report.events + 1);
      if event.episode != current {
        NotSeen(h, event.episode);
        FinishEpisode();
        current := event.episode;
        episode := NEW_EPISODE;
        report := report.(episodes := report.episodes + 1);
      } else {
        assert Episodes(h + [event]) == Episodes(h);
      }
    }

    /** The counters and the episode memory after one more event. */
    method Digest(event: Event, ghost h: seq<Event>)
      requires ValidEvent(event)
      requires Summarises(episode, InEpisode(h, event.episode))
      modifies this`report, this`episode
      ensures Summarises(episode, InEpisode(h, event.episode) + [event])
      ensures report == old(report).(counters := Add(old(report.counters), h, event))
    {
      var counters := CountEvent(report.counters, episode, event, h);
      report := report.(counters := counters);
      episode := NoteEvent(episode, event, InEpisode(h, event.episode));
    }

    /** Finishing is final: the report is exact, and asking again changes nothing. */
    method Finish() returns (r: Report)
      requires Valid()
      modifies this`report, this`finished
      ensures Valid() && finished
      ensures r == report && Exact(r, checker.history)
      ensures old(finished) ==> r == old(report)
    {
      if !finished {
        FinishEpisode();
        finished := true;
      }
      TallyIsExact(checker.history);
      return report;
    }
  }

  lemma NextPrefix(events: seq<Event>, i: nat)
    requires i < |events|
    ensures events[..i + 1] == events[..i] + [events[i]]
  {
  }

  /** Analyzing a list of events succeeds exactly on streams, with an exact report. */
  method Analyze(events: seq<Event>) returns (r: Result<Report>)
    ensures r.Ok? <==> Stream(events)
    ensures r.Ok? ==> Exact(r.value, events)
  {
    var analyzer := new Analyzer();
    for i := 0 to |events|
      invariant analyzer.Valid() && !analyzer.finished && fresh(analyzer) && fresh(analyzer.checker)
      invariant analyzer.checker.history == events[..i]
    {
      if Stream(events) {
        StreamPrefix(events, i);
      }
      var ok := analyzer.Accept(events[i]);
      if !ok {
        return Err;
      }
      NextPrefix(events, i);
    }
    assert events[..|events|] == events;
    var report := analyzer.Finish();
    return Ok(report);
  }
}
