/** Session correction learning (librime-yunpin/src/session_learning.cpp) around the
    adjacency slots of CorrectionLearning. Its score changes are characterised over
    whole event traces. Pinyin is normalised and a phrase is a sequence of Unicode
    scalars. */
module SessionLearning {
  import opened Wrappers
  import opened ScoreLimits
  import opened CorrectionLearning

  const MAX_TRACKED := 50000

  /** `normal` is false in private, password and one-shot contexts; `monitorable`
      is the outcome of the content filters. `at` is the clock reading the expiry
      check of an observer sees, `armed` the second reading of a commit, which starts
      its correction window. */
  datatype Event =
    | Commit(entry: Entry, day: string, normal: bool, monitorable: bool, at: int, armed: int)
    | Key(backspace: bool, normal: bool, at: int)
    | Compose(empty: bool, pinyin: string, normal: bool, at: int)
    | Break

  // --- Corrections in a trace ------------------------------------------------

  predicate Learnable(e: Event) {
    e.Commit? && e.normal && e.entry.pinyin != "" && e.entry.phrase != "" && e.monitorable
  }

  function KeyOf(e: Event): (r: Selection)
    requires e.Commit?
  {
    Selection(e.day, e.entry)
  }

  /** The statistics a trace keeps, up to the limit. */
  ghost function Tracked(tr: seq<Event>): (r: set<Selection>) {
    if tr == [] then {}
    else
      var t, e := Tracked(tr[..|tr| - 1]), tr[|tr| - 1];
      if Learnable(e) && (KeyOf(e) in t || |t| < MAX_TRACKED) then t + {KeyOf(e)} else t
  }

  /** The commit is recorded when it comes after `tr`. */
  ghost predicate Recorded(tr: seq<Event>, e: Event) {
    Learnable(e) && (KeyOf(e) in Tracked(tr) || |Tracked(tr)| < MAX_TRACKED)
  }

  predicate InTime(e: Event, deadline: int) {
    !e.Break? && e.at <= deadline
  }

  predicate Backspace(e: Event) {
    e.Key? && e.backspace
  }

  /** Leaves a deletion in progress alone: a plain Backspace or an empty composition. */
  predicate Quiet(e: Event, deadline: int) {
    (Backspace(e) || (e.Compose? && e.empty)) && e.normal && InTime(e, deadline)
  }

  ghost function Backspaces(es: seq<Event>): (r: nat) {
    if es == [] then 0 else Backspaces(es[..|es| - 1]) + (if Backspace(es[|es| - 1]) then 1 else 0)
  }

  /** Only quiet events, with `n` backspaces. */
  ghost predicate Deletes(es: seq<Event>, n: nat, deadline: int) {
    (forall i | 0 <= i < |es| :: Quiet(es[i], deadline)) && Backspaces(es) == n
  }

  /** Composes a prefix of the same pinyin, or nothing. */
  predicate Retypes(e: Event, pinyin: string, deadline: int) {
    e.Compose? && e.normal && InTime(e, deadline) && (e.empty || (e.pinyin != "" && e.pinyin <= pinyin))
  }

  /** Compositions only: empty ones, then prefixes of the pinyin. */
  ghost predicate Retyping(es: seq<Event>, pinyin: string, deadline: int) {
    && (forall i | 0 <= i < |es| :: Retypes(es[i], pinyin, deadline))
    && (forall i, j | 0 <= i < j < |es| && es[j].empty :: es[i].empty)
  }

  ghost predicate Started(es: seq<Event>) {
    es != [] && es[|es| - 1].Compose? && !es[|es| - 1].empty
  }

  /** The whole committed entry was deleted, scalar by scalar, by the first `cut` events,
      and the others retype it. */
  ghost predicate Erased(es: seq<Event>, cut: nat, entry: Entry, deadline: int) {
    && 1 <= cut <= |es|
    && Deletes(es[..cut], |entry.phrase|, deadline) && Backspace(es[cut - 1])
    && Retyping(es[cut..], entry.pinyin, deadline)
  }

  /** After a recorded commit at `j`, its deletion is in progress with `n` backspaces. */
  ghost predicate DeletingAt(tr: seq<Event>, j: nat, n: nat, window: nat) {
    && j < |tr| && Recorded(tr[..j], tr[j])
    && n < |tr[j].entry.phrase| && Deletes(tr[j + 1..], n, tr[j].armed + window)
  }

  /** After a recorded commit at `j`, its replacement is awaited. */
  ghost predicate AwaitingAt(tr: seq<Event>, j: nat, cut: nat, window: nat) {
    && j < |tr| && Recorded(tr[..j], tr[j])
    && Erased(tr[j + 1..], cut, tr[j].entry, tr[j].armed + window)
  }

  /** The commit `e` after `tr` corrects the commit at `j`: another phrase for the same
      pinyin, in time. */
  ghost predicate Corrects(tr: seq<Event>, j: nat, e: Event, window: nat) {
    && Recorded(tr, e) && (exists cut :: AwaitingAt(tr, j, cut, window))
    && e.entry.pinyin == tr[j].entry.pinyin && e.entry.phrase != tr[j].entry.phrase
    && e.at <= tr[j].armed + window
  }

  /** The entry that `e` corrects when it comes after `tr`. */
  ghost function Corrected(tr: seq<Event>, e: Event, window: nat): (r: Option<Entry>) {
    if exists j: nat :: j < |tr| && Corrects(tr, j, e, window)
    then var j: nat :| j < |tr| && Corrects(tr, j, e, window); Some(tr[j].entry) else None
  }

  // --- Scores ----------------------------------------------------------------

  /** One feedback; a new entry finds no place in a full table. */
  function Feed(scores: map<Entry, int>, entry: Entry, delta: int): (r: map<Entry, int>) {
    if entry in scores then scores[entry := Clamp(scores[entry] + delta)]
    else if |scores| >= MAX_TRACKED then scores
    else scores[entry := Clamp(delta)]
  }

  /** The scores a trace leads to. */
  ghost function Scores(tr: seq<Event>, window: nat): (r: map<Entry, int>) {
    if tr == [] then map[]
    else
      var s, e := Scores(tr[..|tr| - 1], window), tr[|tr| - 1];
      var wrong := Corrected(tr[..|tr| - 1], e, window);
      if wrong.Some? && e.Commit? then Feed(Feed(s, wrong.value, -1), e.entry, 1) else s
  }

  function Score(scores: map<Entry, int>, entry: Entry): (r: int) {
    if entry in scores then scores[entry] else 0
  }

  // --- How a trace grows -----------------------------------------------------

  lemma DeletesAppend(es: seq<Event>, e: Event, m: nat, deadline: int)
    ensures var b := if Backspace(e) then 1 else 0;
            Deletes(es + [e], m, deadline) <==> Quiet(e, deadline) && m >= b && Deletes(es, m - b, deadline)
  {
    var fs := es + [e];
    assert fs[..|es|] == es && fs[|es|] == e;
    assert forall i | 0 <= i < |es| :: fs[i] == es[i];
  }

  lemma RetypingAppend(es: seq<Event>, e: Event, pinyin: string, deadline: int)
    ensures Retyping(es + [e], pinyin, deadline) <==>
            Retyping(es, pinyin, deadline) && Retypes(e, pinyin, deadline) && (e.empty ==> !Started(es))
  {
    var fs := es + [e];
    assert fs[|es|] == e;
    assert forall i | 0 <= i < |es| :: fs[i] == es[i];
    if Retyping(es, pinyin, deadline) && Retypes(e, pinyin, deadline) && e.empty && !Started(es) {
      assert forall i | 0 <= i < |es| :: es[i].empty;
    }
  }

  /** A deletion is complete with its last backspace; then only retyping follows. */
  lemma ErasedAppend(es: seq<Event>, e: Event, cut: nat, entry: Entry, deadline: int)
    ensures Erased(es + [e], cut, entry, deadline) <==>
              || (cut == |es| + 1 && Backspace(e) && Quiet(e, deadline) && entry.phrase != "" &&
                  Deletes(es, |entry.phrase| - 1, deadline))
              || (Erased(es, cut, entry, deadline) && Retypes(e, entry.pinyin, deadline) &&
                  (e.empty ==> !Started(es[cut..])))
  {
    var fs := es + [e];
    if cut == |es| + 1 {
      assert fs[..cut] == fs && fs[cut..] == [];
      DeletesAppend(es, e, |entry.phrase|, deadline);
    } else if 1 <= cut <= |es| {
      assert fs[..cut] == es[..cut] && fs[cut..] == es[cut..] + [e] && fs[cut - 1] == es[cut - 1];
      RetypingAppend(es[cut..], e, entry.pinyin, deadline);
    }
  }

  // --- The state of a trace --------------------------------------------------

  datatype Status = Unarmed | Deleting(from: nat, count: nat) | Awaiting(from: nat, cut: nat)

  ghost predicate Holds(tr: seq<Event>, s: Status, window: nat) {
    match s
    case Unarmed => forall j: nat, n: nat :: !DeletingAt(tr, j, n, window) && !AwaitingAt(tr, j, n, window)
    case Deleting(j, n) => DeletingAt(tr, j, n, window)
    case Awaiting(j, cut) => AwaitingAt(tr, j, cut, window)
  }

  ghost function Advance(tr: seq<Event>, s: Status, e: Event, window: nat): (r: Status)
    requires Holds(tr, s, window)
  {
    if e.Commit? then (if Recorded(tr, e) then Deleting(|tr|, 0) else Unarmed)
    else
      match s
      case Unarmed => Unarmed
      case Deleting(j, n) =>
        if !Quiet(e, tr[j].armed + window) then Unarmed
        else if !Backspace(e) then s
        else if n + 1 < |tr[j].entry.phrase| then Deleting(j, n + 1)
        else Awaiting(j, |tr| - j)
      case Awaiting(j, cut) =>
        if Retypes(e, tr[j].entry.pinyin, tr[j].armed + window) && (e.empty ==> !Started(tr[j + 1..][cut..])) then s
             else Unarmed
  }

  lemma {:induction false} SomeBackspaces(es: seq<Event>, k: nat)
    requires k <= |es|
    ensures Backspaces(es[..k]) <= Backspaces(es)
  {
    if k < |es| {
      SomeBackspaces(es[..|es| - 1], k);
      assert es[..|es| - 1][..k] == es[..k];
    } else {
      assert es[..k] == es;
    }
  }

  /** Nothing after a live commit is a commit. */
  lemma LiveIsLast(tr: seq<Event>, j: nat, n: nat, i: nat, window: nat)
    requires DeletingAt(tr, j, n, window) || AwaitingAt(tr, j, n, window)
    requires j < i < |tr|
    ensures !tr[i].Commit?
  {
    var es := tr[j + 1..];
    assert tr[i] == es[i - j - 1];
    if AwaitingAt(tr, j, n, window) {
      if i - j - 1 < n {
        assert es[..n][i - j - 1] == tr[i];
      } else {
        assert es[n..][i - j - 1 - n] == tr[i];
      }
    }
  }

  /** A trace is in one state. */
  lemma StatusUnique(tr: seq<Event>, s: Status, t: Status, window: nat)
    requires Holds(tr, s, window) && Holds(tr, t, window)
    ensures s == t
  {
    if s != Unarmed && t != Unarmed {
      var n, m := if s.Deleting? then s.count else s.cut, if t.Deleting? then t.count else t.cut;
      if s.from < t.from {
        LiveIsLast(tr, s.from, n, t.from, window);
      } else if t.from < s.from {
        LiveIsLast(tr, t.from, m, s.from, window);
      } else {
        var es := tr[s.from + 1..];
        if s.Awaiting? {
          SomeBackspaces(es, s.cut);
        }
        if t.Awaiting? {
          SomeBackspaces(es, t.cut);
        }
        if s.Awaiting? && t.Awaiting? {
          SameCut(es, s.cut, t.cut, tr[s.from].entry, tr[s.from].armed + window);
        }
      }
    }
  }

  lemma NoLaterBackspace(es: seq<Event>, cut: nat, i: nat, entry: Entry, deadline: int)
    requires Erased(es, cut, entry, deadline) && cut <= i < |es|
    ensures !Backspace(es[i])
  {
    assert es[cut..][i - cut] == es[i];
  }

  lemma SameCut(es: seq<Event>, a: nat, b: nat, entry: Entry, deadline: int)
    requires Erased(es, a, entry, deadline) && Erased(es, b, entry, deadline)
    ensures a == b
  {
    forall i: nat | a <= i < |es| ensures !Backspace(es[i]) {
      NoLaterBackspace(es, a, i, entry, deadline);
    }
    forall i: nat | b <= i < |es| ensures !Backspace(es[i]) {
      NoLaterBackspace(es, b, i, entry, deadline);
    }
  }

  /** The deletion of the commit at `j`, one event later. */
  lemma DeletingAppend(tr: seq<Event>, e: Event, j: nat, m: nat, window: nat)
    requires j < |tr|
    ensures var b := if Backspace(e) then 1 else 0;
            DeletingAt(tr + [e], j, m, window) <==>
              tr[j].Commit? && m < |tr[j].entry.phrase| && Quiet(e, tr[j].armed + window) && m >= b &&
                  DeletingAt(tr, j, m - b, window)
  {
    assert (tr + [e])[..j] == tr[..j] && (tr + [e])[j] == tr[j];
    assert (tr + [e])[j + 1..] == tr[j + 1..] + [e];
    if tr[j].Commit? {
      DeletesAppend(tr[j + 1..], e, m, tr[j].armed + window);
    }
  }

  lemma AwaitingAppend(tr: seq<Event>, e: Event, j: nat, cut: nat, window: nat)
    requires j < |tr| && tr[j].Commit?
    ensures AwaitingAt(tr + [e], j, cut, window) <==>
              || (cut == |tr| - j && Backspace(e) && Quiet(e, tr[j].armed + window) && tr[j].entry.phrase != "" &&
                  DeletingAt(tr, j, |tr[j].entry.phrase| - 1, window))
              || (AwaitingAt(tr, j, cut, window) && Retypes(e, tr[j].entry.pinyin, tr[j].armed + window) &&
                  (e.empty ==> !Started(tr[j + 1..][cut..])))
  {
    assert (tr + [e])[..j] == tr[..j] && (tr + [e])[j] == tr[j];
    assert (tr + [e])[j + 1..] == tr[j + 1..] + [e];
    ErasedAppend(tr[j + 1..], e, cut, tr[j].entry, tr[j].armed + window);
  }

  lemma NewCommit(tr: seq<Event>, e: Event, n: nat, window: nat)
    ensures DeletingAt(tr + [e], |tr|, n, window) <==> Recorded(tr, e) && n == 0
    ensures !AwaitingAt(tr + [e], |tr|, n, window)
  {
    assert (tr + [e])[..|tr|] == tr && (tr + [e])[|tr|] == e && (tr + [e])[|tr| + 1..] == [];
  }

  /** What is live one event later was live before, or is the event itself. */
  lemma LiveBefore(tr: seq<Event>, s: Status, e: Event, j: nat, n: nat, window: nat)
    requires Holds(tr, s, window)
    requires DeletingAt(tr + [e], j, n, window) || AwaitingAt(tr + [e], j, n, window)
    ensures Holds(tr + [e], Advance(tr, s, e, window), window) && Advance(tr, s, e, window) != Unarmed
  {
    if j == |tr| {
      NewCommit(tr, e, n, window);
    } else {
      assert (tr + [e])[j] == tr[j];
      DeletingAppend(tr, e, j, n, window);
      AwaitingAppend(tr, e, j, n, window);
      var t := if DeletingAt(tr + [e], j, n, window) then Deleting(j, if Backspace(e) then n - 1 else n)
               else if AwaitingAt(tr, j, n, window) then Awaiting(j, n)
               else Deleting(j, |tr[j].entry.phrase| - 1);
      assert Holds(tr, t, window);
      StatusUnique(tr, s, t, window);
    }
  }

  lemma StatusAdvances(tr: seq<Event>, s: Status, e: Event, window: nat)
    requires Holds(tr, s, window)
    ensures Holds(tr + [e], Advance(tr, s, e, window), window)
  {
    var t := Advance(tr, s, e, window);
    match t
    case Unarmed =>
      forall j: nat, n: nat ensures !DeletingAt(tr + [e], j, n, window) && !AwaitingAt(tr + [e], j, n, window) {
        if DeletingAt(tr + [e], j, n, window) || AwaitingAt(tr + [e], j, n, window) {
          LiveBefore(tr, s, e, j, n, window);
        }
      }
    case Deleting(j, n) =>
      if j == |tr| {
        NewCommit(tr, e, n, window);
      } else {
        DeletingAppend(tr, e, j, n, window);
      }
    case Awaiting(j, cut) => AwaitingAppend(tr, e, j, cut, window);
  }

  /** A commit corrects exactly the entry whose replacement is awaited. */
  lemma CorrectedByStatus(tr: seq<Event>, s: Status, e: Event, window: nat)
    requires Holds(tr, s, window)
    ensures Corrected(tr, e, window) ==
              if s.Awaiting? && Recorded(tr, e) && e.entry.pinyin == tr[s.from].entry.pinyin &&
                 e.entry.phrase != tr[s.from].entry.phrase && e.at <= tr[s.from].armed + window
              then Some(tr[s.from].entry) else None
  {
    forall j: nat | j < |tr| && Corrects(tr, j, e, window) ensures s.Awaiting? && s.from == j {
      var cut :| AwaitingAt(tr, j, cut, window);
      StatusUnique(tr, s, Awaiting(j, cut), window);
    }
    if s.Awaiting? {
      assert AwaitingAt(tr, s.from, s.cut, window);
      var a := tr[s.from];
      if Recorded(tr, e) && e.entry.pinyin == a.entry.pinyin && e.entry.phrase != a.entry.phrase &&
         e.at <= a.armed + window {
        assert Corrects(tr, s.from, e, window);
      }
    }
  }

  lemma ScoresAppend(tr: seq<Event>, e: Event, window: nat)
    ensures Scores(tr + [e], window) ==
              var wrong := Corrected(tr, e, window);
              if wrong.Some? && e.Commit? then Feed(Feed(Scores(tr, window), wrong.value, -1), e.entry, 1)
                   else Scores(tr, window)
    ensures Tracked(tr + [e]) == if Recorded(tr, e) then Tracked(tr) + {KeyOf(e)} else Tracked(tr)
  {
    assert (tr + [e])[..|tr|] == tr;
  }

  /** A score changes only with the commit that completes a correction, and then the
      replaced entry loses one and the replacement gains one, up to saturation and as
      long as the table has the entry or room for it. */
  lemma ScoreChangesExactlyOnCorrection(tr: seq<Event>, e: Event, window: nat, entry: Entry)
    ensures var s, wrong := Scores(tr, window), Corrected(tr, e, window);
            Score(Scores(tr + [e], window), entry) ==
              if wrong.Some? && entry == wrong.value && HasRoom(s, entry, 0) then Clamp(Score(s, entry) - 1)
              else if wrong.Some? && entry == e.entry && HasRoom(s, entry, if wrong.value in s then 0 else 1)
                then Clamp(Score(s, entry) + 1)
              else Score(s, entry)
  {
    ScoresAppend(tr, e, window);
    var s, wrong := Scores(tr, window), Corrected(tr, e, window);
    if wrong.Some? {
      CorrectedDiffers(tr, e, window);
      FedScores(s, wrong.value, e.entry, entry);
    }
  }

  /** The two feedbacks of a correction. */
  lemma FedScores(s: map<Entry, int>, wrong: Entry, right: Entry, entry: Entry)
    requires wrong != right
    ensures Score(Feed(Feed(s, wrong, -1), right, 1), entry) ==
              if entry == wrong && HasRoom(s, entry, 0) then Clamp(Score(s, entry) - 1)
              else if entry == right && HasRoom(s, entry, if wrong in s then 0 else 1) then Clamp(Score(s, entry) + 1)
              else Score(s, entry)
  {
    FeedSize(s, wrong, -1);
  }

  /** The table has the entry, or room for it after `more` others. */
  predicate HasRoom(scores: map<Entry, int>, entry: Entry, more: nat) {
    entry in scores || |scores| + more < MAX_TRACKED
  }

  lemma FeedSize(scores: map<Entry, int>, entry: Entry, delta: int)
    ensures var after := Feed(scores, entry, delta);
            |after| == |scores| + if entry !in scores && |scores| < MAX_TRACKED then 1 else 0
  {
    var after := Feed(scores, entry, delta);
    assert after.Keys == if entry in scores || |scores| < MAX_TRACKED then scores.Keys + {entry} else scores.Keys;
  }

  lemma CorrectedDiffers(tr: seq<Event>, e: Event, window: nat)
    requires Corrected(tr, e, window).Some?
    ensures e.Commit? && e.entry != Corrected(tr, e, window).value
  {
  }

  // --- The fields of the learner ---------------------------------------------

  datatype Phase = Idle | DeletingCommittedEntry | AwaitingReplacement

  datatype Pending = Pending(entry: Entry, count: nat, started: bool, deadline: int)

  /** The outer phase with its pending commit, and the two inner slots. */
  datatype View = View(phase: Phase, pending: Option<Pending>, last: Option<Selection>, wrong: Option<Selection>)

  const IDLE := View(Idle, None, None, None)

  /** The fields a status calls for: the outer phase matches the inner slots. */
  ghost function ViewOf(tr: seq<Event>, s: Status, window: nat): (r: View)
    requires Holds(tr, s, window)
  {
    match s
    case Unarmed => IDLE
    case Deleting(j, n) =>
      View(DeletingCommittedEntry, Some(Pending(tr[j].entry, n, false, tr[j].armed + window)), Some(KeyOf(tr[j])), None)
    case Awaiting(j, cut) =>
      AwaitingView(tr[j].entry, Started(tr[j + 1..][cut..]), tr[j].armed + window, KeyOf(tr[j]))
  }

  ghost predicate Coherent(v: View) {
    match v.phase
    case Idle => v == IDLE
    case DeletingCommittedEntry =>
      v.pending.Some? && v.pending.value.count < |v.pending.value.entry.phrase| && v.last.Some? && v.wrong.None? &&
      !v.pending.value.started && v.last.value.entry == v.pending.value.entry
    case AwaitingReplacement =>
      v.pending.Some? && v.last.None? && v.wrong.Some? && v.wrong.value.entry == v.pending.value.entry
  }

  /** The fields one event later. */
  ghost function StepView(v: View, e: Event, recorded: bool, window: nat): (r: View) {
    match e
    case Break => IDLE
    case Commit(entry, day, _, _, _, armed) =>
      if recorded then
        View(DeletingCommittedEntry, Some(Pending(entry, 0, false, armed + window)), Some(Selection(day, entry)), None)
      else IDLE
    case Key(backspace, normal, at) =>
      if v.phase != DeletingCommittedEntry || v.pending.None? || !normal || !backspace || at > v.pending.value.deadline
           then IDLE
      else
        var p := v.pending.value.(count := v.pending.value.count + 1);
        if p.count < |p.entry.phrase| then v.(pending := Some(p))
        else View(AwaitingReplacement, Some(p), None, v.last)
    case Compose(empty, pinyin, normal, at) =>
      if v.phase == Idle || v.pending.None? || !normal || at > v.pending.value.deadline then IDLE
      else if empty then (if v.pending.value.started then IDLE else v)
      else if pinyin == "" || v.phase != AwaitingReplacement || !(pinyin <= v.pending.value.entry.pinyin) then IDLE
      else v.(pending := Some(v.pending.value.(started := true)))
  }

  ghost function WrongIn(v: View, e: Event, recorded: bool): (r: Option<Entry>) {
    if v.phase == AwaitingReplacement && v.pending.Some? && recorded && e.Commit? &&
       e.entry.pinyin == v.pending.value.entry.pinyin && e.entry.phrase != v.pending.value.entry.phrase &&
       e.at <= v.pending.value.deadline
    then Some(v.pending.value.entry) else None
  }

  lemma StartedNext(tr: seq<Event>, e: Event, j: nat, cut: nat)
    requires j < |tr| && cut <= |tr| - j - 1 && e.Compose?
    ensures Started((tr + [e])[j + 1..][cut..]) <==> !e.empty
  {
    assert (tr + [e])[j + 1..][cut..] == tr[j + 1..][cut..] + [e];
  }

  lemma NotStarted(tr: seq<Event>, e: Event, j: nat)
    requires j < |tr| && Backspace(e)
    ensures !Started((tr + [e])[j + 1..][|tr| - j..])
  {
    assert (tr + [e])[j + 1..][|tr| - j..] == [];
  }

  lemma ViewOfCommit(tr: seq<Event>, e: Event, window: nat)
    requires e.Commit? && Holds(tr + [e], Deleting(|tr|, 0), window)
    ensures ViewOf(tr + [e], Deleting(|tr|, 0), window) ==
            View(DeletingCommittedEntry, Some(Pending(e.entry, 0, false, e.armed + window)), Some(KeyOf(e)), None)
  {
    assert (tr + [e])[|tr|] == e;
  }

  lemma ViewOfKey(tr: seq<Event>, s: Status, e: Event, window: nat)
    requires Holds(tr, s, window) && Coherent(ViewOf(tr, s, window)) && e.Key?
    requires Holds(tr + [e], Advance(tr, s, e, window), window)
    ensures ViewOf(tr + [e], Advance(tr, s, e, window), window) == StepView(ViewOf(tr, s, window), e, false, window)
  {
    if s.Deleting? {
      assert (tr + [e])[s.from] == tr[s.from];
      if Backspace(e) {
        NotStarted(tr, e, s.from);
      }
    }
  }

  lemma ViewOfCompose(tr: seq<Event>, s: Status, e: Event, window: nat)
    requires Holds(tr, s, window) && Coherent(ViewOf(tr, s, window)) && e.Compose?
    requires Holds(tr + [e], Advance(tr, s, e, window), window)
    ensures ViewOf(tr + [e], Advance(tr, s, e, window), window) == StepView(ViewOf(tr, s, window), e, false, window)
  {
    if s.Awaiting? {
      ViewOfRetyping(tr, s, e, window);
    } else if s.Deleting? {
      assert (tr + [e])[s.from] == tr[s.from];
    }
  }

  lemma ViewOfRetyping(tr: seq<Event>, s: Status, e: Event, window: nat)
    requires s.Awaiting? && Holds(tr, s, window) && Coherent(ViewOf(tr, s, window)) && e.Compose?
    requires Holds(tr + [e], Advance(tr, s, e, window), window)
    ensures ViewOf(tr + [e], Advance(tr, s, e, window), window) == StepView(ViewOf(tr, s, window), e, false, window)
  {
    var j, cut := s.from, s.cut;
    assert (tr + [e])[j] == tr[j];
    StartedNext(tr, e, j, cut);
    RetypingView(tr[j].entry, Started(tr[j + 1..][cut..]), tr[j].armed + window, KeyOf(tr[j]), e, window);
  }

  /** The fields of an awaited replacement, by the entry to replace. */
  ghost function AwaitingView(entry: Entry, started: bool, deadline: int, key: Selection): (r: View) {
    View(AwaitingReplacement, Some(Pending(entry, |entry.phrase|, started, deadline)), None, Some(key))
  }

  /** A composition keeps a replacement awaited exactly when it retypes the pinyin. */
  lemma RetypingView(entry: Entry, started: bool, deadline: int, key: Selection, e: Event, window: nat)
    requires e.Compose?
    ensures StepView(AwaitingView(entry, started, deadline, key), e, false, window) ==
              if Retypes(e, entry.pinyin, deadline) && (e.empty ==> !started)
              then AwaitingView(entry, !e.empty, deadline, key) else IDLE
  {
  }

  /** The fields follow the trace. */
  lemma ViewFollows(tr: seq<Event>, s: Status, e: Event, window: nat)
    requires Holds(tr, s, window)
    ensures Coherent(ViewOf(tr, s, window))
    ensures Holds(tr + [e], Advance(tr, s, e, window), window)
    ensures ViewOf(tr + [e], Advance(tr, s, e, window), window)
              == StepView(ViewOf(tr, s, window), e, Recorded(tr, e), window)
  {
    StatusAdvances(tr, s, e, window);
    match e
    case Commit(_, _, _, _, _, _) =>
      if Recorded(tr, e) {
        ViewOfCommit(tr, e, window);
      }
    case Key(_, _, _) => ViewOfKey(tr, s, e, window);
    case Compose(_, _, _, _) => ViewOfCompose(tr, s, e, window);
    case Break =>
  }

  lemma WrongFollows(tr: seq<Event>, s: Status, e: Event, window: nat)
    requires Holds(tr, s, window)
    ensures Corrected(tr, e, window) == WrongIn(ViewOf(tr, s, window), e, Recorded(tr, e))
  {
    CorrectedByStatus(tr, s, e, window);
  }

  // --- The learner -----------------------------------------------------------

  class Session {
    const window: nat
    const learning: Learning
    var tracked: set<Selection>
    var scores: map<Entry, int>
    var phase: Phase
    var pending: Option<Pending>
    ghost var trace: seq<Event>
    ghost var status: Status

    ghost function Fields(): (r: View)
      reads this, learning
    {
      View(phase, pending, learning.last, learning.wrong)
    }

    /** The tables agree. */
    ghost predicate TablesOk()
      reads this, learning
    {
      learning.Valid() && tracked == learning.habits.Keys && |tracked| <= MAX_TRACKED
    }

    /** Everything the learner holds is what its trace calls for. */
    ghost predicate Valid()
      reads this, learning
    {
      && TablesOk() && tracked == Tracked(trace) && scores == Scores(trace, window)
      && Holds(trace, status, window) && Fields() == ViewOf(trace, status, window)
    }

    constructor (window: nat)
      ensures Valid() && trace == [] && fresh(learning) && this.window == window
    {
      this.window := window;
      learning := new Learning();
      tracked, scores, phase, pending, trace, status := {}, map[], Idle, None, [], Unarmed;
    }

    method BreakLocked()
      requires TablesOk()
      modifies this`phase, this`pending, learning`last, learning`wrong
      ensures TablesOk() && Fields() == IDLE
    {
      phase, pending := Idle, None;
      learning.BreakAdjacency();
    }

    method BreakIf(broken: bool)
      requires TablesOk()
      modifies this`phase, this`pending, learning`last, learning`wrong
      ensures TablesOk() && Fields() == if broken then IDLE else old(Fields())
    {
      if broken {
        BreakLocked();
      }
    }

    predicate Expired(at: int)
      reads this
    {
      pending.Some? && at > pending.value.deadline
    }

    method ApplyFeedback(wrong: Entry, right: Entry)
      modifies this`scores
      ensures scores == Feed(Feed(old(scores), wrong, -1), right, 1)
    {
      scores := Feed(scores, wrong, -1);
      scores := Feed(scores, right, 1);
    }

    method Arm(e: Event, recorded: bool)
      requires e.Commit?
      modifies this`phase, this`pending
      ensures recorded ==>
                phase == DeletingCommittedEntry && pending == Some(Pending(e.entry, 0, false, e.armed + window))
      ensures !recorded ==> phase == Idle && pending == None
    {
      if !recorded {
        phase, pending := Idle, None;
      } else {
        pending := Some(Pending(e.entry, 0, false, e.armed + window));
        phase := DeletingCommittedEntry;
      }
    }

    method HandleKey(e: Event)
      requires TablesOk() && Coherent(Fields()) && e.Key?
      modifies this`phase, this`pending, learning`last, learning`wrong
      ensures TablesOk() && Fields() == StepView(old(Fields()), e, false, window)
    {
      if phase == Idle {
        return;
      }
      if !e.normal || !e.backspace || Expired(e.at) || pending.None? || phase != DeletingCommittedEntry {
        BreakLocked();
        return;
      }
      var p := pending.value;
      p := p.(count := p.count + 1);
      pending := Some(p);
      var broken := p.count > |p.entry.phrase|;
      if p.count == |p.entry.phrase| {
        var undone := learning.UndoLastSelection();
        broken := !undone;
        phase := AwaitingReplacement;
      }
      BreakIf(broken);
    }

    method HandleComposition(e: Event)
      requires TablesOk() && Coherent(Fields()) && e.Compose?
      modifies this`phase, this`pending, learning`last, learning`wrong
      ensures TablesOk() && Fields() == StepView(old(Fields()), e, false, window)
    {
      if phase == Idle {
        return;
      }
      if !e.normal || Expired(e.at) || pending.None? {
        BreakLocked();
        return;
      }
      if e.empty {
        BreakIf(phase == AwaitingReplacement && pending.value.started);
        return;
      }
      if e.pinyin == "" || phase != AwaitingReplacement || !(e.pinyin <= pending.value.entry.pinyin) {
        BreakLocked();
        return;
      }
      pending := Some(pending.value.(started := true));
    }

    ghost predicate Records(e: Event)
      reads this
    {
      Learnable(e) && (KeyOf(e) in tracked || |tracked| < MAX_TRACKED)
    }

    method HandleCommit(e: Event)
      requires TablesOk() && Coherent(Fields()) && e.Commit?
      modifies this`phase, this`pending, this`tracked, this`scores, learning
      ensures TablesOk() && Fields() == StepView(old(Fields()), e, old(Records(e)), window)
      ensures forall k :: k in tracked <==> k in old(tracked) || (old(Records(e)) && k == KeyOf(e))
      ensures var wrong := WrongIn(old(Fields()), e, old(Records(e)));
              scores == if wrong.Some? then Feed(Feed(old(scores), wrong.value, -1), e.entry, 1) else old(scores)
    {
      if !e.normal || e.entry.pinyin == "" || e.entry.phrase == "" {
        BreakLocked();
        return;
      }
      var replacement := phase == AwaitingReplacement && pending.Some? && !Expired(e.at) &&
                         pending.value.entry.pinyin == e.entry.pinyin && pending.value.entry.phrase != e.entry.phrase;
      if !replacement && phase != Idle {
        BreakLocked();
      }
      var key := KeyOf(e);
      var known := key in tracked;
      if !known && |tracked| >= MAX_TRACKED {
        BreakLocked();
        return;
      }
      var update := Record(key, known, e.monitorable);
      if replacement && update.wrong.Some? {
        ApplyFeedback(update.wrong.value, e.entry);
      }
      Arm(e, update.recorded);
    }

    /** Records a selection there is room for, and tracks its key. */
    method Record(key: Selection, known: bool, monitorable: bool) returns (update: Update)
      requires TablesOk() && (known <==> key in tracked) && (known || |tracked| < MAX_TRACKED)
      modifies this`tracked, learning
      ensures TablesOk()
      ensures update.recorded <==> monitorable
      ensures forall k :: k in tracked <==> k in old(tracked) || (monitorable && k == key)
      ensures update.wrong == if monitorable && old(learning.wrong).Some? &&
              old(learning.wrong).value.entry != key.entry
                              then Some(old(learning.wrong).value.entry) else None
      ensures learning.last == (if monitorable then Some(key) else None) && learning.wrong == None
    {
      assert |learning.habits| == |learning.habits.Keys|;
      update := learning.RecordSelection(key, monitorable);
      if update.recorded && !known {
        tracked := tracked + {key};
      }
      assert tracked == learning.habits.Keys;
    }

    /** Notes an event that the fields already reflect. */
    ghost method Note(e: Event)
      requires TablesOk() && Holds(trace, status, window)
      requires Fields() == StepView(ViewOf(trace, status, window), e, Recorded(trace, e), window)
      requires tracked == Tracked(trace + [e]) && scores == Scores(trace + [e], window)
      modifies this`trace, this`status
      ensures Valid() && trace == old(trace) + [e]
    {
      ViewFollows(trace, status, e, window);
      var next := Advance(trace, status, e, window);
      trace, status := trace + [e], next;
    }

    method ObserveCommit(e: Event)
      requires Valid() && e.Commit?
      modifies this, learning
      ensures Valid() && trace == old(trace) + [e]
    {
      ViewFollows(trace, status, e, window);
      WrongFollows(trace, status, e, window);
      ScoresAppend(trace, e, window);
      HandleCommit(e);
      Note(e);
    }

    method ObserveUnhandledKey(e: Event)
      requires Valid() && e.Key?
      modifies this, learning
      ensures Valid() && trace == old(trace) + [e]
    {
      ViewFollows(trace, status, e, window);
      WrongFollows(trace, status, e, window);
      ScoresAppend(trace, e, window);
      HandleKey(e);
      Note(e);
    }

    method ObserveComposition(e: Event)
      requires Valid() && e.Compose?
      modifies this, learning
      ensures Valid() && trace == old(trace) + [e]
    {
      ViewFollows(trace, status, e, window);
      WrongFollows(trace, status, e, window);
      ScoresAppend(trace, e, window);
      HandleComposition(e);
      Note(e);
    }

    method BreakAdjacency()
      requires Valid()
      modifies this, learning
      ensures Valid() && trace == old(trace) + [Break]
    {
      WrongFollows(trace, status, Break, window);
      ScoresAppend(trace, Break, window);
      BreakLocked();
      Note(Break);
    }

    /** The score of an entry is that of the trace. */
    method CorrectionScore(entry: Entry) returns (score: int)
      requires Valid()
      ensures score == if entry.pinyin == "" || entry.phrase == "" then 0 else Score(Scores(trace, window), entry)
    {
      if entry.pinyin == "" || entry.phrase == "" {
        return 0;
      }
      return if entry in scores then scores[entry] else 0;
    }
  }
}
