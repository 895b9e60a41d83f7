/** The adjacency slots and habit table of engine/src/correction_learning.cpp.
    Pinyin is normalised, and an entry identifier is the pair it is made from. */
module CorrectionLearning {
  import opened Wrappers

  const MAX_HABITS := 50000

  datatype Entry = Entry(pinyin: string, phrase: string)

  /** An entry on a day: the key of a habit statistic. */
  datatype Selection = Selection(day: string, entry: Entry)

  datatype Counts = Counts(selected: u64, correctedFrom: u64, replacement: u64)

  const NO_COUNTS := Counts(0, 0, 0)

  /** `wrong` is the entry a completed correction replaces. */
  datatype Update = Update(recorded: bool, wrong: Option<Entry>)

  function Increment(n: u64): (r: u64) {
    if n < MAX_U64 then n + 1 else n
  }

  function Tally(habits: map<Selection, Counts>, k: Selection): (r: Counts) {
    if k in habits then habits[k] else NO_COUNTS
  }

  /** One more selection; a new key gets a row. */
  function CountSelection(habits: map<Selection, Counts>, event: Selection): (r: map<Selection, Counts>)
    ensures r.Keys == habits.Keys + {event}
    ensures event in habits ==> |r| == |habits|
    ensures event !in habits ==> |r| == |habits| + 1
    ensures forall k :: Tally(r, k) == if k == event
              then Tally(habits, k).(selected := Increment(Tally(habits, k).selected))
                                       else Tally(habits, k)
  {
    var counts := Tally(habits, event);
    var r := habits[event := counts.(selected := Increment(counts.selected))];
    assert |r| == |r.Keys| && |habits| == |habits.Keys|;
    r
  }

  /** One more correction of `from` into `to`. */
  function CountCorrection(habits: map<Selection, Counts>, from: Selection, to: Selection): (r: map<Selection, Counts>)
    requires from in habits && to in habits && from != to
    ensures r.Keys == habits.Keys && |r| == |habits|
    ensures forall k :: Tally(r, k) ==
              if k == from then Tally(habits, k).(correctedFrom := Increment(Tally(habits, k).correctedFrom))
              else if k == to then Tally(habits, k).(replacement := Increment(Tally(habits, k).replacement))
              else Tally(habits, k)
  {
    var r := habits[from := habits[from].(correctedFrom := Increment(habits[from].correctedFrom))]
                   [to := habits[to].(replacement := Increment(habits[to].replacement))];
    assert |r| == |r.Keys| && |habits| == |habits.Keys| && r.Keys == habits.Keys;
    r
  }

  /** The table after a recorded selection. */
  function Tabled(habits: map<Selection, Counts>, event: Selection,
                  wrong: Option<Selection>): (r: map<Selection, Counts>) {
    var selected := CountSelection(habits, event);
    if wrong.Some? && wrong.value in habits && wrong.value.entry != event.entry
    then CountCorrection(selected, wrong.value, event) else selected
  }

  lemma TabledKeys(habits: map<Selection, Counts>, event: Selection, wrong: Option<Selection>)
    ensures Tabled(habits, event, wrong).Keys == habits.Keys + {event}
    ensures |Tabled(habits, event, wrong)| == |habits| + if event in habits then 0 else 1
  {
  }

  class Learning {
    var habits: map<Selection, Counts>
    var last: Option<Selection>
    var wrong: Option<Selection>
    var epoch: nat

    ghost predicate Valid()
      reads this
    {
      |habits| <= MAX_HABITS && (last.Some? ==> last.value in habits) && (wrong.Some? ==> wrong.value in habits)
    }

    constructor ()
      ensures Valid() && habits == map[] && last == None && wrong == None && epoch == 0
    {
      habits, last, wrong, epoch := map[], None, None, 0;
    }

    method BreakAdjacency()
      requires Valid()
      modifies this`last, this`wrong
      ensures Valid() && last == None && wrong == None
    {
      last, wrong := None, None;
    }

    /** Counts a selection. When it follows an undone selection of another entry it
        completes a correction of that entry. */
    method RecordSelection(event: Selection, monitorable: bool) returns (update: Update)
      requires Valid()
      modifies this
      ensures Valid()
      ensures update.recorded <==> monitorable && (event in old(habits) || |old(habits)| < MAX_HABITS)
      ensures update.wrong == if update.recorded && old(wrong).Some? && old(wrong).value.entry != event.entry
                              then Some(old(wrong).value.entry) else None
      ensures last == (if update.recorded then Some(event) else None) && wrong == None
      ensures habits.Keys == old(habits.Keys) + if update.recorded then {event} else {}
      ensures epoch == old(epoch) + if update.wrong.Some? then 1 else 0
      ensures habits == if update.recorded then Tabled(old(habits), event, old(wrong)) else old(habits)
    {
      if !monitorable {
        BreakAdjacency();
        return Update(false, None);
      }
      if event !in habits && |habits| >= MAX_HABITS {
        BreakAdjacency();
        return Update(false, None);
      }
      TabledKeys(habits, event, wrong);
      habits := CountSelection(habits, event);
      update := Update(true, None);
      if wrong.Some? && wrong.value.entry != event.entry {
        habits := CountCorrection(habits, wrong.value, event);
        update := Update(true, Some(wrong.value.entry));
        epoch := epoch + 1;
      }
      wrong := None;
      last := Some(event);
    }

    /** Takes the last selection back; a replacement may follow. */
    method UndoLastSelection() returns (ok: bool)
      requires Valid()
      modifies this`last, this`wrong
      ensures Valid()
      ensures ok <==> old(last).Some?
      ensures wrong == old(last) && last == None
    {
      if last.None? {
        BreakAdjacency();
        return false;
      }
      wrong := last;
      last := None;
      return true;
    }
  }
}
