/** The replay event ring of librime-yunpin/src/replay_native.cpp: one producer
    (TryPush) and one consumer (DrainJson) that interleave at every load, store and
    slot copy. Copying an event into a slot takes two steps and leaves it torn in
    between, so that copying out a slot while it is overwritten would show. Memory is
    sequentially consistent. */
module ReplayRing {

  const CAPACITY := 64
  const JSON_LIMIT := 8192

  /** An event; `valid` is the outcome of the producer's content checks. */
  datatype Event = Event(id: int, valid: bool)

  datatype Slot = Holds(event: Event) | Torn

  datatype Producer =
    | Idle
    | Checking(event: Event)                       // enabled, content not looked at yet
    | LoadedHead(event: Event, head: nat)
    | HasRoom(event: Event, head: nat)             // tail loaded, ring not full
    | Writing(event: Event, head: nat)             // slot half written
    | Written(event: Event, head: nat)             // head not published yet
    | Dropping                                     // about to count a drop

  datatype Consumer =
    | Resting
    | Reporting(count: nat)                        // drop count taken, not serialized yet
    | Returning(count: nat)                        // drop report did not fit
    | Draining                                     // at the top of the pop loop
    | LoadedTail(tail: nat)
    | Reading(tail: nat)                           // slot about to be copied out
    | Copied(tail: nat, event: Event)              // tail not published yet
    | Serializing(event: Event)
    | Losing                                       // serialized event did not fit

  /** The shared variables, the two program counters, and what has happened:
      `attempts` enabled pushes, the events `accepted` and `popped`, for each popped
      event whether it `fit` the output, the events `delivered` and the drops
      `reported`. */
  datatype State = State(
    slots: seq<Slot>, head: nat, tail: nat, dropped: nat, enabled: bool,
    producer: Producer, consumer: Consumer,
    attempts: nat, accepted: seq<Event>, popped: seq<Event>, fit: seq<bool>, delivered: seq<Event>, reported: nat)

  function Succ(i: nat): (r: nat) {
    (i + 1) % CAPACITY
  }

  ghost predicate Init(s: State) {
    && |s.slots| == CAPACITY && s.head == s.tail == 0 && s.dropped == 0
    && s.producer == Idle && s.consumer == Resting
    && s.attempts == 0 && s.accepted == s.popped == s.delivered == [] && s.fit == [] && s.reported == 0
  }

  // --- Steps -----------------------------------------------------------------

  datatype Step =
    | SetEnabled(on: bool)
    | Push(event: Event)
    | ProducerStep
    | Drain
    | ConsumerStep(fits: bool)   // whether the text to serialize fits the output

  /** One step of TryPush. */
  ghost function ProducerNext(s: State): (r: State)
    requires |s.slots| == CAPACITY && s.head < CAPACITY
  {
    match s.producer
    case Idle => s
    case Checking(e) => s.(producer := if e.valid then LoadedHead(e, s.head) else Dropping)
    case LoadedHead(e, h) => s.(producer := if Succ(h) == s.tail then Dropping else HasRoom(e, h))
    case HasRoom(e, h) => if h < CAPACITY then s.(slots := s.slots[h := Torn], producer := Writing(e, h)) else s
    case Writing(e, h) => if h < CAPACITY then s.(slots := s.slots[h := Holds(e)], producer := Written(e, h)) else s
    case Written(e, h) => s.(head := Succ(h), producer := Idle, accepted := s.accepted + [e])
    case Dropping => s.(dropped := s.dropped + 1, producer := Idle)
  }

  /** One step of DrainJson, with TryPop inlined. */
  ghost function ConsumerNext(s: State, fits: bool): (r: State)
    requires |s.slots| == CAPACITY
  {
    match s.consumer
    case Resting => s
    case Reporting(n) =>
      if fits then s.(consumer := Resting, reported := s.reported + n) else s.(consumer := Returning(n))
    case Returning(n) => s.(dropped := s.dropped + n, consumer := Resting)
    case Draining => s.(consumer := LoadedTail(s.tail))
    case LoadedTail(t) => s.(consumer := if t == s.head then Resting else Reading(t))
    case Reading(t) =>
      s.(consumer := if t < CAPACITY && s.slots[t].Holds? then Copied(t, s.slots[t].event) else Resting)
    case Copied(t, e) => s.(tail := Succ(t), consumer := Serializing(e), popped := s.popped + [e])
    case Serializing(e) =>
      if fits then s.(consumer := Resting, fit := s.fit + [true], delivered := s.delivered + [e])
      else s.(consumer := Losing, fit := s.fit + [false])
    case Losing => s.(dropped := s.dropped + 1, consumer := Draining)
  }

  ghost predicate Next(s: State, step: Step, s': State) {
    && |s.slots| == CAPACITY && s.head < CAPACITY
    && match step
       case SetEnabled(on) => s' == s.(enabled := on)
       case Push(e) =>
         s.producer == Idle && s' == if s.enabled then s.(producer := Checking(e), attempts := s.attempts + 1) else s
       case ProducerStep => s' == ProducerNext(s)
       case Drain =>
         s.consumer == Resting &&
         s' == s.(dropped := 0, consumer := if s.dropped != 0 then Reporting(s.dropped) else Draining)
       case ConsumerStep(fits) => s' == ConsumerNext(s, fits)
  }

  // --- Invariant -------------------------------------------------------------

  /** How many published events the ring holds. */
  function Size(head: nat, tail: nat): (r: nat)
    requires tail < CAPACITY
  {
    if tail <= head then head - tail else head + CAPACITY - tail
  }

  function Index(tail: nat, i: nat): (r: nat) {
    (tail + i) % CAPACITY
  }

  /** The published slots hold exactly `queue`. */
  ghost predicate Stores(slots: seq<Slot>, tail: nat, queue: seq<Event>) {
    |slots| == CAPACITY && forall i | 0 <= i < |queue| :: slots[Index(tail, i)] == Holds(queue[i])
  }

  ghost predicate ProducerOk(s: State)
    requires |s.slots| == CAPACITY && s.head < CAPACITY && s.tail < CAPACITY
  {
    match s.producer
    case Idle => true
    case Checking(_) => true
    case Dropping => true
    case LoadedHead(_, h) => h == s.head
    case HasRoom(_, h) => h == s.head && Size(s.head, s.tail) < CAPACITY - 1
    case Writing(_, h) => h == s.head && Size(s.head, s.tail) < CAPACITY - 1
    case Written(e, h) => h == s.head && Size(s.head, s.tail) < CAPACITY - 1 && s.slots[h] == Holds(e)
  }

  ghost predicate ConsumerOk(s: State, queue: seq<Event>) {
    match s.consumer
    case LoadedTail(t) => t == s.tail
    case Reading(t) => t == s.tail && queue != []
    case Copied(t, e) => t == s.tail && queue != [] && queue[0] == e
    case _ => true
  }

  /** The popped event whose fate is open. */
  ghost function InHand(c: Consumer): (r: seq<Event>) {
    if c.Serializing? then [c.event] else []
  }

  /** The popped events that fit. */
  ghost function Fitting(events: seq<Event>, fit: seq<bool>): (r: seq<Event>)
    requires |events| == |fit|
  {
    if events == [] then []
    else Fitting(events[..|events| - 1], fit[..|fit| - 1]) + (if fit[|fit| - 1] then [events[|events| - 1]] else [])
  }

  /** Pushes that neither entered the ring nor were counted yet. */
  ghost function PushOpen(p: Producer): (r: nat) {
    if p == Idle then 0 else 1
  }

  /** What the consumer has taken and neither delivered, reported nor put back. */
  ghost function Taken(c: Consumer): (r: nat) {
    if c.Reporting? || c.Returning? then c.count else if c.Serializing? || c.Losing? then 1 else 0
  }

  /** The ring is a queue. */
  ghost predicate RingOk(s: State, queue: seq<Event>) {
    && |s.slots| == CAPACITY && s.head < CAPACITY && s.tail < CAPACITY
    && |queue| == Size(s.head, s.tail)
    && Stores(s.slots, s.tail, queue)
    && s.accepted == s.popped + queue
    && ProducerOk(s) && ConsumerOk(s, queue)
  }

  /** Every popped event is delivered, in order, or did not fit. */
  ghost predicate DeliveryOk(popped: seq<Event>, fit: seq<bool>, delivered: seq<Event>, c: Consumer) {
    && |fit| <= |popped|
    && popped == popped[..|fit|] + InHand(c)
    && delivered == Fitting(popped[..|fit|], fit)
  }

  /** Every enabled attempt is somewhere. */
  ghost predicate Balanced(s: State, queued: nat) {
    s.attempts == |s.delivered| + queued + s.dropped + s.reported + PushOpen(s.producer) + Taken(s.consumer)
  }

  ghost predicate Inv(s: State, queue: seq<Event>) {
    RingOk(s, queue) && DeliveryOk(s.popped, s.fit, s.delivered, s.consumer) && Balanced(s, |queue|)
  }

  lemma InitHolds(s: State)
    requires Init(s)
    ensures Inv(s, [])
  {
  }

  lemma FreeSlot(slots: seq<Slot>, head: nat, tail: nat, queue: seq<Event>, slot: Slot)
    requires Stores(slots, tail, queue) && head < CAPACITY && tail < CAPACITY && |queue| == Size(head, tail)
    ensures Stores(slots[head := slot], tail, queue)
  {
    forall i | 0 <= i < |queue| ensures Index(tail, i) != head {
    }
  }

  lemma Publish(slots: seq<Slot>, head: nat, tail: nat, queue: seq<Event>, e: Event)
    requires Stores(slots, tail, queue) && head < CAPACITY && tail < CAPACITY && |queue| == Size(head, tail)
    requires slots[head] == Holds(e) && |queue| < CAPACITY - 1
    ensures Stores(slots, tail, queue + [e]) && Size(Succ(head), tail) == |queue| + 1
  {
    assert Index(tail, |queue|) == head;
  }

  lemma Consume(slots: seq<Slot>, head: nat, tail: nat, queue: seq<Event>)
    requires Stores(slots, tail, queue) && head < CAPACITY && tail < CAPACITY && |queue| == Size(head, tail) &&
             queue != []
    ensures Stores(slots, Succ(tail), queue[1..]) && Size(head, Succ(tail)) == |queue| - 1
    ensures slots[tail] == Holds(queue[0])
  {
    assert Index(tail, 0) == tail;
    forall i | 0 <= i < |queue| - 1 ensures slots[Index(Succ(tail), i)] == Holds(queue[1..][i]) {
      assert Index(Succ(tail), i) == Index(tail, i + 1);
    }
  }

  lemma ProducerKeeps(s: State, queue: seq<Event>)
    requires Inv(s, queue)
    ensures Inv(ProducerNext(s), if s.producer.Written? then queue + [s.producer.event] else queue)
  {
    match s.producer
    case HasRoom(e, h) => FreeSlot(s.slots, s.head, s.tail, queue, Torn);
    case Writing(e, h) => FreeSlot(s.slots, s.head, s.tail, queue, Holds(e));
    case Written(e, h) =>
      Publish(s.slots, s.head, s.tail, queue, e);
      assert s.accepted + [e] == s.popped + (queue + [e]);
    case _ =>
  }

  lemma ConsumerKeepsRing(s: State, queue: seq<Event>, fits: bool)
    requires RingOk(s, queue)
    ensures RingOk(ConsumerNext(s, fits), if s.consumer.Copied? then queue[1..] else queue)
  {
    match s.consumer
    case Reading(t) => Consume(s.slots, s.head, s.tail, queue);
    case Copied(t, e) =>
      Consume(s.slots, s.head, s.tail, queue);
      assert s.popped + queue == (s.popped + [e]) + queue[1..];
    case _ =>
  }

  lemma Decide(popped: seq<Event>, fit: seq<bool>, delivered: seq<Event>, e: Event, fits: bool)
    requires DeliveryOk(popped, fit, delivered, Serializing(e))
    ensures DeliveryOk(popped, fit + [fits], if fits then delivered + [e] else delivered, Resting)
  {
    var n := |fit|;
    assert popped[..n + 1] == popped && popped[n] == e;
    assert (fit + [fits])[..n] == fit;
  }

  lemma ConsumerKeepsDelivery(s: State, queue: seq<Event>, fits: bool)
    requires RingOk(s, queue) && DeliveryOk(s.popped, s.fit, s.delivered, s.consumer)
    ensures var s' := ConsumerNext(s, fits); DeliveryOk(s'.popped, s'.fit, s'.delivered, s'.consumer)
  {
    match s.consumer
    case Copied(t, e) => assert (s.popped + [e])[..|s.fit|] == s.popped[..|s.fit|];
    case Serializing(e) => Decide(s.popped, s.fit, s.delivered, e, fits);
    case _ =>
  }

  lemma ConsumerKeeps(s: State, queue: seq<Event>, fits: bool)
    requires Inv(s, queue)
    ensures Inv(ConsumerNext(s, fits), if s.consumer.Copied? then queue[1..] else queue)
  {
    ConsumerKeepsRing(s, queue, fits);
    ConsumerKeepsDelivery(s, queue, fits);
    if s.consumer.Reading? {
      Consume(s.slots, s.head, s.tail, queue);
    }
  }

  ghost function QueueAfter(s: State, queue: seq<Event>, step: Step): (r: seq<Event>) {
    if step == ProducerStep && s.producer.Written? then queue + [s.producer.event]
    else if step.ConsumerStep? && s.consumer.Copied? && queue != [] then queue[1..]
    else queue
  }

  lemma StepKeeps(s: State, queue: seq<Event>, step: Step, s': State)
    requires Inv(s, queue) && Next(s, step, s')
    ensures Inv(s', QueueAfter(s, queue, step))
  {
    match step
    case ProducerStep => ProducerKeeps(s, queue);
    case ConsumerStep(fits) => ConsumerKeeps(s, queue, fits);
    case _ =>
  }

  // --- Every run -------------------------------------------------------------

  ghost predicate IsRun(states: seq<State>, steps: seq<Step>) {
    && |states| == |steps| + 1 && Init(states[0])
    && forall i {:trigger steps[i]} | 0 <= i < |steps| :: Next(states[i], steps[i], states[i + 1])
  }

  lemma {:induction false} RunsKeepInv(states: seq<State>, steps: seq<Step>, i: nat)
    requires IsRun(states, steps) && i < |states|
    ensures |states[i].popped| <= |states[i].accepted| && Inv(states[i], states[i].accepted[|states[i].popped|..])
  {
    if i == 0 {
      InitHolds(states[0]);
    } else {
      RunsKeepInv(states, steps, i - 1);
      var s := states[i - 1];
      var queue := s.accepted[|s.popped|..];
      StepKeeps(s, queue, steps[i - 1], states[i]);
      var queue' := QueueAfter(s, queue, steps[i - 1]);
      assert states[i].accepted == states[i].popped + queue';
      assert states[i].accepted[|states[i].popped|..] == queue';
    }
  }

  /** The ring is a first-in first-out queue of at most 63 events: what has been
      popped is a prefix of what was accepted, and the rest lies in the ring in order. */
  lemma RingIsFifo(states: seq<State>, steps: seq<Step>, i: nat)
    requires IsRun(states, steps) && i < |states|
    ensures var s := states[i];
            && s.tail < CAPACITY && s.popped <= s.accepted
            && |s.accepted| - |s.popped| == Size(s.head, s.tail) <= CAPACITY - 1
            && Stores(s.slots, s.tail, s.accepted[|s.popped|..])
  {
    RunsKeepInv(states, steps, i);
  }

  /** The slot being read is never the one being written, and holds the oldest
      accepted event for as long as the copy is pending. */
  lemma NoSlotRace(states: seq<State>, steps: seq<Step>, i: nat)
    requires IsRun(states, steps) && i < |states| && states[i].consumer.Reading?
    ensures var s := states[i];
            && (s.producer.Writing? ==> s.producer.head != s.consumer.tail)
            && |s.popped| < |s.accepted|
            && s.consumer.tail < |s.slots| && s.slots[s.consumer.tail] == Holds(s.accepted[|s.popped|])
  {
    RunsKeepInv(states, steps, i);
    var s := states[i];
    Consume(s.slots, s.head, s.tail, s.accepted[|s.popped|..]);
  }

  /** Events are delivered in the order they were accepted, each at most once; the
      ones left out are exactly those that did not fit. */
  lemma DeliveredInOrder(states: seq<State>, steps: seq<Step>, i: nat)
    requires IsRun(states, steps) && i < |states|
    ensures var s := states[i];
            && |s.fit| <= |s.popped| <= |s.accepted| && |s.popped| - |s.fit| <= 1
            && s.delivered == Fitting(s.accepted[..|s.fit|], s.fit)
  {
    RunsKeepInv(states, steps, i);
    var s := states[i];
    var queue := s.accepted[|s.popped|..];
    assert s.accepted == s.popped + queue;
    assert s.accepted[..|s.fit|] == s.popped[..|s.fit|];
  }

  /** No attempt is lost: with both sides between calls, the enabled attempts are
      those delivered, those queued, the pending drop count and the drops reported. */
  lemma EveryAttemptAccounted(states: seq<State>, steps: seq<Step>, i: nat)
    requires IsRun(states, steps) && i < |states|
    ensures var s := states[i];
            && |s.popped| <= |s.accepted| && Balanced(s, |s.accepted| - |s.popped|)
            && (s.producer == Idle && s.consumer == Resting ==>
                  s.attempts == |s.delivered| + (|s.accepted| - |s.popped|) + s.dropped + s.reported)
  {
    RunsKeepInv(states, steps, i);
  }

  /** A valid event is refused exactly when 63 events are waiting. */
  lemma RefusedOnlyWhenFull(states: seq<State>, steps: seq<Step>, i: nat)
    requires IsRun(states, steps) && i < |states| && states[i].producer.LoadedHead?
    ensures |states[i].slots| == CAPACITY && states[i].head < CAPACITY
    ensures ProducerNext(states[i]).producer == Dropping <==> |states[i].accepted| - |states[i].popped| == CAPACITY - 1
  {
    RunsKeepInv(states, steps, i);
  }

  // --- The calls themselves --------------------------------------------------

  datatype Output = Nothing | DropCount(count: nat) | Json(event: Event)

  /** A text fits with its terminator and within the limit. */
  predicate Fits(length: nat, capacity: nat) {
    length < capacity && length <= JSON_LIMIT
  }

  ghost function Contents(slots: seq<Event>, tail: nat, n: nat): (r: seq<Event>)
    requires |slots| == CAPACITY
    ensures |r| == n
  {
    seq(n, i requires 0 <= i < n => slots[Index(tail, i)])
  }

  class NativeProducer {
    const ring: array<Event>
    var head: nat
    var tail: nat
    var dropped: nat
    var enabled: bool

    ghost predicate Valid()
      reads this
    {
      ring.Length == CAPACITY && head < CAPACITY && tail < CAPACITY
    }

    /** The events waiting, oldest first. */
    ghost function Queue(): (r: seq<Event>)
      reads this, ring
      requires Valid()
    {
      Contents(ring[..], tail, Size(head, tail))
    }

    constructor ()
      ensures Valid() && Queue() == [] && dropped == 0 && !enabled && fresh(ring)
    {
      ring := new Event[CAPACITY](_ => Event(0, false));
      head, tail, dropped, enabled := 0, 0, 0, false;
    }

    method TryPush(event: Event) returns (ok: bool)
      requires Valid()
      modifies this, ring
      ensures Valid() && enabled == old(enabled) && tail == old(tail)
      ensures ok <==> enabled && event.valid && |old(Queue())| < CAPACITY - 1
      ensures Queue() == if ok then old(Queue()) + [event] else old(Queue())
      ensures dropped == old(dropped) + (if ok || !enabled then 0 else 1)
    {
      if !enabled {
        return false;
      }
      if !event.valid {
        dropped := dropped + 1;
        return false;
      }
      var next := (head + 1) % CAPACITY;
      if next == tail {
        dropped := dropped + 1;
        return false;
      }
      ghost var before := Queue();
      assert Index(tail, |before|) == head;
      ring[head] := event;
      head := next;
      forall i | 0 <= i < |before| ensures Queue()[i] == before[i] {
        assert Index(tail, i) != old(head);
      }
      assert Queue() == before + [event];
      return true;
    }

    method TryPop() returns (ok: bool, event: Event)
      requires Valid()
      modifies this`tail
      ensures Valid()
      ensures ok <==> old(Queue()) != []
      ensures if ok then old(Queue()) == [event] + Queue() else Queue() == []
    {
      if tail == head {
        return false, Event(0, false);
      }
      ghost var before := Queue();
      event := ring[tail];
      assert Index(tail, 0) == tail;
      ghost var start := tail;
      tail := (tail + 1) % CAPACITY;
      assert forall i | 0 <= i < Size(head, tail) :: Index(tail, i) == Index(start, i + 1);
      assert Queue() == before[1..];
      return true, event;
    }

    /** Reports the pending drops, or else delivers the oldest waiting event that
        fits the output, counting those before it as dropped. `capacity` is that of the
        output, 0 if there is none; the other two are the lengths of the texts. */
    method DrainJson(capacity: nat, dropLength: nat -> nat, length: Event -> nat)
      returns (output: Output, ghost skipped: nat)
      requires Valid()
      modifies this`tail, this`dropped
      ensures Valid()
      ensures capacity == 0 ==> output == Nothing && skipped == 0 && dropped == old(dropped) && Queue() == old(Queue())
      ensures capacity > 0 && old(dropped) != 0 ==>
                && skipped == 0 && Queue() == old(Queue())
                && (if Fits(dropLength(old(dropped)), capacity) then output == DropCount(old(dropped)) && dropped == 0
                    else output == Nothing && dropped == old(dropped))
      ensures capacity > 0 && old(dropped) == 0 ==>
                && dropped == skipped <= |old(Queue())|
                && (forall i | 0 <= i < skipped :: !Fits(length(old(Queue())[i]), capacity))
                && (match output
                    case Json(event) =>
                      old(Queue())[skipped..] == [event] + Queue() && Fits(length(event), capacity)
                    case Nothing => skipped == |old(Queue())| && Queue() == []
                    case DropCount(_) => false)
    {
      skipped := 0;
      if capacity == 0 {
        return Nothing, skipped;
      }
      var count := dropped;
      dropped := 0;
      if count != 0 {
        if !Fits(dropLength(count), capacity) {
          dropped := dropped + count;
          return Nothing, skipped;
        }
        return DropCount(count), skipped;
      }
      ghost var before := Queue();
      var more, event := TryPop();
      while more
        invariant Valid() && dropped == skipped
        invariant if more then skipped < |before| && before[skipped..] == [event] + Queue()
                  else skipped == |before| && Queue() == []
        invariant forall i | 0 <= i < skipped :: !Fits(length(before[i]), capacity)
        decreases |before| - skipped, more
      {
        if Fits(length(event), capacity) {
          return Json(event), skipped;
        }
        dropped := dropped + 1;
        assert before[skipped + 1..] == Queue();
        skipped := skipped + 1;
        more, event := TryPop();
      }
      return Nothing, skipped;
    }
  }
}
