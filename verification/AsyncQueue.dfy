// The queue between producers and consumers: a FIFO behind a mutex, and a manual-reset event that says
// there may be something to take. Threads are numbered; their atomic steps interleave in any order.

module AsyncQueue {
  import opened Optional

  /** Where a thread stands. `Push` is followed by `Signal(true)`; the event is set without the mutex. */
  datatype Pc<T> =
    | Idle
    | PushWaits(item: T)  // in Push, before the mutex is taken
    | Pushing(item: T)    // holds the mutex, before m_Queue.push
    | Pushed              // holds the mutex, before ReleaseMutex
    | Signalling          // back from Push, before SetEvent
    | PopWaits            // in Pop, before the mutex is taken
    | Popping             // holds the mutex, before the test
    | Popped(got: Option<T>)  // holds the mutex, before ReleaseMutex
    | Waiting             // in WaitForMultipleObjects, for mutex and event together
    | Taking              // holds the mutex, before the first test
    | Checking(got: Option<T>)   // holds the mutex, before the second test
    | Resetting(got: Option<T>)  // holds the mutex, before ResetEvent
    | Releasing(got: Option<T>)  // holds the mutex, before ReleaseMutex

  /** A thread and an element, or none: what it found at the front of the queue, or what its call returned. */
  datatype Take<T> = Take(thread: nat, got: Option<T>)

  /** Besides the queue, the event and the mutex: everything pushed so far, what each look at the queue
      found, and what each Pop and each WaitForEV has returned that did not time out. */
  datatype State<T> = State(
    queue: seq<T>, event: bool, mutex: Option<nat>, pcs: seq<Pc<T>>, pushed: seq<T>, taken: seq<Take<T>>,
    returned: seq<Take<T>>)

  /** What a thread does next: an idle one makes a call, a waiting one may time out, any other proceeds. */
  datatype Act<T> = CallPush(item: T) | CallPop | CallWait | TimeOut | Proceed

  datatype Step<T> = Step(thread: nat, act: Act<T>)

  predicate Holds<T>(pc: Pc<T>) {
    pc.Pushing? || pc.Pushed? || pc.Popping? || pc.Popped? ||
    pc.Taking? || pc.Checking? || pc.Resetting? || pc.Releasing?
  }

  predicate CanProceed<T>(s: State<T>, t: nat)
    requires t < |s.pcs|
  {
    match s.pcs[t]
    case Idle => false
    case PushWaits(_) => s.mutex == None
    case PopWaits => s.mutex == None
    case Waiting => s.mutex == None && s.event
    case _ => true
  }

  predicate Enabled<T>(s: State<T>, step: Step<T>) {
    && step.thread < |s.pcs|
    && match step.act
       case CallPush(_) => s.pcs[step.thread].Idle?
       case CallPop => s.pcs[step.thread].Idle?
       case CallWait => s.pcs[step.thread].Idle?
       case TimeOut => s.pcs[step.thread].Waiting?
       case Proceed => CanProceed(s, step.thread)
  }

  function Front<T>(s: State<T>): Option<T> {
    if s.queue == [] then None else Some(s.queue[0])
  }

  function PushedBy<T>(s: State<T>, x: T): State<T> {
    s.(queue := s.queue + [x], pushed := s.pushed + [x])
  }

  function Taken<T>(s: State<T>, t: nat): State<T> {
    s.(queue := if s.queue == [] then [] else s.queue[1..], taken := s.taken + [Take(t, Front(s))])
  }

  /** Releases the mutex and returns to the caller. */
  function Returned<T>(s: State<T>, t: nat, got: Option<T>): State<T> {
    s.(mutex := None, returned := s.returned + [Take(t, got)])
  }

  function At<T>(s: State<T>, t: nat, pc: Pc<T>): State<T>
    requires t < |s.pcs|
  {
    s.(pcs := s.pcs[t := pc])
  }

  function Proceeded<T>(s: State<T>, t: nat): State<T>
    requires t < |s.pcs| && CanProceed(s, t)
  {
    match s.pcs[t]
    case PushWaits(x) => At(s.(mutex := Some(t)), t, Pushing(x))
    case Pushing(x) => At(PushedBy(s, x), t, Pushed)
    case Pushed => At(s.(mutex := None), t, Signalling)
    case Signalling => At(s.(event := true), t, Idle)
    case PopWaits => At(s.(mutex := Some(t)), t, Popping)
    case Popping => At(Taken(s, t), t, Popped(Front(s)))
    case Popped(got) => At(Returned(s, t, got), t, Idle)
    case Waiting => At(s.(mutex := Some(t)), t, Taking)
    case Taking => At(Taken(s, t), t, Checking(Front(s)))
    case Checking(got) => At(s, t, if s.queue == [] then Resetting(got) else Releasing(got))
    case Resetting(got) => At(s.(event := false), t, Releasing(got))
    case Releasing(got) => At(Returned(s, t, got), t, Idle)
  }

  function Next<T>(s: State<T>, step: Step<T>): State<T>
    requires Enabled(s, step)
  {
    match step.act
    case CallPush(x) => At(s, step.thread, PushWaits(x))
    case CallPop => At(s, step.thread, PopWaits)
    case CallWait => At(s, step.thread, Waiting)
    case TimeOut => At(s, step.thread, Idle)
    case Proceed => Proceeded(s, step.thread)
  }

  predicate IsRun<T>(s: State<T>, steps: seq<Step<T>>)
    decreases |steps|
  {
    steps == [] || (Enabled(s, steps[0]) && IsRun(Next(s, steps[0]), steps[1..]))
  }

  function Run<T>(s: State<T>, steps: seq<Step<T>>): State<T>
    requires IsRun(s, steps)
    decreases |steps|
  {
    if steps == [] then s else Run(Next(s, steps[0]), steps[1..])
  }

  /** A new queue, with any number of threads that have not called it yet. */
  predicate Initial<T>(s: State<T>) {
    && s.queue == [] && !s.event && s.mutex == None && s.pushed == [] && s.taken == [] && s.returned == []
    && forall t :: 0 <= t < |s.pcs| ==> s.pcs[t] == Idle
  }

  // ---- invariants ----

  /** A thread holds the mutex exactly while it is in a critical section. */
  ghost predicate Exclusive<T>(s: State<T>) {
    && (forall t :: 0 <= t < |s.pcs| ==> (Holds(s.pcs[t]) <==> s.mutex == Some(t)))
    && (s.mutex.Some? ==> s.mutex.value < |s.pcs|)
  }

  /** Every item is delivered at most once, in the order of the pushes; the rest is still queued. */
  ghost predicate Fifo<T>(s: State<T>) {
    Delivered(s.taken) + s.queue == s.pushed
  }

  /** The elements that were found, in order. */
  function Delivered<T>(taken: seq<Take<T>>): seq<T> {
    if taken == [] then []
    else
      var last := taken[|taken| - 1];
      Delivered(taken[..|taken| - 1]) + if last.got == None then [] else [last.got.value]
  }

  /** What concerns one thread. */
  function Of<T>(takes: seq<Take<T>>, t: nat): seq<Take<T>> {
    if takes == [] then []
    else
      var last := takes[|takes| - 1];
      Of(takes[..|takes| - 1], t) + if last.thread == t then [last] else []
  }

  /** What a thread has found and not yet returned. */
  function Carried<T>(pc: Pc<T>, t: nat): seq<Take<T>> {
    match pc
    case Popped(got) => [Take(t, got)]
    case Checking(got) => [Take(t, got)]
    case Resetting(got) => [Take(t, got)]
    case Releasing(got) => [Take(t, got)]
    case _ => []
  }

  /** Each call returns to its caller what it found: the element it took, or that the queue was empty. */
  ghost predicate Honest<T>(s: State<T>) {
    forall t :: 0 <= t < |s.pcs| ==> HonestAt(s, t)
  }

  ghost predicate HonestAt<T>(s: State<T>, t: nat)
    requires t < |s.pcs|
  {
    Of(s.taken, t) == Of(s.returned, t) + Carried(s.pcs[t], t)
  }

  /** A thread about to reset the event has found the queue empty, and it still is. */
  ghost predicate ResetsEmpty<T>(s: State<T>) {
    forall t :: 0 <= t < |s.pcs| && s.pcs[t].Resetting? ==> s.queue == []
  }

  /** Between the push and the signal. */
  predicate Announcing<T>(pc: Pc<T>) {
    pc.Pushed? || pc.Signalling?
  }

  ghost predicate NoLostWakeup<T>(s: State<T>) {
    s.queue != [] ==> s.event || exists t :: 0 <= t < |s.pcs| && Announcing(s.pcs[t])
  }

  ghost predicate Inv<T>(s: State<T>) {
    Exclusive(s) && Fifo(s) && ResetsEmpty(s) && NoLostWakeup(s) && Honest(s)
  }

  lemma NextExclusive<T>(s: State<T>, step: Step<T>)
    requires Exclusive(s) && Enabled(s, step)
    ensures Exclusive(Next(s, step))
  {
  }

  lemma DeliveredOn<T>(taken: seq<Take<T>>, take: Take<T>)
    ensures Delivered(taken + [take]) == Delivered(taken) + if take.got == None then [] else [take.got.value]
  {
    assert (taken + [take])[..|taken|] == taken;
  }

  lemma OfOn<T>(takes: seq<Take<T>>, take: Take<T>, t: nat)
    ensures Of(takes + [take], t) == Of(takes, t) + if take.thread == t then [take] else []
  {
    assert (takes + [take])[..|takes|] == takes;
  }

  /** A step leaves the queue and what was found as they are, or is a push, or a look at the queue. */
  lemma NextQueue<T>(s: State<T>, step: Step<T>)
    requires Enabled(s, step)
    ensures var r, u := Next(s, step), step.thread;
            || SameQueue(r, s)
            || (s.pcs[u].Pushing? && SameQueue(r, PushedBy(s, s.pcs[u].item)))
            || SameQueue(r, Taken(s, u))
  {
  }

  ghost predicate SameQueue<T>(s: State<T>, r: State<T>) {
    s.queue == r.queue && s.pushed == r.pushed && s.taken == r.taken
  }

  lemma SameFifo<T>(s: State<T>, r: State<T>)
    requires SameQueue(r, s) && Fifo(s)
    ensures Fifo(r)
  {
  }

  lemma NextFifo<T>(s: State<T>, step: Step<T>)
    requires Fifo(s) && Enabled(s, step)
    ensures Fifo(Next(s, step))
  {
    var r, u := Next(s, step), step.thread;
    NextQueue(s, step);
    TakenFifo(s, u);
    if SameQueue(r, s) {
      SameFifo(s, r);
    } else if SameQueue(r, Taken(s, u)) {
      SameFifo(Taken(s, u), r);
    } else {
      PushedFifo(s, s.pcs[u].item);
      SameFifo(PushedBy(s, s.pcs[u].item), r);
    }
  }

  lemma PushedFifo<T>(s: State<T>, x: T)
    requires Fifo(s)
    ensures Fifo(PushedBy(s, x))
  {
    assert Delivered(s.taken) + (s.queue + [x]) == Delivered(s.taken) + s.queue + [x];
  }

  lemma TakenFifo<T>(s: State<T>, t: nat)
    requires Fifo(s)
    ensures Fifo(Taken(s, t))
  {
    DeliveredOn(s.taken, Take(t, Front(s)));
    if s.queue != [] {
      assert Delivered(s.taken) + s.queue == Delivered(s.taken) + [s.queue[0]] + s.queue[1..];
    }
  }

  lemma NextHonest<T>(s: State<T>, step: Step<T>)
    requires Honest(s) && Enabled(s, step)
    ensures Honest(Next(s, step))
  {
    forall t | 0 <= t < |s.pcs|
      ensures HonestAt(Next(s, step), t)
    {
      assert HonestAt(s, t);
      NextHonestAt(s, step, t);
    }
  }

  /** A step looks at the queue, or returns, or leaves both records and what its thread carries as they are. */
  lemma NextRecords<T>(s: State<T>, step: Step<T>)
    requires Enabled(s, step)
    ensures var r, u := Next(s, step), step.thread;
            && u < |r.pcs| == |s.pcs|
            && var before, after := Carried(s.pcs[u], u), Carried(r.pcs[u], u);
               || (r.taken == s.taken && r.returned == s.returned && after == before)
               || (before == [] && |after| == 1 && r.taken == s.taken + after && r.returned == s.returned)
               || (after == [] && |before| == 1 && r.taken == s.taken && r.returned == s.returned + before)
  {
  }

  lemma OthersStay<T>(s: State<T>, step: Step<T>, t: nat)
    requires Enabled(s, step) && t < |s.pcs|
    ensures |Next(s, step).pcs| == |s.pcs| && (t != step.thread ==> Next(s, step).pcs[t] == s.pcs[t])
  {
  }

  lemma CarriedIsOwn<T>(pc: Pc<T>, u: nat)
    ensures forall i :: 0 <= i < |Carried(pc, u)| ==> Carried(pc, u)[i].thread == u
  {
  }

  lemma NextHonestAt<T>(s: State<T>, step: Step<T>, t: nat)
    requires t < |s.pcs| && HonestAt(s, t) && Enabled(s, step)
    ensures t < |Next(s, step).pcs| && HonestAt(Next(s, step), t)
  {
    NextRecords(s, step);
    OthersStay(s, step, t);
    var r, u := Next(s, step), step.thread;
    CarriedIsOwn(s.pcs[u], u);
    CarriedIsOwn(r.pcs[u], u);
    RecordsHonest(s, r, u, t);
  }

  lemma RecordsHonest<T>(s: State<T>, r: State<T>, u: nat, t: nat)
    requires |r.pcs| == |s.pcs| && t < |s.pcs| && u < |s.pcs| && HonestAt(s, t) && (t != u ==> r.pcs[t] == s.pcs[t])
    requires var before, after := Carried(s.pcs[u], u), Carried(r.pcs[u], u);
             && (forall i :: 0 <= i < |before| ==> before[i].thread == u)
             && (forall i :: 0 <= i < |after| ==> after[i].thread == u)
             && (|| (r.taken == s.taken && r.returned == s.returned && after == before)
                 || (before == [] && |after| == 1 && r.taken == s.taken + after && r.returned == s.returned)
                 || (after == [] && |before| == 1 && r.taken == s.taken && r.returned == s.returned + before))
    ensures HonestAt(r, t)
  {
    var before, after := Carried(s.pcs[u], u), Carried(r.pcs[u], u);
    if after != before {
      if before == [] {
        assert after == [after[0]];
        OfOn(s.taken, after[0], t);
      } else {
        assert before == [before[0]];
        OfOn(s.returned, before[0], t);
      }
    }
  }

  /** Between calls a thread has been told exactly what it found, call by call; over all threads the
      elements found are those pushed, up to the ones still queued (Fifo). */
  lemma IdleThreadHasEverything<T>(s: State<T>, steps: seq<Step<T>>, t: nat)
    requires Initial(s) && IsRun(s, steps) && t < |Run(s, steps).pcs| && Run(s, steps).pcs[t].Idle?
    ensures Of(Run(s, steps).returned, t) == Of(Run(s, steps).taken, t)
  {
    EveryRunIsSafe(s, steps);
    assert HonestAt(Run(s, steps), t);
  }

  /** A look at the queue finds its first element and removes it, or finds none exactly if it is empty. */
  lemma TakeFinds<T>(s: State<T>, t: nat)
    requires t < |s.pcs| && (s.pcs[t].Popping? || s.pcs[t].Taking?)
    ensures var r := Proceeded(s, t);
            && |r.taken| == |s.taken| + 1 && r.taken[|s.taken|].thread == t
            && (r.taken[|s.taken|].got == None <==> s.queue == [])
            && s.queue == (if s.queue == [] then [] else [r.taken[|s.taken|].got.value]) + r.queue
  {
  }

  lemma NextResetsEmpty<T>(s: State<T>, step: Step<T>)
    requires Exclusive(s) && ResetsEmpty(s) && Enabled(s, step)
    ensures ResetsEmpty(Next(s, step))
  {
  }

  lemma NextNoLostWakeup<T>(s: State<T>, step: Step<T>)
    requires ResetsEmpty(s) && NoLostWakeup(s) && Enabled(s, step)
    ensures NoLostWakeup(Next(s, step))
  {
    var s' := Next(s, step);
    assert s'.pcs[step.thread] == s'.pcs[step.thread];
    if t :| 0 <= t < |s.pcs| && Announcing(s.pcs[t]) {
      assert t != step.thread ==> Announcing(s'.pcs[t]);
      assert Announcing(s'.pcs[step.thread]) || s'.event || t != step.thread;
    }
  }

  lemma NextInv<T>(s: State<T>, step: Step<T>)
    requires Inv(s) && Enabled(s, step)
    ensures Inv(Next(s, step))
  {
    NextExclusive(s, step);
    NextFifo(s, step);
    NextResetsEmpty(s, step);
    NextNoLostWakeup(s, step);
    NextHonest(s, step);
  }

  /** Over every interleaving: mutual exclusion, exactly-once FIFO delivery, and no lost wakeup. */
  lemma {:induction false} InvOverRun<T>(s: State<T>, steps: seq<Step<T>>)
    requires Inv(s) && IsRun(s, steps)
    ensures Inv(Run(s, steps))
    decreases |steps|
  {
    if steps != [] {
      NextInv(s, steps[0]);
      InvOverRun(Next(s, steps[0]), steps[1..]);
    }
  }

  lemma EveryRunIsSafe<T>(s: State<T>, steps: seq<Step<T>>)
    requires Initial(s) && IsRun(s, steps)
    ensures Inv(Run(s, steps))
  {
    InvOverRun(s, steps);
  }

  // ---- the event behind a WaitForEV ----

  /** From the wait, once it is over, to the release of the mutex. */
  predicate InWait<T>(pc: Pc<T>) {
    pc.Taking? || pc.Checking? || pc.Resetting? || pc.Releasing?
  }

  predicate Signals<T>(s: State<T>, step: Step<T>) {
    Enabled(s, step) && step.act.Proceed? && s.pcs[step.thread].Signalling?
  }

  /** No thread sets the event. */
  predicate NoSignal<T>(s: State<T>, steps: seq<Step<T>>)
    requires IsRun(s, steps)
    decreases |steps|
  {
    steps == [] || (!Signals(s, steps[0]) && NoSignal(Next(s, steps[0]), steps[1..]))
  }

  /** Thread t does not return to its caller. */
  predicate StaysInWait<T>(s: State<T>, steps: seq<Step<T>>, t: nat)
    requires IsRun(s, steps)
    decreases |steps|
  {
    && t < |s.pcs| && InWait(s.pcs[t])
    && (steps == [] || StaysInWait(Next(s, steps[0]), steps[1..], t))
  }

  /** What thread t, in WaitForEV, knows of the event. */
  ghost predicate Settled<T>(s: State<T>, t: nat)
    requires t < |s.pcs|
  {
    match s.pcs[t]
    case Taking => s.event
    case Checking(_) => s.event
    case Resetting(_) => s.queue == []
    case Releasing(_) => s.event <==> s.queue != []
    case _ => true
  }

  lemma NextSettled<T>(s: State<T>, step: Step<T>, t: nat)
    requires Exclusive(s) && Enabled(s, step) && !Signals(s, step)
    requires t < |s.pcs| && InWait(s.pcs[t]) && Settled(s, t)
    ensures Settled(Next(s, step), t)
  {
    if step.thread == t {
      assert step.act.Proceed?;
    } else {
      assert Holds(s.pcs[t]) && !Holds(s.pcs[step.thread]);
    }
  }

  lemma {:induction false} SettledOverRun<T>(s: State<T>, steps: seq<Step<T>>, t: nat)
    requires Inv(s) && IsRun(s, steps) && NoSignal(s, steps) && StaysInWait(s, steps, t) && Settled(s, t)
    ensures t < |Run(s, steps).pcs| && Settled(Run(s, steps), t)
    decreases |steps|
  {
    if steps != [] {
      NextInv(s, steps[0]);
      NextSettled(s, steps[0], t);
      SettledOverRun(Next(s, steps[0]), steps[1..], t);
    }
  }

  /** A WaitForEV that is not timed out, while no thread signals: when it releases the mutex the event is
      set if and only if the queue is not empty. */
  lemma WaitSettlesEvent<T>(s: State<T>, t: nat, steps: seq<Step<T>>)
    requires Inv(s) && t < |s.pcs| && s.pcs[t].Waiting? && CanProceed(s, t)
    requires var w := Proceeded(s, t);
             && IsRun(w, steps) && NoSignal(w, steps) && StaysInWait(w, steps, t)
             && t < |Run(w, steps).pcs| && Run(w, steps).pcs[t].Releasing?
    ensures var r := Proceeded(Run(Proceeded(s, t), steps), t);
            r.mutex == None && (r.event <==> r.queue != [])
  {
    var w := Proceeded(s, t);
    NextInv(s, Step(t, Proceed));
    SettledOverRun(w, steps, t);
  }

  /** Nothing else touches the event: Push and Pop leave it as it is. */
  lemma EventChanges<T>(s: State<T>, step: Step<T>)
    requires Enabled(s, step) && Next(s, step).event != s.event
    ensures step.act.Proceed?
    ensures Next(s, step).event <==> s.pcs[step.thread].Signalling?
    ensures s.event <==> s.pcs[step.thread].Resetting?
  {
  }

  /** Once the event is clear no wait comes to its end until some thread signals. */
  lemma {:induction false} WaitsForSignal<T>(s: State<T>, steps: seq<Step<T>>, consumer: nat)
    requires IsRun(s, steps) && NoSignal(s, steps) && !s.event
    requires consumer < |Run(s, steps).pcs| && Run(s, steps).pcs[consumer].Waiting?
    ensures !Run(s, steps).event && !CanProceed(Run(s, steps), consumer)
    decreases |steps|
  {
    if steps != [] {
      WaitsForSignal(Next(s, steps[0]), steps[1..], consumer);
    }
  }

  /** After such a call that has left the queue empty, the next consumer waits until some thread signals. */
  lemma NextConsumerWaits<T>(s: State<T>, t: nat, steps: seq<Step<T>>, later: seq<Step<T>>, consumer: nat)
    requires Inv(s) && t < |s.pcs| && s.pcs[t].Waiting? && CanProceed(s, t)
    requires var w := Proceeded(s, t);
             && IsRun(w, steps) && NoSignal(w, steps) && StaysInWait(w, steps, t)
             && t < |Run(w, steps).pcs| && Run(w, steps).pcs[t].Releasing?
    requires var r := Proceeded(Run(Proceeded(s, t), steps), t);
             && r.queue == [] && IsRun(r, later) && NoSignal(r, later)
             && consumer < |Run(r, later).pcs| && Run(r, later).pcs[consumer].Waiting?
    ensures !CanProceed(Run(Proceeded(Run(Proceeded(s, t), steps), t), later), consumer)
  {
    WaitSettlesEvent(s, t, steps);
    WaitsForSignal(Proceeded(Run(Proceeded(s, t), steps), t), later, consumer);
  }

  // ---- progress ----

  /** While an item is queued and a consumer waits, some thread can take a step without a new call. */
  lemma NeverStuck<T>(s: State<T>, consumer: nat)
    requires Inv(s) && s.queue != [] && consumer < |s.pcs| && s.pcs[consumer].Waiting?
    ensures exists t :: 0 <= t < |s.pcs| && CanProceed(s, t)
  {
    if s.mutex.Some? {
      assert Holds(s.pcs[s.mutex.value]);
      assert CanProceed(s, s.mutex.value);
    } else if s.event {
      assert CanProceed(s, consumer);
    } else {
      var t :| 0 <= t < |s.pcs| && Announcing(s.pcs[t]);
      assert CanProceed(s, t);
    }
  }

  /** Steps a thread can still take in the call it is in. */
  function Ahead<T>(pc: Pc<T>): nat {
    match pc
    case Idle => 0
    case PushWaits(_) => 5
    case Pushing(_) => 4
    case Pushed => 3
    case Signalling => 2
    case PopWaits => 3
    case Popping => 2
    case Popped(_) => 1
    case Waiting => 5
    case Taking => 4
    case Checking(_) => 3
    case Resetting(_) => 2
    case Releasing(_) => 1
  }

  function TotalAhead<T>(pcs: seq<Pc<T>>): nat {
    if pcs == [] then 0 else Ahead(pcs[0]) + TotalAhead(pcs[1..])
  }

  lemma {:induction false} TotalAheadAt<T>(pcs: seq<Pc<T>>, t: nat, pc: Pc<T>)
    requires t < |pcs|
    ensures TotalAhead(pcs[t := pc]) == TotalAhead(pcs) - Ahead(pcs[t]) + Ahead(pc)
  {
    if t > 0 {
      TotalAheadAt(pcs[1..], t - 1, pc);
      assert pcs[t := pc][1..] == pcs[1..][t - 1 := pc];
    }
  }

  lemma ProceedCounts<T>(s: State<T>, t: nat)
    requires t < |s.pcs| && CanProceed(s, t)
    ensures TotalAhead(Proceeded(s, t).pcs) < TotalAhead(s.pcs)
  {
    TotalAheadAt(s.pcs, t, Proceeded(s, t).pcs[t]);
  }

  predicate OnlyProceeds<T>(steps: seq<Step<T>>) {
    forall i :: 0 <= i < |steps| ==> steps[i].act.Proceed?
  }

  /** Left to themselves the threads come to rest after a bounded number of steps, whatever their order;
      and at rest no consumer is waiting beside a non-empty queue. */
  lemma {:induction false} ThreadsComeToRest<T>(s: State<T>, steps: seq<Step<T>>)
    requires Inv(s) && IsRun(s, steps) && OnlyProceeds(steps)
    ensures |steps| + TotalAhead(Run(s, steps).pcs) <= TotalAhead(s.pcs)
    ensures var r := Run(s, steps);
            (forall t :: 0 <= t < |r.pcs| ==> !CanProceed(r, t)) ==>
            r.queue == [] || forall t :: 0 <= t < |r.pcs| ==> !r.pcs[t].Waiting?
    decreases |steps|
  {
    if steps == [] {
      if t :| 0 <= t < |s.pcs| && s.pcs[t].Waiting? && s.queue != [] {
        NeverStuck(s, t);
      }
    } else {
      ProceedCounts(s, steps[0].thread);
      NextInv(s, steps[0]);
      ThreadsComeToRest(Next(s, steps[0]), steps[1..]);
    }
  }
}
