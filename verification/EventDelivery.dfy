/**
 Delivery of events to the application (source/event_manager.h,
 source/event_queue.h, source/event_classes.h): any number of threads push into a
 priority queue and each push posts a processing task to a strand, which runs one
 task at a time and drains the queue.

 The classes are the objects as one thread sees them; the state machine below
 interleaves pushing threads, the strand and `stop` step by step.
 */
module EventDelivery {
  import opened Collections

  datatype Event = Event(priority: nat, order: nat)

  /** `a` ranks below `b`: smaller priority, or same priority and created later. */
  predicate Less(a: Event, b: Event) {
    if a.priority == b.priority then a.order > b.order else a.priority < b.priority
  }

  /** `e` is due no later than `w`: of higher priority, or of the same one and not
      created later. */
  predicate Precedes(e: Event, w: Event) {
    w.priority < e.priority || (w.priority == e.priority && e.order <= w.order)
  }

  ghost predicate IsTop(e: Event, queue: multiset<Event>) {
    e in queue && forall w :: w in queue ==> Precedes(e, w)
  }

  // ------------------------------------------------------------- the objects

  class EventQueue {
    var waiting: seq<Event>

    constructor ()
      ensures waiting == []
    {
      waiting := [];
    }

    method IsEmpty() returns (empty: bool)
      ensures empty <==> multiset(waiting) == multiset{}
    {
      empty := |waiting| == 0;
      if !empty {
        assert waiting[0] in multiset(waiting);
      }
    }

    /** A missing event is ignored. */
    method Enqueue(event: Option<Event>)
      modifies this
      ensures multiset(waiting) == multiset(old(waiting)) + if event.Some? then multiset{event.value} else multiset{}
    {
      if event.None? {
        return;
      }
      waiting := waiting + [event.value];
    }

    method Dequeue() returns (event: Option<Event>)
      modifies this
      ensures event.None? <==> old(waiting) == []
      ensures event.None? ==> waiting == []
      ensures event.Some? ==>
                && IsTop(event.value, multiset(old(waiting)))
                && multiset(old(waiting)) == multiset(waiting) + multiset{event.value}
                && |waiting| < |old(waiting)|
    {
      if |waiting| == 0 {
        return None;
      }
      var top := 0;
      var i := 1;
      while i < |waiting|
        invariant 0 <= top < i <= |waiting|
        invariant forall j :: 0 <= j < i ==> Precedes(waiting[top], waiting[j])
      {
        if Less(waiting[top], waiting[i]) {
          top := i;
        }
        i := i + 1;
      }
      event := Some(waiting[top]);
      assert waiting == waiting[..top] + [waiting[top]] + waiting[top + 1..];
      waiting := waiting[..top] + waiting[top + 1..];
    }
  }

  ghost predicate Ranked(s: seq<Event>) {
    forall i, j :: 0 <= i < j < |s| ==> Precedes(s[i], s[j])
  }

  class EventManager {
    const events: EventQueue
    var stopped: bool
    var delivered: seq<Event>

    constructor ()
      ensures fresh(events) && events.waiting == [] && !stopped && delivered == []
    {
      events := new EventQueue();
      stopped, delivered := false, [];
    }

    method Stop()
      modifies this`stopped
      ensures stopped
    {
      stopped := true;
    }

    /** The drain loop when nobody interferes: everything that waits is delivered,
        highest rank first, or nothing at all after `Stop`. */
    method ProcessEvents()
      modifies this`delivered, events
      ensures stopped ==> delivered == old(delivered) && events.waiting == old(events.waiting)
      ensures !stopped ==> events.waiting == [] && old(delivered) <= delivered
      ensures !stopped ==> var run := delivered[|old(delivered)|..];
                           Ranked(run) && multiset(run) == multiset(old(events.waiting))
    {
      ghost var run: seq<Event> := [];
      ghost var before := multiset(events.waiting);
      while !stopped
        invariant stopped ==> delivered == old(delivered) && events.waiting == old(events.waiting)
        invariant delivered == old(delivered) + run
        invariant Draining(before, run, multiset(events.waiting))
        decreases |events.waiting|
      {
        var event := DeliverNext(before, run);
        if event.None? {
          break;
        }
        run := run + [event.value];
      }
      Suffix(delivered, old(delivered), run);
      DrainedAll(before, run, events.waiting);
    }

    /** One turn of the loop: the highest-ranked event is taken and handed over. */
    method DeliverNext(ghost before: multiset<Event>, ghost run: seq<Event>) returns (event: Option<Event>)
      requires Draining(before, run, multiset(events.waiting))
      modifies this`delivered, events
      ensures event.None? ==> events.waiting == old(events.waiting) == [] && delivered == old(delivered)
      ensures event.Some? ==>
                && |events.waiting| < |old(events.waiting)|
                && delivered == old(delivered) + [event.value]
                && Draining(before, run + [event.value], multiset(events.waiting))
    {
      ghost var left := multiset(events.waiting);
      event := events.Dequeue();
      if event.Some? {
        DrainOne(before, run, left, event.value, multiset(events.waiting));
        delivered := delivered + [event.value];
      }
    }
  }

  lemma DrainedAll(before: multiset<Event>, run: seq<Event>, waiting: seq<Event>)
    requires Draining(before, run, multiset(waiting))
    ensures waiting == [] ==> Ranked(run) && multiset(run) == before
  {
  }

  lemma Suffix(all: seq<Event>, start: seq<Event>, run: seq<Event>)
    requires all == start + run
    ensures start <= all && all[|start|..] == run
  {
  }

  /** What was delivered ranks above what waits, and nothing is lost. */
  ghost predicate Draining(before: multiset<Event>, run: seq<Event>, waiting: multiset<Event>) {
    && before == multiset(run) + waiting
    && Ranked(run)
    && forall i, w :: 0 <= i < |run| && w in waiting ==> Precedes(run[i], w)
  }

  lemma DrainOne(before: multiset<Event>, run: seq<Event>, waiting: multiset<Event>, e: Event, rest: multiset<Event>)
    requires Draining(before, run, waiting) && IsTop(e, waiting) && waiting == rest + multiset{e}
    ensures Draining(before, run + [e], rest)
  {
    assert multiset(run + [e]) == multiset(run) + multiset{e};
    assert forall w :: w in rest ==> w in waiting;
    forall i | 0 <= i < |run| ensures Precedes(run[i], e) {
    }
  }

  // -------------------------------------------------------- the interleavings

  /** Where a pushing thread stands. */
  datatype Pusher =
    | Holding(e: Event)  // has created its event
    | Passed(e: Event)   // found the manager not stopped
    | Enqueued           // has enqueued, has not posted yet

  /** Where the strand stands in the drain loop. */
  datatype Strand =
    | Idle
    | Head                // about to look at the stop flag
    | Checked             // found it clear, about to dequeue
    | Got(e: Event)       // about to call the callback
    | Calling(e: Event)

  datatype State = State(
    counter: nat,
    pushers: map<nat, Pusher>,
    queue: multiset<Event>,
    posted: nat,
    strand: Strand,
    stopped: bool,
    // history
    pushed: seq<Event>,
    taken: seq<Event>,
    lateCalls: nat)

  const START := State(0, map[], multiset{}, 0, Idle, false, [], [], 0)

  datatype Step =
    | Create(p: nat, priority: nat)
    | LookAtStop(p: nat)
    | Enqueue(p: nat)
    | Post(p: nat)
    | Begin
    | Check
    | Take(e: Event)
    | FindEmpty
    | Call
    | Return
    | Stop

  ghost predicate Enabled(s: State, step: Step) {
    match step
    case Create(p, _) => p !in s.pushers
    case LookAtStop(p) => p in s.pushers && s.pushers[p].Holding?
    case Enqueue(p) => p in s.pushers && s.pushers[p].Passed?
    case Post(p) => p in s.pushers && s.pushers[p].Enqueued?
    case Begin => s.posted > 0 && s.strand.Idle?
    case Check => s.strand.Head?
    case Take(e) => s.strand.Checked? && IsTop(e, s.queue)
    case FindEmpty => s.strand.Checked? && s.queue == multiset{}
    case Call => s.strand.Got?
    case Return => s.strand.Calling?
    case Stop => true
  }

  ghost function Next(s: State, step: Step): State
    requires Enabled(s, step)
  {
    match step
    case Create(p, priority) =>
      s.(counter := s.counter + 1, pushers := s.pushers[p := Holding(Event(priority, s.counter + 1))])
    case LookAtStop(p) =>
      s.(pushers := if s.stopped then s.pushers - {p} else s.pushers[p := Passed(s.pushers[p].e)])
    case Enqueue(p) =>
      var e := s.pushers[p].e;
      s.(pushers := s.pushers[p := Enqueued], queue := s.queue + multiset{e}, pushed := s.pushed + [e])
    case Post(p) => s.(pushers := s.pushers - {p}, posted := s.posted + 1)
    case Begin => s.(posted := s.posted - 1, strand := Head)
    case Check => s.(strand := if s.stopped then Idle else Checked)
    case Take(e) => s.(strand := Got(e), queue := s.queue - multiset{e}, taken := s.taken + [e])
    case FindEmpty => s.(strand := Idle)
    case Call => s.(strand := Calling(s.strand.e), lateCalls := s.lateCalls + if s.stopped then 1 else 0)
    case Return => s.(strand := Head)
    case Stop => s.(stopped := true)
  }

  /** The state after a run; a step that is not enabled is skipped. */
  ghost function After(steps: seq<Step>): State {
    if steps == [] then START
    else
      var s := After(steps[..|steps| - 1]);
      var step := steps[|steps| - 1];
      if Enabled(s, step) then Next(s, step) else s
  }

  // --------------------------------------------------------------- invariants

  ghost predicate WakeUp(s: State) {
    s.queue != multiset{} && !s.stopped ==>
      s.posted > 0 || !s.strand.Idle? || exists p :: p in s.pushers && s.pushers[p].Enqueued?
  }

  ghost predicate Conserved(s: State) {
    multiset(s.pushed) == multiset(s.taken) + s.queue
  }

  ghost predicate LateBounded(s: State) {
    && (!s.stopped ==> s.lateCalls == 0)
    && s.lateCalls + (if s.strand.Checked? || s.strand.Got? then 1 else 0) <= 1
  }

  ghost predicate HasEvent(p: Pusher) { p.Holding? || p.Passed? }

  /** Creation numbers are never shared. */
  ghost predicate OrdersUnique(s: State) {
    && (forall i :: 0 <= i < |s.pushed| ==> s.pushed[i].order <= s.counter)
    && (forall i, j :: 0 <= i < j < |s.pushed| ==> s.pushed[i].order != s.pushed[j].order)
    && (forall p :: p in s.pushers && HasEvent(s.pushers[p]) ==>
          && s.pushers[p].e.order <= s.counter
          && forall i :: 0 <= i < |s.pushed| ==> s.pushed[i].order != s.pushers[p].e.order)
    && (forall p, q :: p in s.pushers && q in s.pushers && p != q
                       && HasEvent(s.pushers[p]) && HasEvent(s.pushers[q]) ==>
          s.pushers[p].e.order != s.pushers[q].e.order)
  }

  lemma NextKeepsWakeUp(s: State, step: Step)
    requires Enabled(s, step) && WakeUp(s)
    ensures WakeUp(Next(s, step))
  {
    if step.Enqueue? {
      var s' := Next(s, step);
      assert step.p in s'.pushers && s'.pushers[step.p].Enqueued?;
    } else if step.Create? || step.LookAtStop? {
      var s' := Next(s, step);
      if p :| p in s.pushers && s.pushers[p].Enqueued? {
        assert p in s'.pushers && s'.pushers[p].Enqueued?;
      }
    }
  }

  lemma NextKeepsConserved(s: State, step: Step)
    requires Enabled(s, step) && Conserved(s)
    ensures Conserved(Next(s, step))
  {
  }

  lemma NextKeepsUnique(s: State, step: Step)
    requires Enabled(s, step) && OrdersUnique(s)
    ensures OrdersUnique(Next(s, step))
  {
  }

  ghost predicate Sound(s: State) {
    WakeUp(s) && Conserved(s) && LateBounded(s) && OrdersUnique(s)
  }

  lemma {:induction false} RunSound(steps: seq<Step>)
    ensures Sound(After(steps))
  {
    if steps != [] {
      var n := |steps| - 1;
      RunSound(steps[..n]);
      if Enabled(After(steps[..n]), steps[n]) {
        NextKeepsWakeUp(After(steps[..n]), steps[n]);
        NextKeepsConserved(After(steps[..n]), steps[n]);
        NextKeepsUnique(After(steps[..n]), steps[n]);
      }
    }
  }

  // ----------------------------------------------------------------- theorems

  /** No lost wake-up: whenever events wait and the manager is not stopped, a task
      is posted, the drain loop is running, or a pusher is about to post. */
  lemma {:induction false} NoLostWakeUp(steps: seq<Step>)
    ensures var s := After(steps);
            s.queue != multiset{} && !s.stopped ==>
              s.posted > 0 || !s.strand.Idle? || exists p :: p in s.pushers && s.pushers[p].Enqueued?
  {
    RunSound(steps);
  }

  /** Nothing is lost or delivered twice, and at most one callback starts after
      `Stop`. */
  lemma {:induction false} NothingLostNothingLate(steps: seq<Step>)
    ensures var s := After(steps);
            && multiset(s.pushed) == multiset(s.taken) + s.queue
            && NoDuplicates(s.taken)
            && s.lateCalls <= 1
            && (s.lateCalls == 1 ==> s.stopped)
  {
    RunSound(steps);
    var s := After(steps);
    forall i, j | 0 <= i < j < |s.taken| ensures s.taken[i] != s.taken[j] {
      if s.taken[i] == s.taken[j] {
        CountTwice(s.taken, i, j);
        TwiceMeansRepeated(s.pushed, s.taken[i]);
        assert false;
      }
    }
  }

  lemma CountTwice(s: seq<Event>, i: nat, j: nat)
    requires i < j < |s| && s[i] == s[j]
    ensures multiset(s)[s[i]] >= 2
  {
    assert s == s[..i] + [s[i]] + s[i + 1..j] + [s[j]] + s[j + 1..];
  }

  lemma {:induction false} TwiceMeansRepeated(s: seq<Event>, e: Event)
    requires multiset(s)[e] >= 2
    ensures exists i, j :: 0 <= i < j < |s| && s[i] == e == s[j]
  {
    assert s == [s[0]] + s[1..];
    if s[0] == e {
      assert e in multiset(s[1..]);
      var j :| 0 <= j < |s[1..]| && s[1..][j] == e;
      assert s[0] == e == s[j + 1];
    } else {
      TwiceMeansRepeated(s[1..], e);
      var i, j :| 0 <= i < j < |s[1..]| && s[1..][i] == e == s[1..][j];
      assert s[i + 1] == e == s[j + 1];
    }
  }

  /** A delivered event outranks every event left waiting. */
  lemma {:induction false} DeliveredOutranksWaiting(steps: seq<Step>, e: Event, w: Event)
    requires Enabled(After(steps), Take(e))
    requires w in After(steps + [Take(e)]).queue
    ensures w.priority < e.priority || (w.priority == e.priority && e.order < w.order)
  {
    assert (steps + [Take(e)])[..|steps|] == steps;
    RunSound(steps);
    var s := After(steps);
    if w.order == e.order {
      var i :| 0 <= i < |s.pushed| && s.pushed[i] == e by { assert e in multiset(s.pushed); }
      var j :| 0 <= j < |s.pushed| && s.pushed[j] == w by { assert w in multiset(s.pushed); }
      assert i == j;
      assert multiset(s.pushed)[e] >= s.queue[e] >= 2;
      TwiceMeansRepeated(s.pushed, e);
      assert false;
    }
  }

  // ------------------------------------------------------------ after the stop

  /** No pusher found the manager running and has yet to enqueue. */
  ghost predicate NobodyPassed(s: State) {
    forall p :: p in s.pushers ==> !s.pushers[p].Passed?
  }

  /** Once the manager is stopped, and the pushers that had found it running are
      through, nothing is enqueued ever again; and once the strand has come back to
      the head of its loop, nothing is taken or delivered ever again. */
  lemma {:induction false} QuietAfterStop(steps: seq<Step>, more: seq<Step>)
    requires After(steps).stopped
    ensures var s, r := After(steps), After(steps + more);
            && r.stopped
            && (NobodyPassed(s) ==> NobodyPassed(r) && r.pushed == s.pushed)
            && (s.strand.Idle? || s.strand.Head? ==>
                  (r.strand.Idle? || r.strand.Head?) && r.taken == s.taken && r.lateCalls == s.lateCalls)
  {
    if more == [] {
      assert steps + more == steps;
    } else {
      var n := |more| - 1;
      assert (steps + more)[..|steps + more| - 1] == steps + more[..n];
      QuietAfterStop(steps, more[..n]);
      if Enabled(After(steps + more[..n]), more[n]) {
        NextIsQuiet(After(steps + more[..n]), more[n]);
      }
    }
  }

  lemma NextIsQuiet(s: State, step: Step)
    requires Enabled(s, step) && s.stopped
    ensures var r := Next(s, step);
            && r.stopped
            && (NobodyPassed(s) ==> NobodyPassed(r) && r.pushed == s.pushed)
            && (s.strand.Idle? || s.strand.Head? ==>
                  (r.strand.Idle? || r.strand.Head?) && r.taken == s.taken && r.lateCalls == s.lateCalls)
  {
  }

  // --------------------------------------------------------------------- FIFO

  function OfPriority(s: seq<Event>, priority: nat): (r: seq<Event>)
    ensures forall e :: e in r ==> e in s && e.priority == priority
  {
    if s == [] then []
    else
      var last := s[|s| - 1];
      OfPriority(s[..|s| - 1], priority) + if last.priority == priority then [last] else []
  }

  ghost predicate InCreationOrder(s: seq<Event>) {
    forall i, j :: 0 <= i < j < |s| ==> s[i].order < s[j].order
  }

  lemma {:induction false} OfPriorityCounts(s: seq<Event>, e: Event)
    ensures multiset(OfPriority(s, e.priority))[e] == multiset(s)[e]
  {
    if s != [] {
      var n := |s| - 1;
      OfPriorityCounts(s[..n], e);
      assert s == s[..n] + [s[n]];
    }
  }

  lemma OfPriorityAppend(s: seq<Event>, e: Event, priority: nat)
    ensures OfPriority(s + [e], priority)
            == OfPriority(s, priority) + if e.priority == priority then [e] else []
  {
    assert (s + [e])[..|s|] == s;
  }

  /** What has not been taken yet of one priority is what waits of it. */
  lemma RestIsWaiting(s: State, t: seq<Event>, rest: seq<Event>, e: Event)
    requires Conserved(s)
    requires t == OfPriority(s.taken, e.priority)
    requires t + rest == OfPriority(s.pushed, e.priority)
    ensures e in rest <==> e in s.queue
  {
    OfPriorityCounts(s.pushed, e);
    OfPriorityCounts(s.taken, e);
    assert multiset(t + rest) == multiset(t) + multiset(rest);
    assert multiset(rest)[e] == s.queue[e];
  }

  /** The event taken next is the first of its priority that is still waiting. */
  lemma TopIsFirst(s: State, e: Event, t: seq<Event>, rest: seq<Event>)
    requires Conserved(s) && IsTop(e, s.queue)
    requires t == OfPriority(s.taken, e.priority)
    requires t + rest == OfPriority(s.pushed, e.priority)
    requires InCreationOrder(rest)
    ensures rest != [] && rest[0] == e
  {
    RestIsWaiting(s, t, rest, e);
    var i :| 0 <= i < |rest| && rest[i] == e;
    var first := rest[0];
    assert first in t + rest;
    RestIsWaiting(s, t, rest, first);
    assert Precedes(e, first);
  }

  ghost predicate Fifo(s: State, priority: nat) {
    InCreationOrder(OfPriority(s.pushed, priority)) ==>
      OfPriority(s.taken, priority) <= OfPriority(s.pushed, priority)
  }

  lemma TakeKeepsFifo(s: State, e: Event)
    requires Conserved(s) && IsTop(e, s.queue)
    requires Fifo(s, e.priority)
    ensures InCreationOrder(OfPriority(s.pushed, e.priority)) ==>
              OfPriority(s.taken + [e], e.priority) <= OfPriority(s.pushed, e.priority)
  {
    var p, t := OfPriority(s.pushed, e.priority), OfPriority(s.taken, e.priority);
    if InCreationOrder(p) {
      SuffixInOrder(p, |t|);
      PrefixGrows(t, p);
      TopIsFirst(s, e, t, p[|t|..]);
      OfPriorityAppend(s.taken, e, e.priority);
    }
  }

  lemma PrefixGrows(t: seq<Event>, p: seq<Event>)
    requires t <= p
    ensures t + p[|t|..] == p
    ensures |t| < |p| ==> t + [p[|t|..][0]] <= p
  {
  }

  lemma SuffixInOrder(p: seq<Event>, n: nat)
    requires n <= |p| && InCreationOrder(p)
    ensures InCreationOrder(p[n..])
  {
  }

  lemma EnqueueKeepsFifo(s: State, e: Event, priority: nat)
    requires Fifo(s, priority)
    ensures Fifo(s.(pushed := s.pushed + [e]), priority)
  {
    OfPriorityAppend(s.pushed, e, priority);
    var p, p' := OfPriority(s.pushed, priority), OfPriority(s.pushed + [e], priority);
    assert p == p'[..|p|];
    assert InCreationOrder(p') ==> InCreationOrder(p);
  }

  lemma NextKeepsFifo(s: State, step: Step, priority: nat)
    requires Enabled(s, step) && Conserved(s) && Fifo(s, priority)
    ensures Fifo(Next(s, step), priority)
  {
    if step.Enqueue? {
      EnqueueKeepsFifo(s, s.pushers[step.p].e, priority);
    } else if step.Take? {
      if step.e.priority == priority {
        TakeKeepsFifo(s, step.e);
      } else {
        OfPriorityAppend(s.taken, step.e, priority);
      }
    }
  }

  lemma {:induction false} FifoPrefix(steps: seq<Step>, priority: nat)
    ensures Fifo(After(steps), priority)
  {
    if steps != [] {
      var n := |steps| - 1;
      FifoPrefix(steps[..n], priority);
      RunSound(steps[..n]);
      if Enabled(After(steps[..n]), steps[n]) {
        NextKeepsFifo(After(steps[..n]), steps[n], priority);
      }
    }
  }

  /** Events of one priority that were enqueued in creation order are taken in
      exactly that order: what has been taken is a prefix of what was enqueued. */
  lemma {:induction false} FifoPerPriority(steps: seq<Step>, priority: nat)
    requires InCreationOrder(OfPriority(After(steps).pushed, priority))
    ensures OfPriority(After(steps).taken, priority) <= OfPriority(After(steps).pushed, priority)
    ensures InCreationOrder(OfPriority(After(steps).taken, priority))
  {
    FifoPrefix(steps, priority);
    var t, p := OfPriority(After(steps).taken, priority), OfPriority(After(steps).pushed, priority);
    assert t == p[..|t|];
  }

}
