/** server/src/network/event_loop.cpp: functors handed to the loop thread.

    Other threads push a functor under the mutex and then, as a separate step, write the eventfd;
    the loop thread polls, clears the eventfd, swaps the queue and runs the batch. Any
    interleaving of these steps is a run. */
module EventLoops {
  import Common

  type Functor = int

  const LOOP: nat := 0                                  // the loop's own thread
  const COUNTER_MAX: nat := 0xffff_ffff_ffff_fffe       // an eventfd counts no further

  /** Has the thread that queued a functor also written the eventfd? The loop thread itself
      does not, outside of a batch, whether it still has the poll before it or not. */
  datatype Wakeup = Owed(thread: nat) | Sent | None(beforePoll: bool)

  datatype Entry = Entry(f: Functor, wakeup: Wakeup)

  /** Where loop() is: at its timers, polled (with or without the wakeup channel active), done
      with the wakeup channel (cleared or not), running the batch, or at the frame functor. */
  datatype Pc = Timers | Polled(ready: bool) | Handled(cleared: bool) | Running | Frame

  datatype Loop = Loop(
    pc: Pc,
    counter: nat,             // eventfd
    pending: seq<Entry>,      // pending_functors_
    owing: set<nat>,          // threads between push_back and wakeup
    batch: seq<Functor>,      // functors taken by the last swap
    pos: nat,                 // of which this many have run
    swaps: nat,
    queued: seq<Functor>,     // history: every functor ever queued
    queuedAt: seq<nat>,       // and how many swaps had happened by then
    ran: seq<Functor>,        // every functor run
    ranAt: seq<nat>           // and in which batch
  )

  const START := Loop(Timers, 0, [], {}, [], 0, 0, [], [], [], [])

  datatype Event =
    | Push(thread: nat, f: Functor)   // push_back under the mutex
    | Wake(thread: nat)               // write to the eventfd
    | Poll
    | HandleRead                      // or nothing, if the channel is not active
    | Swap
    | RunNext
    | EndBatch
    | EndFrame

  /** The loop thread does one thing at a time; any thread finishes one queue_in_loop before the
      next. */
  predicate Possible(s: Loop, e: Event) {
    match e
    case Push(t, _) => t !in s.owing
    case Wake(t) => t in s.owing
    case Poll => LOOP !in s.owing && s.pc == Timers
    case HandleRead => LOOP !in s.owing && s.pc.Polled?
    case Swap => LOOP !in s.owing && s.pc.Handled?
    case RunNext => LOOP !in s.owing && s.pc == Running && s.pos < |s.batch|
    case EndBatch => LOOP !in s.owing && s.pc == Running && s.pos == |s.batch|
    case EndFrame => LOOP !in s.owing && s.pc == Frame
  }

  function Woken(es: seq<Entry>, t: nat): (r: seq<Entry>)
    ensures |r| == |es|
    ensures forall i :: 0 <= i < |es| ==> r[i] == if es[i].wakeup == Owed(t) then es[i].(wakeup := Sent) else es[i]
  {
    if es == [] then []
    else [if es[0].wakeup == Owed(t) then es[0].(wakeup := Sent) else es[0]] + Woken(es[1..], t)
  }

  function Functors(es: seq<Entry>): (r: seq<Functor>)
    ensures |r| == |es| && forall i :: 0 <= i < |es| ==> r[i] == es[i].f
  {
    if es == [] then [] else [es[0].f] + Functors(es[1..])
  }

  /** queue_in_loop wakes the loop up for other threads, and for itself only during a batch. */
  function WakeupFor(pc: Pc, t: nat): Wakeup {
    if t != LOOP || pc == Running then Owed(t) else None(pc == Timers || pc == Frame)
  }

  function Step(s: Loop, e: Event): Loop
    requires Possible(s, e)
  {
    match e
    case Push(t, f) =>
      s.(pending := s.pending + [Entry(f, WakeupFor(s.pc, t))],
         owing := if WakeupFor(s.pc, t).Owed? then s.owing + {t} else s.owing,
         queued := s.queued + [f], queuedAt := s.queuedAt + [s.swaps])
    case Wake(t) =>
      s.(pending := Woken(s.pending, t), owing := s.owing - {t},
         counter := if s.counter < COUNTER_MAX then s.counter + 1 else s.counter)
    case Poll => s.(pc := Polled(s.counter > 0))
    case HandleRead => if s.pc.ready then s.(pc := Handled(true), counter := 0) else s.(pc := Handled(false))
    case Swap => s.(pc := Running, batch := Functors(s.pending), pos := 0, pending := [], swaps := s.swaps + 1)
    case RunNext => s.(pos := s.pos + 1, ran := s.ran + [s.batch[s.pos]], ranAt := s.ranAt + [s.swaps])
    case EndBatch => s.(pc := Frame)
    case EndFrame => s.(pc := Timers)
  }

  // ----- what every step keeps ---------------------------------------------

  /** Nothing is lost, repeated or reordered. */
  ghost predicate InOrder(s: Loop) {
    && s.pos <= |s.batch| && (s.pc != Running ==> s.pos == |s.batch|)
    && s.queued == s.ran + s.batch[s.pos..] + Functors(s.pending)
  }

  /** A functor waits for the next swap, is in the batch, or ran in the first batch after it was
      queued. */
  ghost predicate NextBatch(s: Loop) {
    var taken := |s.ran| + (|s.batch| - s.pos);
    && s.pos <= |s.batch| && |s.queuedAt| == |s.queued| == taken + |s.pending| && |s.ranAt| == |s.ran|
    && (forall i :: 0 <= i < |s.ran| ==> s.ranAt[i] == s.queuedAt[i] + 1)
    && (forall i :: |s.ran| <= i < taken ==> s.queuedAt[i] + 1 == s.swaps)
    && (forall i :: taken <= i < |s.queued| ==> s.queuedAt[i] == s.swaps)
  }

  /** No wakeup is lost: a waiting functor whose wakeup was sent finds the eventfd readable, or
      the loop past clearing it and not yet at the swap. */
  ghost predicate WakeupKept(s: Loop) {
    forall i :: 0 <= i < |s.pending| && s.pending[i].wakeup == Sent ==> s.counter > 0 || s.pc == Handled(true)
  }

  /** Wakeups still owed for waiting functors are owed by threads that are about to send them. */
  ghost predicate OwedByOwing(s: Loop) {
    forall i :: 0 <= i < |s.pending| && s.pending[i].wakeup.Owed? ==> s.pending[i].wakeup.thread in s.owing
  }

  /** What the loop thread queued behind its poll waits only until the swap of the same round. */
  ghost predicate QueuedInRound(s: Loop) {
    forall i :: 0 <= i < |s.pending| && s.pending[i].wakeup == None(false) ==> s.pc.Polled? || s.pc.Handled?
  }

  ghost predicate Inv(s: Loop) {
    InOrder(s) && NextBatch(s) && WakeupKept(s) && OwedByOwing(s) && QueuedInRound(s)
  }

  lemma {:induction false} FunctorsAppend(a: seq<Entry>, x: Entry)
    ensures Functors(a + [x]) == Functors(a) + [x.f]
  {
    if a == [] {
      assert a + [x] == [x];
    } else {
      assert (a + [x])[1..] == a[1..] + [x];
      FunctorsAppend(a[1..], x);
    }
  }

  lemma PushKeepsOrder(ran: seq<Functor>, rest: seq<Functor>, pending: seq<Entry>, x: Entry)
    ensures ran + rest + Functors(pending + [x]) == ran + rest + Functors(pending) + [x.f]
  {
    FunctorsAppend(pending, x);
  }

  lemma RunKeepsOrder(ran: seq<Functor>, batch: seq<Functor>, pos: nat, waiting: seq<Functor>)
    requires pos < |batch|
    ensures ran + batch[pos..] + waiting == ran + [batch[pos]] + batch[pos + 1..] + waiting
  {
    assert batch[pos..] == [batch[pos]] + batch[pos + 1..];
  }

  lemma SwapKeepsOrder(ran: seq<Functor>, batch: seq<Functor>, waiting: seq<Functor>)
    ensures ran + batch[|batch|..] + waiting == ran + waiting[0..] + []
  {
  }

  lemma StepKeepsOrder(s: Loop, e: Event)
    requires InOrder(s) && Possible(s, e)
    ensures InOrder(Step(s, e))
  {
    match e {
      case Push(t, f) =>
        PushKeepsOrder(s.ran, s.batch[s.pos..], s.pending, Entry(f, WakeupFor(s.pc, t)));
      case Wake(t) => assert Functors(Woken(s.pending, t)) == Functors(s.pending);
      case Swap => SwapKeepsOrder(s.ran, s.batch, Functors(s.pending));
      case RunNext => RunKeepsOrder(s.ran, s.batch, s.pos, Functors(s.pending));
      case _ =>
    }
  }

  lemma StepKeepsBatches(s: Loop, e: Event)
    requires InOrder(s) && NextBatch(s) && Possible(s, e)
    ensures NextBatch(Step(s, e))
  {
  }

  lemma StepKeepsWakeups(s: Loop, e: Event)
    requires WakeupKept(s) && OwedByOwing(s) && QueuedInRound(s) && Possible(s, e)
    ensures WakeupKept(Step(s, e)) && OwedByOwing(Step(s, e)) && QueuedInRound(Step(s, e))
  {
  }

  lemma StepKeepsInv(s: Loop, e: Event)
    requires Inv(s) && Possible(s, e)
    ensures Inv(Step(s, e))
  {
    StepKeepsOrder(s, e);
    StepKeepsBatches(s, e);
    StepKeepsWakeups(s, e);
  }

  ghost predicate PossibleRun(s: Loop, es: seq<Event>)
    decreases |es|
  {
    es != [] ==> Possible(s, es[0]) && PossibleRun(Step(s, es[0]), es[1..])
  }

  ghost function Run(s: Loop, es: seq<Event>): Loop
    requires PossibleRun(s, es)
    decreases |es|
  {
    if es == [] then s else Run(Step(s, es[0]), es[1..])
  }

  lemma {:induction false} RunKeepsInv(s: Loop, es: seq<Event>)
    requires Inv(s) && PossibleRun(s, es)
    ensures Inv(Run(s, es))
    decreases |es|
  {
    if es != [] {
      StepKeepsInv(s, es[0]);
      RunKeepsInv(Step(s, es[0]), es[1..]);
    }
  }

  // ----- the theorems ------------------------------------------------------

  /** Under any interleaving, what has run is a prefix of what was queued: each functor at most
      once, in queue order. */
  lemma RunAtMostOnceInOrder(es: seq<Event>)
    requires PossibleRun(START, es)
    ensures Run(START, es).ran <= Run(START, es).queued
  {
    RunKeepsInv(START, es);
  }

  /** Each functor runs in the first batch swapped out after it was queued: never in the batch
      during which it was queued, and never later than the next. */
  lemma RunInNextBatch(es: seq<Event>, i: nat)
    requires PossibleRun(START, es)
    ensures var s := Run(START, es);
            && |s.queuedAt| == |s.queued| && |s.ranAt| == |s.ran| <= |s.queued|
            && (i < |s.ran| ==> s.ranAt[i] == s.queuedAt[i] + 1)
            && (i < |s.queued| && s.queuedAt[i] < s.swaps && s.pc != Running ==> i < |s.ran|)
  {
    RunKeepsInv(START, es);
  }

  /** A functor whose wakeup was sent before the poll makes the poll return at once with the
      wakeup channel active, and is in the very next batch. */
  lemma WakeupReachesPoll(es: seq<Event>, i: nat)
    requires PossibleRun(START, es)
    requires var s := Run(START, es); i < |s.pending| && s.pending[i].wakeup == Sent
    ensures var s := Run(START, es);
            && (s.counter > 0 || s.pc == Handled(true))
            && (Possible(s, Poll) ==> Step(s, Poll).pc == Polled(true))
            && (Possible(s, Swap) ==> s.pending[i].f in Step(s, Swap).batch)
  {
    RunKeepsInv(START, es);
    SentIsSeen(Run(START, es), i);
  }

  lemma SentIsSeen(s: Loop, i: nat)
    requires WakeupKept(s) && i < |s.pending| && s.pending[i].wakeup == Sent
    ensures s.counter > 0 || s.pc == Handled(true)
    ensures Possible(s, Poll) ==> Step(s, Poll).pc == Polled(true)
    ensures Possible(s, Swap) ==> s.pending[i].f in Step(s, Swap).batch
  {
    assert Functors(s.pending)[i] == s.pending[i].f;
  }

  /** A waiting functor with no wakeup behind it is one whose thread is just about to write the
      eventfd, or one that the loop thread queued itself outside of a batch: either behind its
      poll, and then the swap comes before the next poll, or in its timers or frame functor. */
  lemma NoFunctorStranded(es: seq<Event>, i: nat)
    requires PossibleRun(START, es) && i < |Run(START, es).pending|
    ensures Attended(Run(START, es), i)
  {
    RunKeepsInv(START, es);
    InvAttends(Run(START, es), i);
  }

  ghost predicate Attended(s: Loop, i: nat)
    requires i < |s.pending|
  {
    match s.pending[i].wakeup
    case Sent => s.counter > 0 || s.pc == Handled(true)
    case Owed(t) => Possible(s, Wake(t)) && Step(s, Wake(t)).pending[i].wakeup == Sent && Step(s, Wake(t)).counter > 0
    case None(beforePoll) => beforePoll || s.pc.Polled? || s.pc.Handled?
  }

  lemma InvAttends(s: Loop, i: nat)
    requires Inv(s) && i < |s.pending|
    ensures Attended(s, i)
  {
  }

  /** Wakeups written since the eventfd was last cleared, n of them before the run. */
  ghost function Signals(s: Loop, es: seq<Event>, n: nat): nat
    requires PossibleRun(s, es)
    decreases |es|
  {
    if es == [] then n
    else Signals(Step(s, es[0]), es[1..],
                 if es[0].Wake? then n + 1 else if es[0].HandleRead? && s.pc == Polled(true) then 0 else n)
  }

  lemma {:induction false} CounterShowsSignals(s: Loop, es: seq<Event>, n: nat)
    requires PossibleRun(s, es) && (s.counter > 0 <==> n > 0)
    ensures Run(s, es).counter > 0 <==> Signals(s, es, n) > 0
    decreases |es|
  {
    if es != [] {
      CounterShowsSignals(Step(s, es[0]), es[1..],
                          if es[0].Wake? then n + 1 else if es[0].HandleRead? && s.pc == Polled(true) then 0 else n);
    }
  }

  /** The poll returns for the wakeup channel if and only if a wakeup was written since the eventfd
      was last cleared. If it does not, every functor then waiting is one whose wakeup is still
      owed or one the loop thread queued in its timers or frame functor. */
  lemma PollWakesIff(es: seq<Event>)
    requires PossibleRun(START, es) && Possible(Run(START, es), Poll)
    ensures var s := Run(START, es);
            && Step(s, Poll).pc == Polled(Signals(START, es, 0) > 0)
            && (Signals(START, es, 0) == 0 ==> NoneSent(s.pending))
  {
    RunKeepsInv(START, es);
    CounterShowsSignals(START, es, 0);
    SilentPoll(Run(START, es));
  }

  ghost predicate NoneSent(es: seq<Entry>) {
    forall i :: 0 <= i < |es| ==> es[i].wakeup.Owed? || es[i].wakeup == None(true)
  }

  lemma SilentPoll(s: Loop)
    requires Inv(s) && s.pc == Timers
    ensures s.counter == 0 ==> NoneSent(s.pending)
  {
  }

  // ----- what a run's own events say ---------------------------------------

  /** A call of queue_in_loop: the functor, the calling thread, and where the loop was. */
  datatype Origin = Origin(f: Functor, thread: nat, pc: Pc)

  function OriginOf(s: Loop, e: Event): seq<Origin> {
    if e.Push? then [Origin(e.f, e.thread, s.pc)] else []
  }

  ghost function OriginsBy(s: Loop, es: seq<Event>): seq<Origin>
    requires PossibleRun(s, es)
    decreases |es|
  {
    if es == [] then [] else OriginOf(s, es[0]) + OriginsBy(Step(s, es[0]), es[1..])
  }

  /** Calls from other threads and calls during a batch must wake the loop. */
  predicate MustWake(o: Origin) {
    o.thread != LOOP || o.pc == Running
  }

  predicate Marked(x: Entry, o: Origin) {
    && x.f == o.f
    && (if MustWake(o) then x.wakeup == Sent || x.wakeup == Owed(o.thread)
        else x.wakeup == None(o.pc == Timers || o.pc == Frame))
  }

  /** The waiting functors are those of the last calls, each marked as its call demands. */
  ghost predicate PendingMarked(s: Loop, os: seq<Origin>) {
    |s.pending| <= |os| && forall i :: 0 <= i < |s.pending| ==> Marked(s.pending[i], os[|os| - |s.pending| + i])
  }

  lemma StepMarks(s: Loop, e: Event, os: seq<Origin>)
    requires PendingMarked(s, os) && Possible(s, e)
    ensures PendingMarked(Step(s, e), os + OriginOf(s, e))
  {
    var t, more := Step(s, e), os + OriginOf(s, e);
    forall i | 0 <= i < |t.pending| ensures Marked(t.pending[i], more[|more| - |t.pending| + i]) {
      if i < |s.pending| { assert Marked(s.pending[i], os[|os| - |s.pending| + i]); }
    }
  }

  lemma {:induction false} RunMarks(s: Loop, es: seq<Event>, os: seq<Origin>)
    requires PendingMarked(s, os) && PossibleRun(s, es)
    ensures PendingMarked(Run(s, es), os + OriginsBy(s, es))
    decreases |es|
  {
    if es == [] {
      assert os + [] == os;
    } else {
      StepMarks(s, es[0], os);
      RunMarks(Step(s, es[0]), es[1..], os + OriginOf(s, es[0]));
      Common.Associate(os, OriginOf(s, es[0]), OriginsBy(Step(s, es[0]), es[1..]));
    }
  }

  function Pushed(es: seq<Event>): seq<Functor> {
    if es == [] then [] else (if es[0].Push? then [es[0].f] else []) + Pushed(es[1..])
  }

  function CountRuns(es: seq<Event>): nat {
    if es == [] then 0 else (if es[0].RunNext? then 1 else 0) + CountRuns(es[1..])
  }

  lemma {:induction false} RunRecords(s: Loop, es: seq<Event>)
    requires PossibleRun(s, es)
    ensures Run(s, es).queued == s.queued + Pushed(es) && |Run(s, es).ran| == |s.ran| + CountRuns(es)
    decreases |es|
  {
    if es == [] {
      assert s.queued + [] == s.queued;
    } else {
      RunRecords(Step(s, es[0]), es[1..]);
      Common.Associate(s.queued, if es[0].Push? then [es[0].f] else [], Pushed(es[1..]));
      assert s.queued + [] == s.queued;
    }
  }

  /** In every run: what has been queued is what queue_in_loop was called with, in that order, and
      as many functors have run as the loop has taken steps to run one; and each waiting functor
      has its wakeup sent or owed by its thread exactly if the call came from another thread or
      during a batch, whatever happened since. */
  lemma CallsDecideWakeups(es: seq<Event>)
    requires PossibleRun(START, es)
    ensures Run(START, es).queued == Pushed(es) && |Run(START, es).ran| == CountRuns(es)
    ensures PendingMarked(Run(START, es), OriginsBy(START, es))
  {
    RunRecords(START, es);
    RunMarks(START, es, []);
    assert [] + OriginsBy(START, es) == OriginsBy(START, es) && [] + Pushed(es) == Pushed(es);
  }

  /** A call that must wake leaves its thread owing the wakeup, and the thread does nothing else
      until it has sent it; in particular the loop does not poll. */
  lemma CallOwesWakeup(es: seq<Event>, t: nat, f: Functor, later: seq<Event>)
    requires PossibleRun(START, es) && Possible(Run(START, es), Push(t, f))
    requires t != LOOP || Run(START, es).pc == Running
    requires PossibleRun(Step(Run(START, es), Push(t, f)), later)
    requires forall i :: 0 <= i < |later| ==> later[i] != Wake(t)
    ensures t in Run(Step(Run(START, es), Push(t, f)), later).owing
    ensures forall i :: 0 <= i < |later| && later[i].Push? ==> later[i].thread != t
    ensures t == LOOP ==> forall i :: 0 <= i < |later| ==> later[i].Push? || later[i].Wake?
  {
    OwesUntilWake(Step(Run(START, es), Push(t, f)), later, t);
  }

  lemma {:induction false} OwesUntilWake(s: Loop, es: seq<Event>, t: nat)
    requires t in s.owing && PossibleRun(s, es) && forall i :: 0 <= i < |es| ==> es[i] != Wake(t)
    ensures t in Run(s, es).owing
    ensures forall i :: 0 <= i < |es| && es[i].Push? ==> es[i].thread != t
    ensures t == LOOP ==> forall i :: 0 <= i < |es| ==> es[i].Push? || es[i].Wake?
    decreases |es|
  {
    if es != [] {
      OwesUntilWake(Step(s, es[0]), es[1..], t);
      assert forall i :: 1 <= i < |es| ==> es[i] == es[1..][i - 1];
    }
  }

  /** So a poll sleeps only on functors of other threads that are about to wake it, and on those
      the loop queued in its timers or its frame functor: never on one queued during a batch. */
  lemma PollSleepsOnlyOn(es: seq<Event>, i: nat)
    requires PossibleRun(START, es) && Possible(Run(START, es), Poll) && Step(Run(START, es), Poll).pc == Polled(false)
    requires i < |Run(START, es).pending|
    ensures var s, os := Run(START, es), OriginsBy(START, es);
            && |s.pending| <= |os|
            && var o := os[|os| - |s.pending| + i];
               || (o.thread != LOOP && o.thread in s.owing)
               || (o.thread == LOOP && (o.pc == Timers || o.pc == Frame))
  {
    RunKeepsInv(START, es);
    CallsDecideWakeups(es);
    SleepsOn(Run(START, es), OriginsBy(START, es), i);
  }

  lemma SleepsOn(s: Loop, os: seq<Origin>, i: nat)
    requires Inv(s) && PendingMarked(s, os) && Possible(s, Poll) && s.counter == 0 && i < |s.pending|
    ensures var o := os[|os| - |s.pending| + i];
            || (o.thread != LOOP && o.thread in s.owing)
            || (o.thread == LOOP && (o.pc == Timers || o.pc == Frame))
  {
    assert Marked(s.pending[i], os[|os| - |s.pending| + i]);
    SilentPoll(s);
  }

  /** The steps the loop itself goes through, round after round. */
  predicate Control(e: Event) {
    e.Poll? || e.HandleRead? || e.Swap? || e.EndBatch? || e.EndFrame?
  }

  function Phase(e: Event): nat
    requires Control(e)
  {
    match e
    case Poll => 0
    case HandleRead => 1
    case Swap => 2
    case EndBatch => 3
    case EndFrame => 4
  }

  function Place(pc: Pc): nat {
    match pc
    case Timers => 0
    case Polled(_) => 1
    case Handled(_) => 2
    case Running => 3
    case Frame => 4
  }

  function Controls(es: seq<Event>): nat {
    if es == [] then 0 else (if Control(es[0]) then 1 else 0) + Controls(es[1..])
  }

  /** Timers, poll, wakeup channel, swap, batch, frame functor: in every run the loop's own steps
      come in this order, round after round, so the next one is told by their number; and functors
      run only between swap and frame. */
  lemma LoopGoesRound(es: seq<Event>, e: Event)
    requires PossibleRun(START, es) && Possible(Run(START, es), e)
    ensures Control(e) ==> Phase(e) == Controls(es) % 5
    ensures e.RunNext? ==> Controls(es) % 5 == 3
  {
    RoundFrom(START, es);
  }

  lemma {:induction false} RoundFrom(s: Loop, es: seq<Event>)
    requires PossibleRun(s, es)
    ensures Place(Run(s, es).pc) == (Place(s.pc) + Controls(es)) % 5
    decreases |es|
  {
    if es != [] {
      RoundFrom(Step(s, es[0]), es[1..]);
    }
  }

  /** The last kind does occur: the loop queues a functor for itself in a timer callback and then
      polls with no wakeup to end the wait. */
  lemma PollMaySleepOnFunctor(f: Functor)
    ensures var es := [Push(LOOP, f), Poll];
            && PossibleRun(START, es)
            && Run(START, es).pc == Polled(false) && Run(START, es).pending == [Entry(f, None(true))]
  {
    var e0, e1 := Push(LOOP, f), Poll;
    var s1 := Step(START, e0);
    var s2 := Step(s1, e1);
    assert [e1][1..] == [] && PossibleRun(s2, []) && Run(s2, []) == s2;
    assert PossibleRun(s1, [e1]) && Run(s1, [e1]) == s2;
    assert [e0, e1][1..] == [e1];
  }
}
