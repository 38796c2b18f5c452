/** server/src/network/timer.cpp and timer_queue.cpp: timers kept in a set ordered by the
    expiration they were inserted with, and the pass that runs the due ones. The callback of a
    timer leaves the queue alone. */
module TimerQueues {
  import opened Common

  /** `start` is the expiration at insertion, which stays the set's key; `runs` records at which
      time, and `passes` in which pass, the callback was called. */
  datatype Timer = Timer(
    id: int, start: int, interval: int, count: int,
    expiration: int, repeat: int, canceled: bool,
    runs: seq<int>, passes: seq<nat>)
  {
    /** Timer::run. */
    function Run(now: int, pass: nat): Timer {
      if canceled then this
      else
        var t := this.(runs := runs + [now], passes := passes + [pass]);
        if repeat == -1 then t.(expiration := expiration + interval)
        else if repeat - 1 == 0 then t.(repeat := 0)
        else t.(repeat := repeat - 1, expiration := expiration + interval)
    }
  }

  function NewTimer(id: int, when: int, interval: int, count: int): Timer {
    Timer(id, when, interval, count, when, count, false, [], [])
  }

  /** The timers that stay and those erased by a pass. */
  datatype Passed = Passed(kept: seq<Timer>, erased: seq<Timer>)

  /** TimerQueue::do_timer: in key order, run while due, stop at the first that is not. */
  function Pass(ts: seq<Timer>, now: int, pass: nat): Passed {
    if |ts| == 0 || ts[0].expiration > now then Passed(ts, [])
    else
      var t := ts[0].Run(now, pass);
      var p := Pass(ts[1..], now, pass);
      if t.repeat == 0 then p.(erased := [t] + p.erased) else p.(kept := [t] + p.kept)
  }

  predicate Before(a: Timer, b: Timer) {
    a.start < b.start || (a.start == b.start && a.id < b.id)
  }

  /** Set insertion by (expiration, timer). */
  function Insert(ts: seq<Timer>, t: Timer): seq<Timer> {
    if |ts| == 0 || Before(t, ts[0]) then [t] + ts else [ts[0]] + Insert(ts[1..], t)
  }

  function RemoveId(ts: seq<Timer>, id: int): seq<Timer> {
    if |ts| == 0 then [] else if ts[0].id == id then ts[1..] else [ts[0]] + RemoveId(ts[1..], id)
  }

  function CancelId(ts: seq<Timer>, id: int, off: bool): seq<Timer> {
    if |ts| == 0 then []
    else if ts[0].id == id then [ts[0].(canceled := off)] + ts[1..]
    else [ts[0]] + CancelId(ts[1..], id, off)
  }

  // ----- the laws of one timer ---------------------------------------------

  /** When the j-th repetition is due, counted from zero: no drift. */
  function Due(t: Timer, j: nat): int {
    t.start + t.interval * j
  }

  lemma DueNext(t: Timer, j: nat)
    ensures Due(t, j + 1) == Due(t, j) + t.interval
  {
  }

  /** Of every timer in the queue: its expiration is the due time of its next run, no run came
      before its due time or twice in a pass, and the count is what is left of it. */
  ghost predicate Lawful(t: Timer, pass: nat) {
    && |t.passes| == |t.runs| && t.expiration == Due(t, |t.runs|)
    && (forall j :: 0 <= j < |t.runs| ==> t.runs[j] >= Due(t, j))
    && (forall i, j :: 0 <= i < j < |t.passes| ==> t.passes[i] < t.passes[j])
    && (forall j :: 0 <= j < |t.passes| ==> t.passes[j] < pass)
    && (t.count >= 1 ==> t.repeat == t.count - |t.runs| >= 1)
    && (t.count == 0 ==> t.repeat == if |t.runs| == 0 then 0 else -1)
    && (t.count == -1 ==> t.repeat == -1)
    && (t.count < -1 ==> t.repeat == t.count - |t.runs|)
  }

  /** Of every timer erased by a pass: it was added with a positive count and has run exactly
      that often, never early and never twice in a pass. The one exception is a timer added with
      count zero and canceled before it ever ran. */
  ghost predicate Spent(t: Timer, pass: nat) {
    && |t.passes| == |t.runs|
    && (forall j :: 0 <= j < |t.runs| ==> t.runs[j] >= Due(t, j))
    && (forall i, j :: 0 <= i < j < |t.passes| ==> t.passes[i] < t.passes[j])
    && (forall j :: 0 <= j < |t.passes| ==> t.passes[j] < pass)
    && ((t.count >= 1 && |t.runs| == t.count) || (t.count == 0 && t.canceled && |t.runs| == 0))
  }

  lemma RunIsLawful(t: Timer, now: int, pass: nat)
    requires Lawful(t, pass) && t.expiration <= now
    ensures var r := t.Run(now, pass);
            && (if r.repeat == 0 then Spent(r, pass + 1) else Lawful(r, pass + 1))
            && r.id == t.id && r.start == t.start && r.interval == t.interval && r.count == t.count
  {
    DueNext(t, |t.runs|);
    var r := t.Run(now, pass);
    assert forall j :: 0 <= j < |r.runs| ==> Due(r, j) == Due(t, j);
  }

  lemma LaterPass(t: Timer, pass: nat)
    requires Lawful(t, pass)
    ensures Lawful(t, pass + 1)
  {
  }

  ghost predicate AllLawful(ts: seq<Timer>, pass: nat) {
    forall i :: 0 <= i < |ts| ==> Lawful(ts[i], pass)
  }

  ghost predicate AllSpent(ts: seq<Timer>, pass: nat) {
    forall i :: 0 <= i < |ts| ==> Spent(ts[i], pass)
  }

  lemma {:induction false} PassIsLawful(ts: seq<Timer>, now: int, pass: nat)
    requires AllLawful(ts, pass)
    ensures AllLawful(Pass(ts, now, pass).kept, pass + 1)
    ensures AllSpent(Pass(ts, now, pass).erased, pass + 1)
  {
    if |ts| == 0 || ts[0].expiration > now {
      forall i | 0 <= i < |ts| ensures Lawful(ts[i], pass + 1) { LaterPass(ts[i], pass); }
    } else {
      assert Lawful(ts[0], pass);
      RunIsLawful(ts[0], now, pass);
      PassIsLawful(ts[1..], now, pass);
      var t, p := ts[0].Run(now, pass), Pass(ts[1..], now, pass);
      if t.repeat == 0 { PrependSpent(t, p.erased, pass + 1); } else { PrependLawful(t, p.kept, pass + 1); }
    }
  }

  lemma PrependLawful(t: Timer, ts: seq<Timer>, pass: nat)
    requires Lawful(t, pass) && AllLawful(ts, pass)
    ensures AllLawful([t] + ts, pass)
  {
  }

  lemma PrependSpent(t: Timer, ts: seq<Timer>, pass: nat)
    requires Spent(t, pass) && AllSpent(ts, pass)
    ensures AllSpent([t] + ts, pass)
  {
  }

  // ----- which timers a pass reaches ---------------------------------------

  /** The due timers before the first that is not due. */
  function DuePrefix(ts: seq<Timer>, now: int): (n: nat)
    ensures n <= |ts|
    ensures forall i :: 0 <= i < n ==> ts[i].expiration <= now
    ensures n < |ts| ==> ts[n].expiration > now
  {
    if |ts| == 0 || ts[0].expiration > now then 0 else 1 + DuePrefix(ts[1..], now)
  }

  function RunEach(ts: seq<Timer>, now: int, pass: nat): seq<Timer> {
    if |ts| == 0 then [] else [ts[0].Run(now, pass)] + RunEach(ts[1..], now, pass)
  }

  /** Those with repetitions left, or those without. */
  function Select(ts: seq<Timer>, left: bool): seq<Timer> {
    if |ts| == 0 then [] else (if (ts[0].repeat != 0) == left then [ts[0]] else []) + Select(ts[1..], left)
  }

  lemma {:induction false} PassSplits(ts: seq<Timer>, front: seq<Timer>, back: seq<Timer>, now: int, pass: nat)
    requires ts == front + back
    requires (forall i :: 0 <= i < |front| ==> front[i].expiration <= now) && (|back| > 0 ==> back[0].expiration > now)
    ensures var ran := RunEach(front, now, pass);
            Pass(ts, now, pass) == Passed(Select(ran, true) + back, Select(ran, false))
    decreases |front|
  {
    if |front| == 0 {
      assert ts == back && Select([], true) + back == back;
    } else {
      PassSplits(ts[1..], front[1..], back, now, pass);
      SplitStep(front[0].Run(now, pass), RunEach(front[1..], now, pass), back);
    }
  }

  lemma SplitStep(t: Timer, ran: seq<Timer>, back: seq<Timer>)
    ensures Select([t] + ran, true) + back
            == if t.repeat == 0 then Select(ran, true) + back else [t] + (Select(ran, true) + back)
    ensures Select([t] + ran, false) == if t.repeat == 0 then [t] + Select(ran, false) else Select(ran, false)
  {
    SelectCons(t, ran, true);
    SelectCons(t, ran, false);
    if t.repeat == 0 {
      EmptyFront(Select(ran, true));
    } else {
      EmptyFront(Select(ran, false));
      Associate([t], Select(ran, true), back);
    }
  }

  lemma EmptyFront(ts: seq<Timer>)
    ensures [] + ts == ts
  {
  }

  /** A pass runs each timer of that prefix exactly once, erases those without repetitions left
      and leaves the rest of the queue exactly as it is. */
  lemma PassRunsPrefix(ts: seq<Timer>, now: int, pass: nat)
    ensures var n := DuePrefix(ts, now);
            var ran := RunEach(ts[..n], now, pass);
            Pass(ts, now, pass) == Passed(Select(ran, true) + ts[n..], Select(ran, false))
  {
    var n := DuePrefix(ts, now);
    assert ts == ts[..n] + ts[n..];
    PassSplits(ts, ts[..n], ts[n..], now, pass);
  }

  lemma SelectCons(t: Timer, ts: seq<Timer>, left: bool)
    ensures Select([t] + ts, left) == (if (t.repeat != 0) == left then [t] else []) + Select(ts, left)
  {
    assert ([t] + ts)[1..] == ts;
  }

  /** Callbacks called so far, over all timers. */
  function TotalRuns(ts: seq<Timer>): nat {
    if |ts| == 0 then 0 else |ts[0].runs| + TotalRuns(ts[1..])
  }

  predicate DueNow(t: Timer, now: int) {
    t.expiration <= now && !t.canceled
  }

  /** Timers whose callback is due. */
  function DueCount(ts: seq<Timer>, now: int): nat {
    if |ts| == 0 then 0 else (if DueNow(ts[0], now) then 1 else 0) + DueCount(ts[1..], now)
  }

  /** No callback that is due stands behind a timer that is not. */
  ghost predicate NoneHidden(ts: seq<Timer>, now: int) {
    forall i, j :: 0 <= i < j < |ts| && DueNow(ts[j], now) ==> ts[i].expiration <= now
  }

  function CallbacksOfPass(ts: seq<Timer>, now: int, pass: nat): int {
    TotalRuns(Pass(ts, now, pass).kept) + TotalRuns(Pass(ts, now, pass).erased) - TotalRuns(ts)
  }

  lemma {:induction false} NoneDueIff(ts: seq<Timer>, now: int)
    ensures DueCount(ts, now) == 0 <==> forall i :: 0 <= i < |ts| ==> !DueNow(ts[i], now)
  {
    if |ts| > 0 {
      NoneDueIff(ts[1..], now);
      assert forall i :: 1 <= i < |ts| ==> ts[i] == ts[1..][i - 1];
    }
  }

  lemma NoneHiddenCons(ts: seq<Timer>, now: int)
    requires |ts| > 0
    ensures NoneHidden(ts, now) <==> if ts[0].expiration <= now then NoneHidden(ts[1..], now)
                                     else forall i :: 0 <= i < |ts[1..]| ==> !DueNow(ts[1..][i], now)
  {
    assert forall i :: 1 <= i < |ts| ==> ts[i] == ts[1..][i - 1];
  }

  lemma RunCalls(t: Timer, now: int, pass: nat)
    requires t.expiration <= now
    ensures |t.Run(now, pass).runs| == |t.runs| + (if DueNow(t, now) then 1 else 0)
  {
  }

  lemma TotalRunsCons(t: Timer, ts: seq<Timer>)
    ensures TotalRuns([t] + ts) == |t.runs| + TotalRuns(ts)
  {
    assert ([t] + ts)[1..] == ts;
  }

  lemma PassOfNext(ts: seq<Timer>, now: int, pass: nat)
    requires |ts| > 0 && ts[0].expiration <= now
    ensures CallbacksOfPass(ts, now, pass) == (if DueNow(ts[0], now) then 1 else 0) + CallbacksOfPass(ts[1..], now, pass)
  {
    var t, p := ts[0].Run(now, pass), Pass(ts[1..], now, pass);
    RunCalls(ts[0], now, pass);
    if t.repeat == 0 { TotalRunsCons(t, p.erased); } else { TotalRunsCons(t, p.kept); }
  }

  /** A pass calls every callback that is due, if and only if none stands behind a timer that is
      not due; otherwise it calls fewer. */
  lemma {:induction false} AllDueCalledIff(ts: seq<Timer>, now: int, pass: nat)
    ensures CallbacksOfPass(ts, now, pass) == DueCount(ts, now) <==> NoneHidden(ts, now)
    ensures CallbacksOfPass(ts, now, pass) <= DueCount(ts, now)
  {
    if |ts| > 0 {
      NoneHiddenCons(ts, now);
      if ts[0].expiration <= now {
        PassOfNext(ts, now, pass);
        AllDueCalledIff(ts[1..], now, pass);
      } else {
        NoneDueIff(ts[1..], now);
      }
    }
  }

  ghost predicate SortedByKey(ts: seq<Timer>) {
    forall i, j :: 0 <= i < j < |ts| ==> ts[i].start <= ts[j].start
  }

  /** In particular, while no timer in the queue has repeated yet, all that are due are called. */
  lemma FreshQueueCallsAllDue(ts: seq<Timer>, now: int, pass: nat)
    requires SortedByKey(ts)
    requires AllLawful(ts, pass) && forall i :: 0 <= i < |ts| ==> |ts[i].runs| == 0
    ensures CallbacksOfPass(ts, now, pass) == DueCount(ts, now)
  {
    forall i | 0 <= i < |ts| ensures ts[i].expiration == ts[i].start {
      assert Due(ts[i], 0) == ts[i].start;
    }
    AllDueCalledIff(ts, now, pass);
  }

  /** But a repeating timer keeps its place when its expiration moves, and then hides due timers
      behind it: the one due at 50 is missed at 60 because the first is next due at 100. */
  lemma RepeatingTimerHidesDueOne()
    ensures var a, b := NewTimer(1, 0, 100, -1), NewTimer(2, 50, 0, 1);
            var first := Pass(Insert(Insert([], a), b), 0, 0);
            && first.kept == [a.Run(0, 0), b]
            && Pass(first.kept, 60, 1) == Passed(first.kept, [])
            && b.expiration <= 60
  {
    var a, b := NewTimer(1, 0, 100, -1), NewTimer(2, 50, 0, 1);
    assert Insert([], a) == [a] && [a][1..] == [] && Insert([], b) == [b];
    assert Insert([a], b) == [a, b] && [a, b][1..] == [b];
    assert Pass([b], 0, 0) == Passed([b], []);
    assert Pass([a, b], 0, 0).kept == [a.Run(0, 0)] + [b];
  }

  // ----- the queue over whole runs -----------------------------------------

  datatype Queue = Queue(timers: seq<Timer>, erased: seq<Timer>, pass: nat)

  datatype Op = Add(id: int, when: int, interval: int, count: int) | Remove(id: int) | Cancel(id: int, off: bool) | DoPass(now: int)

  function Apply(q: Queue, op: Op): Queue {
    match op
    case Add(id, when, interval, count) => q.(timers := Insert(q.timers, NewTimer(id, when, interval, count)))
    case Remove(id) => q.(timers := RemoveId(q.timers, id))
    case Cancel(id, off) => q.(timers := CancelId(q.timers, id, off))
    case DoPass(now) =>
      var p := Pass(q.timers, now, q.pass);
      Queue(p.kept, q.erased + p.erased, q.pass + 1)
  }

  function ApplyAll(q: Queue, ops: seq<Op>): Queue
    decreases |ops|
  {
    if ops == [] then q else ApplyAll(Apply(q, ops[0]), ops[1..])
  }

  ghost predicate QueueOk(q: Queue) {
    AllLawful(q.timers, q.pass) && AllSpent(q.erased, q.pass) && SortedByKey(q.timers)
  }

  lemma ApplyKeepsLaws(q: Queue, op: Op)
    requires QueueOk(q)
    ensures QueueOk(Apply(q, op))
  {
    match op {
      case Add(id, when, interval, count) =>
        assert Due(NewTimer(id, when, interval, count), 0) == when;
        InsertKeepsOrder(q.timers, NewTimer(id, when, interval, count));
      case Remove(id) => RemoveKeepsOrder(q.timers, id);
      case Cancel(id, off) => CancelKeepsLaws(q.timers, id, off, q.pass);
      case DoPass(now) =>
        PassIsLawful(q.timers, now, q.pass);
        PassKeepsKeyOrder(q.timers, now, q.pass);
        SpentLater(q.erased, q.pass);
    }
  }

  lemma SpentLater(ts: seq<Timer>, pass: nat)
    requires AllSpent(ts, pass)
    ensures AllSpent(ts, pass + 1)
  {
    forall i | 0 <= i < |ts| ensures Spent(ts[i], pass + 1) {
      assert Spent(ts[i], pass);
    }
  }

  /** Over any run of additions, removals, cancellations and passes, at whatever times the passes
      happen: a timer added with count k >= 1 has run fewer than k times while it is in the queue
      and exactly k times when a pass erases it; it never runs twice in a pass, and its j-th run
      never comes before start + (j - 1) * interval. */
  lemma {:induction false} RunsStayLawful(q: Queue, ops: seq<Op>)
    requires QueueOk(q)
    ensures QueueOk(ApplyAll(q, ops))
    decreases |ops|
  {
    if ops != [] {
      ApplyKeepsLaws(q, ops[0]);
      RunsStayLawful(Apply(q, ops[0]), ops[1..]);
    }
  }

  /** A timer added with a count below one is never erased by a pass that ran it: zero counts
      down past zero and then means forever. */
  lemma NonPositiveCountNeverEnds(t: Timer, now: int, pass: nat)
    requires Lawful(t, pass) && t.expiration <= now && !t.canceled
    ensures t.Run(now, pass).repeat == 0 <==> t.count >= 1 && |t.runs| + 1 == t.count
  {
  }

  class TimerQueue {
    var timers: seq<Timer>
    ghost var erased: seq<Timer>
    var pass: nat                // history only

    /** Holds after any sequence of operations. */
    ghost predicate Valid()
      reads this
    {
      AllLawful(timers, pass) && AllSpent(erased, pass) && SortedByKey(timers)
    }

    constructor ()
      ensures Valid() && timers == [] && erased == [] && pass == 0
    {
      timers, erased, pass := [], [], 0;
    }

    /** The rvalue overload of add_timer. */
    method AddTimer(id: int, when: int, interval: int, count: int)
      requires Valid()
      modifies this
      ensures Valid() && timers == Insert(old(timers), NewTimer(id, when, interval, count))
      ensures erased == old(erased) && pass == old(pass)
    {
      var t := NewTimer(id, when, interval, count);
      assert Due(t, 0) == when;
      InsertKeepsOrder(timers, t);
      timers := Insert(timers, t);
    }

    method RemoveTimer(id: int)
      requires Valid()
      modifies this
      ensures Valid() && timers == RemoveId(old(timers), id) && erased == old(erased) && pass == old(pass)
    {
      RemoveKeepsOrder(timers, id);
      var i := 0;
      while i < |timers|
        invariant 0 <= i <= |timers| && timers == old(timers)
        invariant forall j :: 0 <= j < i ==> timers[j].id != id
      {
        if timers[i].id == id {
          RemoveFirstAt(timers, id, i);
          timers := timers[..i] + timers[i + 1..];
          return;
        }
        i := i + 1;
      }
      RemoveFirstAt(timers, id, i);
    }

    method CancelTimer(id: int, off: bool)
      requires Valid()
      modifies this
      ensures Valid() && timers == CancelId(old(timers), id, off) && erased == old(erased) && pass == old(pass)
    {
      CancelKeepsLaws(timers, id, off, pass);
      var i := 0;
      while i < |timers|
        invariant 0 <= i <= |timers| && timers == old(timers)
        invariant forall j :: 0 <= j < i ==> timers[j].id != id
      {
        if timers[i].id == id {
          CancelFirstAt(timers, id, i, off);
          timers := timers[i := timers[i].(canceled := off)];
          return;
        }
        i := i + 1;
      }
      CancelFirstAt(timers, id, i, off);
    }

    method DoTimer(now: int)
      requires Valid()
      modifies this
      ensures Valid() && pass == old(pass) + 1
      ensures timers == Pass(old(timers), now, old(pass)).kept
      ensures erased == old(erased) + Pass(old(timers), now, old(pass)).erased
    {
      PassIsLawful(timers, now, pass);
      PassKeepsKeyOrder(timers, now, pass);
      SpentLater(erased, pass);
      ghost var gone;
      timers, gone := RunDue(timers, now, pass);
      erased := erased + gone;
      pass := pass + 1;
    }
  }

  /** The loop of do_timer: an iterator over the set that erases in place. */
  method RunDue(timers: seq<Timer>, now: int, pass: nat) returns (ts: seq<Timer>, ghost gone: seq<Timer>)
    ensures ts == Pass(timers, now, pass).kept && gone == Pass(timers, now, pass).erased
  {
    ts := timers;
    gone := [];
    ghost var goal := Pass(timers, now, pass);
    ghost var front: seq<Timer>, rest := [], timers;
    var i := 0;
    while i < |ts| && ts[i].expiration <= now
      invariant 0 <= i == |front| && ts == front + rest
      invariant goal.kept == front + Pass(rest, now, pass).kept
      invariant goal.erased == gone + Pass(rest, now, pass).erased
      decreases |rest|
    {
      var t := ts[i].Run(now, pass);
      Slices(ts, front, rest, t);
      PassStep(front, gone, rest, now, pass);
      if t.repeat == 0 {
        gone := gone + [t];
        ts := ts[..i] + ts[i + 1..];
      } else {
        front := front + [t];
        ts := ts[i := t];
        i := i + 1;
      }
      rest := rest[1..];
    }
    assert |rest| > 0 ==> ts[i] == rest[0];
  }

  lemma Slices<T>(ts: seq<T>, front: seq<T>, rest: seq<T>, t: T)
    requires ts == front + rest && |rest| > 0
    ensures ts[|front|] == rest[0]
    ensures ts[..|front|] + ts[|front| + 1..] == front + rest[1..]
    ensures ts[|front| := t] == front + [t] + rest[1..]
  {
  }

  lemma PassStep(front: seq<Timer>, gone: seq<Timer>, rest: seq<Timer>, now: int, pass: nat)
    requires |rest| > 0 && rest[0].expiration <= now
    ensures var t, p, q := rest[0].Run(now, pass), Pass(rest, now, pass), Pass(rest[1..], now, pass);
            if t.repeat == 0 then front + p.kept == front + q.kept && gone + p.erased == gone + [t] + q.erased
            else front + p.kept == front + [t] + q.kept && gone + p.erased == gone + q.erased
  {
    var t, q := rest[0].Run(now, pass), Pass(rest[1..], now, pass);
    Associate(gone, [t], q.erased);
    Associate(front, [t], q.kept);
  }

  /** The loops that look for a timer stop at the first entry with its id, or at the end. */
  ghost predicate FirstAt(ts: seq<Timer>, id: int, i: nat) {
    i <= |ts| && (forall j :: 0 <= j < i ==> ts[j].id != id) && (i < |ts| ==> ts[i].id == id)
  }

  lemma {:induction false} RemoveFirstAt(ts: seq<Timer>, id: int, i: nat)
    requires FirstAt(ts, id, i)
    ensures RemoveId(ts, id) == if i < |ts| then ts[..i] + ts[i + 1..] else ts
  {
    if i > 0 {
      RemoveFirstAt(ts[1..], id, i - 1);
      ConsSlices(ts, i);
    } else if |ts| > 0 {
      assert ts[..0] + ts[1..] == ts[1..];
    }
  }

  lemma {:induction false} CancelFirstAt(ts: seq<Timer>, id: int, i: nat, off: bool)
    requires FirstAt(ts, id, i)
    ensures CancelId(ts, id, off) == if i < |ts| then ts[i := ts[i].(canceled := off)] else ts
  {
    if i > 0 {
      CancelFirstAt(ts[1..], id, i - 1, off);
      ConsSlices(ts, i);
      if i < |ts| { ConsUpdate(ts, i, ts[i].(canceled := off)); }
    } else if |ts| > 0 {
      ConsUpdate(ts, 0, ts[0].(canceled := off));
    }
  }

  lemma ConsSlices<T>(ts: seq<T>, i: nat)
    requires 0 < i <= |ts|
    ensures i < |ts| ==> [ts[0]] + (ts[1..][..i - 1] + ts[1..][i..]) == ts[..i] + ts[i + 1..]
    ensures [ts[0]] + ts[1..] == ts
  {
  }

  lemma ConsUpdate<T>(ts: seq<T>, i: nat, t: T)
    requires i < |ts|
    ensures i > 0 ==> [ts[0]] + ts[1..][i - 1 := t] == ts[i := t]
    ensures i == 0 ==> [t] + ts[1..] == ts[0 := t]
  {
  }

  /** A timer is put in one place, behind every timer that is not after it and before the first
      that is, and nothing else moves. */
  lemma {:induction false} InsertedAt(ts: seq<Timer>, t: Timer) returns (i: nat)
    ensures i <= |ts| && Insert(ts, t) == ts[..i] + [t] + ts[i..]
    ensures (forall j :: 0 <= j < i ==> !Before(t, ts[j])) && (i < |ts| ==> Before(t, ts[i]))
  {
    if |ts| == 0 || Before(t, ts[0]) {
      i := 0;
    } else {
      var k := InsertedAt(ts[1..], t);
      i := k + 1;
      ConsInsert(ts, k, t);
      assert forall j :: 1 <= j < i ==> ts[j] == ts[1..][j - 1];
    }
  }

  lemma ConsInsert<T>(ts: seq<T>, k: nat, t: T)
    requires k < |ts|
    ensures [ts[0]] + (ts[1..][..k] + [t] + ts[1..][k..]) == ts[..k + 1] + [t] + ts[k + 1..]
  {
    assert ts[1..][..k] == ts[1..k + 1] && ts[1..][k..] == ts[k + 1..];
    assert [ts[0]] + ts[1..k + 1] == ts[..k + 1];
  }

  lemma {:induction false} InsertKeepsOrder(ts: seq<Timer>, t: Timer)
    requires SortedByKey(ts)
    ensures SortedByKey(Insert(ts, t))
    ensures forall i :: 0 <= i < |Insert(ts, t)| ==> Insert(ts, t)[i] == t || Insert(ts, t)[i] in ts
  {
    if !(|ts| == 0 || Before(t, ts[0])) {
      InsertKeepsOrder(ts[1..], t);
    }
  }

  lemma {:induction false} RemoveKeepsOrder(ts: seq<Timer>, id: int)
    requires SortedByKey(ts)
    ensures SortedByKey(RemoveId(ts, id))
    ensures forall i :: 0 <= i < |RemoveId(ts, id)| ==> RemoveId(ts, id)[i] in ts
  {
    if |ts| > 0 && ts[0].id != id {
      RemoveKeepsOrder(ts[1..], id);
    }
  }

  lemma {:induction false} FirstExists(ts: seq<Timer>, id: int) returns (i: nat)
    ensures FirstAt(ts, id, i)
  {
    if |ts| == 0 || ts[0].id == id {
      i := 0;
    } else {
      var k := FirstExists(ts[1..], id);
      i := k + 1;
      assert forall j :: 1 <= j < |ts| ==> ts[j] == ts[1..][j - 1];
    }
  }

  lemma CancelKeepsLaws(ts: seq<Timer>, id: int, off: bool, pass: nat)
    requires SortedByKey(ts) && AllLawful(ts, pass)
    ensures SortedByKey(CancelId(ts, id, off)) && AllLawful(CancelId(ts, id, off), pass)
  {
    var i := FirstExists(ts, id);
    CancelFirstAt(ts, id, i, off);
    if i < |ts| {
      assert Lawful(ts[i], pass);
      CanceledIsLawful(ts[i], off, pass);
    }
  }

  lemma CanceledIsLawful(t: Timer, off: bool, pass: nat)
    requires Lawful(t, pass)
    ensures Lawful(t.(canceled := off), pass)
  {
    assert forall j: nat :: Due(t.(canceled := off), j) == Due(t, j);
  }

  ghost predicate NotBelow(ts: seq<Timer>, low: int) {
    forall i :: 0 <= i < |ts| ==> low <= ts[i].start
  }

  lemma SortedCons(t: Timer, ts: seq<Timer>)
    requires SortedByKey(ts) && NotBelow(ts, t.start)
    ensures SortedByKey([t] + ts)
  {
  }

  lemma NotBelowCons(t: Timer, ts: seq<Timer>, low: int)
    requires low <= t.start && NotBelow(ts, t.start)
    ensures NotBelow([t] + ts, low) && NotBelow(ts, low)
  {
  }

  lemma {:induction false} PassKeepsOrder(ts: seq<Timer>, now: int, pass: nat, low: int)
    requires SortedByKey(ts) && NotBelow(ts, low)
    ensures SortedByKey(Pass(ts, now, pass).kept) && NotBelow(Pass(ts, now, pass).kept, low)
  {
    if !(|ts| == 0 || ts[0].expiration > now) {
      PassKeepsOrder(ts[1..], now, pass, ts[0].start);
      var t, kept := ts[0].Run(now, pass), Pass(ts[1..], now, pass).kept;
      SortedCons(t, kept);
      NotBelowCons(t, kept, low);
    }
  }

  lemma PassKeepsKeyOrder(ts: seq<Timer>, now: int, pass: nat)
    requires SortedByKey(ts)
    ensures SortedByKey(Pass(ts, now, pass).kept)
  {
    PassKeepsOrder(ts, now, pass, if |ts| == 0 then 0 else ts[0].start);
  }
}
