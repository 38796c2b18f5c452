/** server/src/service/whisp_thread_pool.h and .cpp: a task queue shared by workers, with a
    destructor that drains it. Each critical section, and each run of a task, is one step; any
    interleaving of the steps is a run. */
module ThreadPools {
  import Common

  type Task = int

  datatype Worker = Idle | Busy(task: Task) | Exited

  datatype Pool = Pool(
    tasks: seq<Task>,           // the queue
    stop: bool,
    workers: seq<Worker>,
    accepted: seq<Task>,        // history: enqueue calls that did not throw
    taken: seq<Task>,           // tasks popped, in order
    finished: multiset<Task>    // tasks run to completion
  )

  datatype Step =
    | Enqueue(task: Task)
    | Take(w: nat)
    | Finish(w: nat)
    | Exit(w: nat)
    | Stop
    | Grow(n: nat)              // resize to more workers

  predicate Possible(s: Pool, e: Step) {
    match e
    case Take(w) => w < |s.workers| && s.workers[w] == Idle && |s.tasks| > 0
    case Finish(w) => w < |s.workers| && s.workers[w].Busy?
    case Exit(w) => w < |s.workers| && s.workers[w] == Idle && s.stop && |s.tasks| == 0
    case _ => true
  }

  function Idles(n: nat): (r: seq<Worker>)
    ensures |r| == n && forall i :: 0 <= i < n ==> r[i] == Idle
  {
    if n == 0 then [] else Idles(n - 1) + [Idle]
  }

  function Do(s: Pool, e: Step): Pool
    requires Possible(s, e)
  {
    match e
    case Enqueue(t) => if s.stop then s else s.(tasks := s.tasks + [t], accepted := s.accepted + [t])
    case Take(w) =>
      s.(tasks := s.tasks[1..], workers := s.workers[w := Busy(s.tasks[0])], taken := s.taken + [s.tasks[0]])
    case Finish(w) => s.(workers := s.workers[w := Idle], finished := s.finished + multiset{s.workers[w].task})
    case Exit(w) => s.(workers := s.workers[w := Exited])
    case Stop => s.(stop := true)
    case Grow(n) => s.(workers := s.workers + Idles(n))
  }

  function NewPool(n: nat): Pool {
    Pool([], false, Idles(n), [], [], multiset{})
  }

  // ----- counting workers --------------------------------------------------

  /** What the workers are running. */
  function InHand(ws: seq<Worker>): multiset<Task> {
    if ws == [] then multiset{} else Held(ws[0]) + InHand(ws[1..])
  }

  function Load(w: Worker): nat {
    match w case Idle => 1 case Busy(_) => 2 case Exited => 0
  }

  function TotalLoad(ws: seq<Worker>): nat {
    if ws == [] then 0 else Load(ws[0]) + TotalLoad(ws[1..])
  }

  function Held(w: Worker): multiset<Task> {
    if w.Busy? then multiset{w.task} else multiset{}
  }

  lemma UpdateTail(ws: seq<Worker>, i: nat, w: Worker)
    requires i < |ws|
    ensures ws[i := w][0] == if i == 0 then w else ws[0]
    ensures ws[i := w][1..] == if i == 0 then ws[1..] else ws[1..][i - 1 := w]
  {
  }

  lemma {:induction false} HandUpdate(ws: seq<Worker>, i: nat, w: Worker, t: Task)
    requires i < |ws|
    ensures InHand(ws[i := w])[t] + Held(ws[i])[t] == InHand(ws)[t] + Held(w)[t]
  {
    UpdateTail(ws, i, w);
    if i > 0 {
      HandUpdate(ws[1..], i - 1, w, t);
    }
  }

  lemma {:induction false} LoadUpdate(ws: seq<Worker>, i: nat, w: Worker)
    requires i < |ws|
    ensures TotalLoad(ws[i := w]) + Load(ws[i]) == TotalLoad(ws) + Load(w)
  {
    UpdateTail(ws, i, w);
    if i > 0 {
      LoadUpdate(ws[1..], i - 1, w);
    }
  }

  lemma TakeUp(ws: seq<Worker>, i: nat, t: Task)
    requires i < |ws| && ws[i] == Idle
    ensures InHand(ws[i := Busy(t)]) == InHand(ws) + multiset{t}
  {
    forall x: Task ensures InHand(ws[i := Busy(t)])[x] == (InHand(ws) + multiset{t})[x] {
      HandUpdate(ws, i, Busy(t), x);
    }
  }

  lemma PutDown(ws: seq<Worker>, i: nat)
    requires i < |ws| && ws[i].Busy?
    ensures InHand(ws) == multiset{ws[i].task} + InHand(ws[i := Idle])
  {
    forall x: Task ensures InHand(ws)[x] == (multiset{ws[i].task} + InHand(ws[i := Idle]))[x] {
      HandUpdate(ws, i, Idle, x);
    }
  }

  lemma Leave(ws: seq<Worker>, i: nat)
    requires i < |ws| && ws[i] == Idle
    ensures InHand(ws[i := Exited]) == InHand(ws)
  {
    forall x: Task ensures InHand(ws[i := Exited])[x] == InHand(ws)[x] {
      HandUpdate(ws, i, Exited, x);
    }
  }

  lemma {:induction false} IdleWorkersHoldNothing(ws: seq<Worker>, n: nat)
    ensures InHand(ws + Idles(n)) == InHand(ws)
    decreases |ws| + n
  {
    if ws != [] {
      assert (ws + Idles(n))[1..] == ws[1..] + Idles(n);
      IdleWorkersHoldNothing(ws[1..], n);
    } else if n > 0 {
      assert ws + Idles(n) == Idles(n) == [Idle] + Idles(n - 1);
      assert [] + Idles(n - 1) == Idles(n - 1) && Idles(n)[1..] == Idles(n - 1);
      IdleWorkersHoldNothing([], n - 1);
    } else {
      assert ws + Idles(n) == [];
    }
  }

  lemma {:induction false} NobodyBusy(ws: seq<Worker>)
    requires forall i :: 0 <= i < |ws| ==> !ws[i].Busy?
    ensures InHand(ws) == multiset{}
  {
    if ws != [] {
      NobodyBusy(ws[1..]);
    }
  }

  // ----- what every step keeps ---------------------------------------------

  /** Tasks leave the queue in the order in which they were accepted. */
  predicate Queued(s: Pool) {
    s.accepted == s.taken + s.tasks
  }

  /** Each task taken is in some worker's hand or finished, exactly once. */
  predicate Accounted(s: Pool) {
    multiset(s.taken) == s.finished + InHand(s.workers)
  }

  /** Workers leave only after stop, and only an empty queue. */
  ghost predicate LeftEmpty(s: Pool) {
    forall i :: 0 <= i < |s.workers| && s.workers[i] == Exited ==> s.stop && |s.tasks| == 0
  }

  /** Without a worker nothing is ever taken. */
  predicate Untouched(s: Pool) {
    |s.workers| == 0 ==> |s.taken| == 0
  }

  ghost predicate Inv(s: Pool) {
    Queued(s) && Accounted(s) && LeftEmpty(s) && Untouched(s)
  }

  lemma MoveOver(taken: seq<Task>, tasks: seq<Task>)
    requires |tasks| > 0
    ensures taken + tasks == taken + [tasks[0]] + tasks[1..]
  {
  }

  lemma Regroup(taken: seq<Task>, t: Task, finished: multiset<Task>, hand: multiset<Task>)
    requires multiset(taken) == finished + hand
    ensures multiset(taken + [t]) == finished + (hand + multiset{t})
  {
  }

  lemma MultisetAssociate(a: multiset<Task>, b: multiset<Task>, c: multiset<Task>)
    ensures a + b + c == a + (b + c)
  {
  }

  lemma StepKeepsQueued(s: Pool, e: Step)
    requires Queued(s) && Possible(s, e)
    ensures Queued(Do(s, e))
  {
    if e.Take? { MoveOver(s.taken, s.tasks); }
  }

  lemma StepKeepsAccounted(s: Pool, e: Step)
    requires Accounted(s) && Possible(s, e)
    ensures Accounted(Do(s, e))
  {
    match e {
      case Take(w) =>
        TakeUp(s.workers, w, s.tasks[0]);
        Regroup(s.taken, s.tasks[0], s.finished, InHand(s.workers));
      case Finish(w) =>
        PutDown(s.workers, w);
        MultisetAssociate(s.finished, multiset{s.workers[w].task}, InHand(s.workers[w := Idle]));
      case Exit(w) => Leave(s.workers, w);
      case Grow(n) => IdleWorkersHoldNothing(s.workers, n);
      case _ =>
    }
  }

  lemma StepKeepsLeftEmpty(s: Pool, e: Step)
    requires LeftEmpty(s) && Possible(s, e)
    ensures LeftEmpty(Do(s, e))
  {
  }

  lemma StepKeepsInv(s: Pool, e: Step)
    requires Inv(s) && Possible(s, e)
    ensures Inv(Do(s, e))
  {
    StepKeepsQueued(s, e);
    StepKeepsAccounted(s, e);
    StepKeepsLeftEmpty(s, e);
  }

  ghost predicate PossibleRun(s: Pool, es: seq<Step>)
    decreases |es|
  {
    es != [] ==> Possible(s, es[0]) && PossibleRun(Do(s, es[0]), es[1..])
  }

  ghost function Run(s: Pool, es: seq<Step>): Pool
    requires PossibleRun(s, es)
    decreases |es|
  {
    if es == [] then s else Run(Do(s, es[0]), es[1..])
  }

  lemma {:induction false} RunKeepsInv(s: Pool, es: seq<Step>)
    requires Inv(s) && PossibleRun(s, es)
    ensures Inv(Run(s, es))
    decreases |es|
  {
    if es != [] {
      StepKeepsInv(s, es[0]);
      RunKeepsInv(Do(s, es[0]), es[1..]);
    }
  }

  lemma NewPoolOk(n: nat)
    ensures Inv(NewPool(n))
  {
    IdleWorkersHoldNothing([], n);
    assert [] + Idles(n) == Idles(n);
  }

  // ----- the theorems ------------------------------------------------------

  /** The tasks of the calls made before stop. */
  function EnqueuedBeforeStop(es: seq<Step>): seq<Task> {
    if es == [] || es[0].Stop? then []
    else (if es[0].Enqueue? then [es[0].task] else []) + EnqueuedBeforeStop(es[1..])
  }

  function Grown(es: seq<Step>): nat {
    if es == [] then 0 else (if es[0].Grow? then es[0].n else 0) + Grown(es[1..])
  }

  function CountTakes(es: seq<Step>): nat {
    if es == [] then 0 else (if es[0].Take? then 1 else 0) + CountTakes(es[1..])
  }

  lemma {:induction false} RunRecords(s: Pool, es: seq<Step>)
    requires PossibleRun(s, es)
    ensures Run(s, es).accepted == s.accepted + (if s.stop then [] else EnqueuedBeforeStop(es))
    ensures Run(s, es).stop <==> s.stop || Stop in es
    ensures |Run(s, es).workers| == |s.workers| + Grown(es) && |Run(s, es).taken| == |s.taken| + CountTakes(es)
    decreases |es|
  {
    if es == [] {
      assert s.accepted + [] == s.accepted;
    } else {
      RunRecords(Do(s, es[0]), es[1..]);
      assert es == [es[0]] + es[1..];
      assert s.accepted + [] == s.accepted;
      Common.Associate(s.accepted, if es[0].Enqueue? then [es[0].task] else [], EnqueuedBeforeStop(es[1..]));
    }
  }

  /** Exactly the tasks enqueued before stop are accepted, in the order of the calls; as many have
      been taken as workers have taken steps to take one; and the pool has the workers it was given
      at first and by growing. */
  lemma AcceptedUntilStop(n: nat, es: seq<Step>)
    requires PossibleRun(NewPool(n), es)
    ensures var s := Run(NewPool(n), es);
            && s.accepted == EnqueuedBeforeStop(es) && (s.stop <==> Stop in es)
            && |s.workers| == n + Grown(es) && |s.taken| == CountTakes(es)
  {
    RunRecords(NewPool(n), es);
    assert [] + EnqueuedBeforeStop(es) == EnqueuedBeforeStop(es);
  }

  /** Under any interleaving, accepted tasks leave the queue in the order they were accepted, and
      each one taken is running or has run exactly once. */
  lemma FirstInFirstOut(n: nat, es: seq<Step>)
    requires PossibleRun(NewPool(n), es)
    ensures var s := Run(NewPool(n), es);
            s.accepted == s.taken + s.tasks && multiset(s.taken) == s.finished + InHand(s.workers)
  {
    NewPoolOk(n);
    RunKeepsInv(NewPool(n), es);
  }

  /** When every worker has exited, which is what the destructor waits for, every accepted task
      has run, if and only if there was a worker by then (from the start or by growing) or there
      was nothing to run. */
  lemma DestructorDrainsIff(n: nat, es: seq<Step>)
    requires PossibleRun(NewPool(n), es) && AllExited(Run(NewPool(n), es))
    ensures var s := Run(NewPool(n), es);
            && (s.finished == multiset(s.accepted) <==> |s.workers| >= 1 || s.accepted == [])
            && (|s.workers| >= 1 ==> s.stop && s.tasks == [])
  {
    NewPoolOk(n);
    RunKeepsInv(NewPool(n), es);
    AllExitedIff(Run(NewPool(n), es));
  }

  ghost predicate AllExited(s: Pool) {
    forall i :: 0 <= i < |s.workers| ==> s.workers[i] == Exited
  }

  lemma AllExitedIff(s: Pool)
    requires Inv(s) && AllExited(s)
    ensures s.finished == multiset(s.accepted) <==> |s.workers| >= 1 || s.accepted == []
    ensures |s.workers| >= 1 ==> s.stop && s.tasks == []
  {
    NobodyBusy(s.workers);
    if |s.workers| >= 1 {
      assert s.workers[0] == Exited;
      assert s.taken + [] == s.taken;
    } else {
      assert s.accepted == s.tasks;
      assert |multiset(s.accepted)| == |s.accepted|;
    }
  }

  /** Without a worker the destructor returns at once and accepted tasks are lost. */
  lemma NoWorkerLosesTasks(t: Task)
    ensures PossibleRun(NewPool(0), [Enqueue(t), Stop])
    ensures var s := Run(NewPool(0), [Enqueue(t), Stop]); s.workers == [] && s.tasks == [t] && s.finished == multiset{}
  {
    var s1 := Do(NewPool(0), Enqueue(t));
    assert [Enqueue(t), Stop][1..] == [Stop] && [Stop][1..] == [];
    assert PossibleRun(s1, [Stop]) && Run(s1, [Stop]) == Run(Do(s1, Stop), []);
  }

  predicate WorkerStep(e: Step) {
    e.Take? || e.Finish? || e.Exit?
  }

  function Remaining(s: Pool): nat {
    3 * |s.tasks| + TotalLoad(s.workers)
  }

  /** After stop, every step of a worker brings the end closer, and nothing else can delay it. */
  lemma StepsRunOut(s: Pool, e: Step)
    requires s.stop && Possible(s, e) && !e.Grow?
    ensures Do(s, e).stop
    ensures WorkerStep(e) ==> Remaining(Do(s, e)) < Remaining(s)
    ensures !WorkerStep(e) ==> Do(s, e) == s
  {
    match e {
      case Take(w) => LoadUpdate(s.workers, w, Busy(s.tasks[0]));
      case Finish(w) => LoadUpdate(s.workers, w, Idle);
      case Exit(w) => LoadUpdate(s.workers, w, Exited);
      case _ =>
    }
  }

  function CountWorkerSteps(es: seq<Step>): nat {
    if es == [] then 0 else (if WorkerStep(es[0]) then 1 else 0) + CountWorkerSteps(es[1..])
  }

  /** So after stop the workers take a bounded number of steps, however they interleave. */
  lemma {:induction false} DestructorTerminates(s: Pool, es: seq<Step>)
    requires s.stop && PossibleRun(s, es)
    requires forall i :: 0 <= i < |es| ==> !es[i].Grow?
    ensures CountWorkerSteps(es) <= Remaining(s)
    decreases |es|
  {
    if es != [] {
      StepsRunOut(s, es[0]);
      DestructorTerminates(Do(s, es[0]), es[1..]);
    }
  }

  /** And they never get stuck: after stop, a worker that has not exited can always take, finish
      or exit, so when no worker can move, all have exited, and everything accepted has run if and
      only if there is a worker or there was nothing to run. */
  lemma StuckMeansDrainedIff(n: nat, es: seq<Step>)
    requires PossibleRun(NewPool(n), es)
    requires var s := Run(NewPool(n), es); s.stop && forall e :: WorkerStep(e) ==> !Possible(s, e)
    ensures var s := Run(NewPool(n), es);
            && AllExited(s)
            && (s.finished == multiset(s.accepted) <==> |s.workers| >= 1 || s.accepted == [])
  {
    var s := Run(NewPool(n), es);
    forall i | 0 <= i < |s.workers| ensures s.workers[i] == Exited {
      assert !Possible(s, Take(i)) && !Possible(s, Finish(i)) && !Possible(s, Exit(i));
    }
    DestructorDrainsIff(n, es);
  }
}
