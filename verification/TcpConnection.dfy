/** server/src/network/tcp_connect.cpp: the life of one TCP connection.

    `Conn` is the value of a connection: its phase, its interest mask, the unsent output, and
    the history a peer or the server can observe. Each method of the original is one atomic
    step; results of system calls are inputs of the step. The theorems quantify over every
    sequence of steps. `TcpConnection` is the class over a real `ByteBuffer`, `Channel` and
    `EpollPoller`, each method proved to act as the step of the same name. */
module Connections {
  import opened Common
  import opened Bytes
  import opened ByteBuffers
  import opened Polling

  datatype Phase = Connecting | Connected | Disconnecting | Disconnected
  {
    function Rank(): nat {
      match this
      case Connecting => 0
      case Connected => 1
      case Disconnecting => 2
      case Disconnected => 3
    }
  }

  /** The outcome of one write(2): a count, EWOULDBLOCK, EPIPE/ECONNRESET, or another errno. */
  datatype WriteResult = Wrote(n: nat) | WouldBlock | Reset | Failed

  /** Functors this connection has waiting in its event loop. */
  datatype Task = SendTask(msg: seq<byte>) | ShutdownTask | ForceCloseTask

  datatype Conn = Conn(
    phase: Phase,
    reading: bool,
    writing: bool,
    out: seq<byte>,       // content of the output buffer
    tasks: seq<Task>,     // queued functors, oldest first
    wire: seq<byte>,      // every byte the kernel has taken
    halfClosed: bool,     // shutdown(SHUT_WR) has been issued
    ups: nat,             // connection callbacks that reported "up"
    downs: nat,           // connection callbacks that reported "down"
    closes: nat           // close callbacks
  )
  {
    /** No output is pending, so a send tries the socket first. */
    predicate Direct() {
      !writing && out == []
    }

    /** What the kernel may answer to a write of len bytes on this socket: at most len bytes,
        and after a half-close nothing but a reset. */
    predicate CanAnswer(len: nat, r: WriteResult) {
      && (r.Wrote? ==> r.n <= len)
      && (halfClosed && len > 0 ==> r.Reset?)
    }

    /** Is msg taken over by _send_in_loop (written or buffered), or dropped? */
    predicate Accepts(r: WriteResult) {
      phase != Disconnected && !(Direct() && r.Reset?)
    }

    function Buffered(data: seq<byte>): Conn {
      if data == [] then this else this.(out := out + data, writing := true)
    }

    function SendInLoop(msg: seq<byte>, r: WriteResult): Conn
      requires CanAnswer(|msg|, r)
    {
      if phase == Disconnected then this
      else if Direct() then
        match r
        case Wrote(n) => this.(wire := wire + msg[..n]).Buffered(msg[n..])
        case Reset => this
        case _ => Buffered(msg)
      else Buffered(msg)
    }

    function ShutdownInLoop(): Conn {
      if writing then this else this.(halfClosed := true)
    }

    function HandleClose(): Conn {
      if phase == Disconnected then this
      else this.(phase := Disconnected, reading := false, writing := false, downs := downs + 1, closes := closes + 1)
    }

    function HandleWrite(r: WriteResult): Conn
      requires CanAnswer(|out|, r)
    {
      if !writing then this
      else if r.Wrote? && r.n > 0 then
        var s := this.(wire := wire + out[..r.n], out := out[r.n..]);
        if s.out != [] then s
        else
          var t := s.(writing := false);
          if phase == Disconnecting then t.ShutdownInLoop() else t
      else HandleClose()
    }

    function Queued(t: Task): Conn {
      this.(tasks := tasks + [t])
    }

    function ForceClose(): Conn {
      if phase == Connected || phase == Disconnecting then this.(phase := Disconnecting).Queued(ForceCloseTask) else this
    }

    function ForceCloseInLoop(): Conn {
      if phase == Connected || phase == Disconnecting then HandleClose() else this
    }

    function Shutdown(inLoop: bool): Conn {
      if phase != Connected then this
      else if inLoop then this.(phase := Disconnecting).ShutdownInLoop()
      else this.(phase := Disconnecting).Queued(ShutdownTask)
    }

    function Establish(ok: bool): Conn {
      if phase != Connecting then this
      else if ok then this.(phase := Connected, reading := true, ups := ups + 1)
      else this.(phase := Connected, reading := true).HandleClose()
    }

    /** conn_destroyed, apart from the channel's removal from the poller. */
    function Destroy(): Conn {
      if phase == Connected then this.(phase := Disconnected, reading := false, writing := false, downs := downs + 1)
      else this
    }

    /** Holds in every reachable state. */
    predicate Inv() {
      && (phase != Disconnected ==> (writing <==> out != []))
      && (phase == Disconnected ==> !writing)
      && (halfClosed && phase != Disconnected ==> out == [] && phase == Disconnecting)
      && (phase == Disconnecting ==> halfClosed || out != [] || ShutdownTask in tasks || ForceCloseTask in tasks)
      && (ShutdownTask in tasks || ForceCloseTask in tasks ==> phase == Disconnecting || phase == Disconnected)
      && (phase == Connecting ==> out == [] && tasks == [])
      && (reading <==> phase == Connected || phase == Disconnecting)
      && downs == closes == (if phase == Disconnected then 1 else 0)
      && ups <= 1 && (phase == Connecting ==> ups == 0) && (phase == Connected || phase == Disconnecting ==> ups == 1)
    }
  }

  const FRESH := Conn(Connecting, false, false, [], [], [], false, 0, 0, 0)

  datatype Event =
    | Establish(ok: bool)
    | Send(msg: seq<byte>, inLoop: bool, r: WriteResult)
    | Shutdown(inLoop: bool)
    | ForceClose
    | RunTask(r: WriteResult)
    | Readable(n: int)
    | Writable(r: WriteResult)
    | Hangup
    | SocketError

  /** Channel events reach a connection only once its channel has been enabled; system call
      results obey the kernel's rules. */
  predicate Possible(s: Conn, e: Event) {
    match e
    case Send(msg, inLoop, r) => s.CanAnswer(|msg|, r)
    case RunTask(r) => s.tasks != [] && (s.tasks[0].SendTask? ==> s.CanAnswer(|s.tasks[0].msg|, r))
    case Writable(r) => s.phase != Connecting && s.CanAnswer(|s.out|, r)
    case Readable(_) => s.phase != Connecting
    case Hangup => s.phase != Connecting
    case SocketError => s.phase != Connecting
    case _ => true
  }

  function Step(s: Conn, e: Event): Conn
    requires Possible(s, e)
  {
    match e
    case Establish(ok) => s.Establish(ok)
    case Send(msg, inLoop, r) =>
      if s.phase != Connected then s else if inLoop then s.SendInLoop(msg, r) else s.Queued(SendTask(msg))
    case Shutdown(inLoop) => s.Shutdown(inLoop)
    case ForceClose => s.ForceClose()
    case RunTask(r) =>
      var rest := s.(tasks := s.tasks[1..]);
      (match s.tasks[0]
       case SendTask(msg) => rest.SendInLoop(msg, r)
       case ShutdownTask => rest.ShutdownInLoop()
       case ForceCloseTask => rest.ForceCloseInLoop())
    case Readable(n) => if n > 0 then s else s.HandleClose()
    case Writable(r) => s.HandleWrite(r)
    case Hangup => s.HandleClose()
    case SocketError => s.HandleClose()
  }

  /** The messages the step takes over: none or one, always whole. */
  function Taken(s: Conn, e: Event): seq<seq<byte>>
    requires Possible(s, e)
  {
    match e
    case Send(msg, inLoop, r) => if s.phase == Connected && inLoop && s.Accepts(r) then [msg] else []
    case RunTask(r) => if s.tasks[0].SendTask? && s.Accepts(r) then [s.tasks[0].msg] else []
    case _ => []
  }

  ghost predicate PossibleRun(s: Conn, es: seq<Event>)
    decreases |es|
  {
    es != [] ==> Possible(s, es[0]) && PossibleRun(Step(s, es[0]), es[1..])
  }

  ghost function Run(s: Conn, es: seq<Event>): Conn
    requires PossibleRun(s, es)
    decreases |es|
  {
    if es == [] then s else Run(Step(s, es[0]), es[1..])
  }

  ghost function TakenBy(s: Conn, es: seq<Event>): seq<seq<byte>>
    requires PossibleRun(s, es)
    decreases |es|
  {
    if es == [] then [] else Taken(s, es[0]) + TakenBy(Step(s, es[0]), es[1..])
  }

  function Flatten(ms: seq<seq<byte>>): seq<byte> {
    if ms == [] then [] else ms[0] + Flatten(ms[1..])
  }

  lemma {:induction false} FlattenAppend(a: seq<seq<byte>>, b: seq<seq<byte>>)
    ensures Flatten(a + b) == Flatten(a) + Flatten(b)
  {
    if a == [] {
      assert a + b == b;
    } else {
      assert (a + b)[1..] == a[1..] + b;
      FlattenAppend(a[1..], b);
    }
  }

  // ----- one step ----------------------------------------------------------

  lemma SendKeepsInv(s: Conn, msg: seq<byte>, r: WriteResult)
    requires s.Inv() && s.CanAnswer(|msg|, r) && s.phase != Connecting
    ensures s.SendInLoop(msg, r).Inv()
  {
  }

  lemma RunTaskKeepsInv(s: Conn, r: WriteResult)
    requires s.Inv() && Possible(s, RunTask(r))
    ensures Step(s, RunTask(r)).Inv()
  {
    var rest := s.(tasks := s.tasks[1..]);
    assert s.tasks == [s.tasks[0]] + rest.tasks;
    match s.tasks[0] {
      case SendTask(msg) => SendKeepsInv(rest, msg, r);
      case ShutdownTask =>
      case ForceCloseTask =>
    }
  }

  lemma StepKeepsInv(s: Conn, e: Event)
    requires s.Inv() && Possible(s, e)
    ensures Step(s, e).Inv()
  {
    match e {
      case Send(msg, inLoop, r) => if s.phase == Connected { SendKeepsInv(s, msg, r); }
      case RunTask(r) => RunTaskKeepsInv(s, r);
      case _ =>
    }
  }

  /** Wire plus buffer grows by exactly the message taken over, at its end. */
  lemma SendConserves(s: Conn, msg: seq<byte>, r: WriteResult)
    requires s.CanAnswer(|msg|, r)
    ensures var t := s.SendInLoop(msg, r);
            t.wire + t.out == s.wire + s.out + (if s.Accepts(r) then msg else [])
  {
    if s.phase != Disconnected && s.Direct() && r.Wrote? {
      assert msg == msg[..r.n] + msg[r.n..];
    }
  }

  lemma WritableConserves(s: Conn, r: WriteResult)
    requires s.CanAnswer(|s.out|, r)
    ensures s.HandleWrite(r).wire + s.HandleWrite(r).out == s.wire + s.out
  {
    if r.Wrote? {
      assert s.out == s.out[..r.n] + s.out[r.n..];
    }
  }

  lemma FlattenOne(msg: seq<byte>)
    ensures Flatten([msg]) == msg && Flatten([]) == []
  {
    assert Flatten([msg]) == msg + Flatten([]);
  }

  lemma StepConserves(s: Conn, e: Event)
    requires Possible(s, e)
    ensures Step(s, e).wire + Step(s, e).out == s.wire + s.out + Flatten(Taken(s, e))
  {
    match e {
      case Send(msg, inLoop, r) =>
        SendConserves(s, msg, r);
        FlattenOne(msg);
      case RunTask(r) =>
        if s.tasks[0].SendTask? {
          SendConserves(s.(tasks := s.tasks[1..]), s.tasks[0].msg, r);
          FlattenOne(s.tasks[0].msg);
        }
      case Writable(r) =>
        WritableConserves(s, r);
      case _ =>
    }
  }

  // ----- every run ---------------------------------------------------------

  lemma {:induction false} RunKeepsInv(s: Conn, es: seq<Event>)
    requires s.Inv() && PossibleRun(s, es)
    ensures Run(s, es).Inv()
    decreases |es|
  {
    if es != [] {
      StepKeepsInv(s, es[0]);
      RunKeepsInv(Step(s, es[0]), es[1..]);
    }
  }

  lemma {:induction false} RunConserves(s: Conn, es: seq<Event>)
    requires s.Inv() && PossibleRun(s, es)
    ensures var t := Run(s, es); t.wire + t.out == s.wire + s.out + Flatten(TakenBy(s, es))
    decreases |es|
  {
    if es != [] {
      var t := Step(s, es[0]);
      StepKeepsInv(s, es[0]);
      StepConserves(s, es[0]);
      RunConserves(t, es[1..]);
      FlattenAppend(Taken(s, es[0]), TakenBy(t, es[1..]));
    }
  }

  // ----- from send() to the stream -----------------------------------------

  function Message(t: Task): seq<seq<byte>> {
    if t.SendTask? then [t.msg] else []
  }

  /** Messages in queued functors, oldest first. */
  function QueuedSends(tasks: seq<Task>): seq<seq<byte>> {
    if tasks == [] then [] else Message(tasks[0]) + QueuedSends(tasks[1..])
  }

  /** What send() is given, on another thread, while the connection is connected. */
  function OffLoop(s: Conn, e: Event): seq<seq<byte>> {
    if e.Send? && !e.inLoop && s.phase == Connected then [e.msg] else []
  }

  /** A call of _send_in_loop: directly from send() or from a queued functor. */
  datatype Offer = Offer(msg: seq<byte>, queued: bool, dropped: bool)

  /** A message is dropped exactly when the connection is closed, or when it is the first to be
      written and the peer has reset the connection. */
  predicate Refused(s: Conn, r: WriteResult) {
    s.phase == Disconnected || (s.out == [] && r.Reset?)
  }

  function Offered(s: Conn, e: Event): seq<Offer>
    requires Possible(s, e)
  {
    match e
    case Send(msg, inLoop, r) => if s.phase == Connected && inLoop then [Offer(msg, false, Refused(s, r))] else []
    case RunTask(r) => if s.tasks[0].SendTask? then [Offer(s.tasks[0].msg, true, Refused(s, r))] else []
    case _ => []
  }

  ghost function OffLoopBy(s: Conn, es: seq<Event>): seq<seq<byte>>
    requires PossibleRun(s, es)
    decreases |es|
  {
    if es == [] then [] else OffLoop(s, es[0]) + OffLoopBy(Step(s, es[0]), es[1..])
  }

  ghost function OffersBy(s: Conn, es: seq<Event>): seq<Offer>
    requires PossibleRun(s, es)
    decreases |es|
  {
    if es == [] then [] else Offered(s, es[0]) + OffersBy(Step(s, es[0]), es[1..])
  }

  /** The messages that came from queued functors. */
  function Ran(os: seq<Offer>): seq<seq<byte>> {
    if os == [] then [] else (if os[0].queued then [os[0].msg] else []) + Ran(os[1..])
  }

  /** The messages that were not dropped. */
  function Kept(os: seq<Offer>): seq<seq<byte>> {
    if os == [] then [] else (if os[0].dropped then [] else [os[0].msg]) + Kept(os[1..])
  }

  lemma {:induction false} RanConcat(a: seq<Offer>, b: seq<Offer>)
    ensures Ran(a + b) == Ran(a) + Ran(b)
  {
    if a == [] {
      assert a + b == b;
    } else {
      assert (a + b)[1..] == a[1..] + b;
      RanConcat(a[1..], b);
    }
  }

  lemma {:induction false} KeptConcat(a: seq<Offer>, b: seq<Offer>)
    ensures Kept(a + b) == Kept(a) + Kept(b)
  {
    if a == [] {
      assert a + b == b;
    } else {
      assert (a + b)[1..] == a[1..] + b;
      KeptConcat(a[1..], b);
    }
  }

  lemma {:induction false} QueuedSnoc(tasks: seq<Task>, t: Task)
    ensures QueuedSends(tasks + [t]) == QueuedSends(tasks) + Message(t)
  {
    if tasks == [] {
      assert tasks + [t] == [t] && [t][1..] == [];
    } else {
      var rest := tasks[1..];
      assert (tasks + [t])[1..] == rest + [t];
      QueuedSnoc(rest, t);
      Associate(Message(tasks[0]), QueuedSends(rest), Message(t));
    }
  }

  lemma OneOffer(o: Offer)
    ensures Ran([o]) == (if o.queued then [o.msg] else []) && Kept([o]) == (if o.dropped then [] else [o.msg])
  {
    assert [o][1..] == [];
  }

  /** What a step does to the functors. */
  function TasksAfter(s: Conn, e: Event): seq<Task>
    requires Possible(s, e)
  {
    match e
    case Send(msg, inLoop, _) => if s.phase == Connected && !inLoop then s.tasks + [SendTask(msg)] else s.tasks
    case Shutdown(inLoop) => if s.phase == Connected && !inLoop then s.tasks + [ShutdownTask] else s.tasks
    case ForceClose => if s.phase == Connected || s.phase == Disconnecting then s.tasks + [ForceCloseTask] else s.tasks
    case RunTask(_) => s.tasks[1..]
    case _ => s.tasks
  }

  lemma StepTasks(s: Conn, e: Event)
    requires Possible(s, e)
    ensures Step(s, e).tasks == TasksAfter(s, e)
  {
  }

  /** One step moves at most one message, to the back of the queue or off its front. */
  lemma StepQueues(s: Conn, e: Event)
    requires Possible(s, e)
    ensures QueuedSends(s.tasks) + OffLoop(s, e) == Ran(Offered(s, e)) + QueuedSends(TasksAfter(s, e))
  {
    var q := QueuedSends(s.tasks);
    assert q + [] == q == [] + q;
    match e {
      case Send(msg, inLoop, r) =>
        QueuedSnoc(s.tasks, SendTask(msg));
        OneOffer(Offer(msg, false, Refused(s, r)));
      case Shutdown(_) => QueuedSnoc(s.tasks, ShutdownTask);
      case ForceClose => QueuedSnoc(s.tasks, ForceCloseTask);
      case RunTask(r) => RunTaskUnqueues(s, r);
      case _ =>
    }
  }

  lemma RunTaskUnqueues(s: Conn, r: WriteResult)
    requires Possible(s, RunTask(r))
    ensures QueuedSends(s.tasks) == Ran(Offered(s, RunTask(r))) + QueuedSends(s.tasks[1..])
  {
    if s.tasks[0].SendTask? {
      OneOffer(Offer(s.tasks[0].msg, true, Refused(s, r)));
    }
  }

  lemma StepKeepsOffers(s: Conn, e: Event)
    requires s.Inv() && Possible(s, e)
    ensures Kept(Offered(s, e)) == Taken(s, e)
  {
    match e {
      case Send(msg, inLoop, r) => OneOffer(Offer(msg, false, Refused(s, r)));
      case RunTask(r) => if s.tasks[0].SendTask? { OneOffer(Offer(s.tasks[0].msg, true, Refused(s, r))); }
      case _ =>
    }
  }

  lemma Rearrange<T>(q: seq<T>, o: seq<T>, os: seq<T>, r: seq<T>, rs: seq<T>, q1: seq<T>, q2: seq<T>)
    requires q + o == r + q1 && q1 + os == rs + q2
    ensures q + (o + os) == r + rs + q2
  {
    Associate(q, o, os);
    Associate(r, q1, os);
    Associate(r, rs, q2);
  }

  /** Every message given to send() on another thread while connected is handed to _send_in_loop,
      once and in order, or still waits in a functor. */
  lemma {:induction false} RunQueues(s: Conn, es: seq<Event>)
    requires PossibleRun(s, es)
    ensures QueuedSends(s.tasks) + OffLoopBy(s, es) == Ran(OffersBy(s, es)) + QueuedSends(Run(s, es).tasks)
    decreases |es|
  {
    if es != [] {
      var e, t, rest := es[0], Step(s, es[0]), es[1..];
      StepTasks(s, e);
      StepQueues(s, e);
      RunQueues(t, rest);
      RanConcat(Offered(s, e), OffersBy(t, rest));
      Rearrange(QueuedSends(s.tasks), OffLoop(s, e), OffLoopBy(t, rest), Ran(Offered(s, e)), Ran(OffersBy(t, rest)),
                QueuedSends(t.tasks), QueuedSends(Run(t, rest).tasks));
    }
  }

  lemma {:induction false} RunKeepsOffers(s: Conn, es: seq<Event>)
    requires s.Inv() && PossibleRun(s, es)
    ensures Kept(OffersBy(s, es)) == TakenBy(s, es)
    decreases |es|
  {
    if es != [] {
      var t := Step(s, es[0]);
      StepKeepsInv(s, es[0]);
      StepKeepsOffers(s, es[0]);
      RunKeepsOffers(t, es[1..]);
      KeptConcat(Offered(s, es[0]), OffersBy(t, es[1..]));
    }
  }

  /** From send() to the socket, in every run: what other threads sent while connected (behind
      what functors already held) is what functors have handed over, in order, followed by what
      they still hold; and socket and output buffer grow by what was handed over, by functors or
      by send() itself, in that order, but for the messages refused. */
  lemma SendsReachTheStream(s: Conn, es: seq<Event>)
    requires s.Inv() && PossibleRun(s, es)
    ensures var t, os := Run(s, es), OffersBy(s, es);
            && QueuedSends(s.tasks) + OffLoopBy(s, es) == Ran(os) + QueuedSends(t.tasks)
            && t.wire + t.out == s.wire + s.out + Flatten(Kept(os))
  {
    RunQueues(s, es);
    RunKeepsOffers(s, es);
    RunConserves(s, es);
  }

  /** In every run, with any partial writes, the bytes on the socket followed by the output buffer
      are the messages taken over, in order, no byte lost, repeated or reordered: those that were
      handed over and not refused. Whatever another thread sent while connected has been handed
      over, in order, or waits in a functor. */
  lemma StreamConserved(es: seq<Event>)
    requires PossibleRun(FRESH, es)
    ensures Run(FRESH, es).wire + Run(FRESH, es).out == Flatten(TakenBy(FRESH, es))
    ensures TakenBy(FRESH, es) == Kept(OffersBy(FRESH, es))
    ensures OffLoopBy(FRESH, es) == Ran(OffersBy(FRESH, es)) + QueuedSends(Run(FRESH, es).tasks)
  {
    SendsReachTheStream(FRESH, es);
    RunKeepsOffers(FRESH, es);
    StartEmpty(Flatten(TakenBy(FRESH, es)), OffLoopBy(FRESH, es));
  }

  lemma StartEmpty(bytes: seq<byte>, msgs: seq<seq<byte>>)
    ensures FRESH.wire + FRESH.out + bytes == bytes && QueuedSends(FRESH.tasks) + msgs == msgs
  {
  }

  /** A message is taken over whole, written or buffered behind everything before it, if and only
      if it is not refused; a refused one leaves no trace. After a half-close every message is
      refused. */
  lemma TakenWholeIff(s: Conn, msg: seq<byte>, r: WriteResult)
    requires s.Inv() && s.CanAnswer(|msg|, r) && msg != []
    ensures var t := s.SendInLoop(msg, r);
            && (t.wire + t.out == s.wire + s.out + msg <==> !Refused(s, r))
            && (t.wire + t.out == s.wire + s.out <==> Refused(s, r))
            && t.tasks == s.tasks && t.phase == s.phase
    ensures s.halfClosed ==> Refused(s, r)
  {
    SendConserves(s, msg, r);
    assert |s.wire + s.out + msg| == |s.wire + s.out| + |msg|;
  }

  /** In every reachable state the close callback and the "down" notification have each fired
      once if the connection is disconnected and never otherwise; write interest is on exactly
      while output is pending; and a graceful shutdown is never forgotten: it has been carried
      out, or output is still draining, or the functor that does it is queued. */
  lemma ReachableStates(es: seq<Event>)
    requires PossibleRun(FRESH, es)
    ensures var s := Run(FRESH, es);
            && s.downs == s.closes == (if s.phase == Disconnected then 1 else 0) && s.ups <= 1
            && (s.phase != Disconnected ==> (s.writing <==> s.out != []))
            && (s.phase == Disconnecting ==>
                  s.halfClosed || s.writing || ShutdownTask in s.tasks || ForceCloseTask in s.tasks)
  {
    RunKeepsInv(FRESH, es);
  }

  lemma StepMovesForward(s: Conn, e: Event)
    requires s.Inv() && Possible(s, e)
    ensures s.phase.Rank() <= Step(s, e).phase.Rank() && s.wire <= Step(s, e).wire
    ensures s.halfClosed ==> Step(s, e).halfClosed && Step(s, e).wire == s.wire
  {
  }

  /** The phase only moves forward, and nothing already on the wire is ever taken back. */
  lemma {:induction false} RunsMoveForward(s: Conn, es: seq<Event>)
    requires s.Inv() && PossibleRun(s, es)
    ensures s.phase.Rank() <= Run(s, es).phase.Rank() && s.wire <= Run(s, es).wire
    ensures s.halfClosed ==> Run(s, es).halfClosed && Run(s, es).wire == s.wire
    decreases |es|
  {
    if es != [] {
      var t := Step(s, es[0]);
      StepKeepsInv(s, es[0]);
      StepMovesForward(s, es[0]);
      RunsMoveForward(t, es[1..]);
    }
  }

  /** A half-close comes after the last byte: at that moment every byte of every message taken
      over since the connection was made is on the wire, if and only if the connection was still
      open or had nothing left to send. And nothing that send() was given is left behind, neither
      in the output buffer nor in a functor, if and only if, besides, no functor holds a message:
      one that does is not waited for. */
  lemma HalfCloseAfterLastByteIff(es: seq<Event>, e: Event)
    requires PossibleRun(FRESH, es) && Possible(Run(FRESH, es), e)
    requires !Run(FRESH, es).halfClosed && Step(Run(FRESH, es), e).halfClosed
    ensures Step(Run(FRESH, es), e).wire == Flatten(TakenBy(FRESH, es)) <==>
              Run(FRESH, es).phase != Disconnected || Run(FRESH, es).out == []
    ensures Step(Run(FRESH, es), e).wire == Flatten(Kept(OffersBy(FRESH, es)))
            && OffLoopBy(FRESH, es) == Ran(OffersBy(FRESH, es)) <==>
              && (Run(FRESH, es).phase != Disconnected || Run(FRESH, es).out == [])
              && QueuedSends(Run(FRESH, es).tasks) == []
  {
    RunKeepsInv(FRESH, es);
    StreamConserved(es);
    HalfCloseStep(Run(FRESH, es), e);
    SameAsFront(OffLoopBy(FRESH, es), Ran(OffersBy(FRESH, es)), QueuedSends(Run(FRESH, es).tasks));
  }

  lemma SameAsFront<T>(all: seq<T>, front: seq<T>, back: seq<T>)
    requires all == front + back
    ensures all == front <==> back == []
  {
    assert |all| == |front| + |back|;
  }

  lemma HalfCloseStep(s: Conn, e: Event)
    requires s.Inv() && Possible(s, e)
    requires !s.halfClosed && Step(s, e).halfClosed
    ensures Step(s, e).wire == s.wire + s.out <==> s.phase != Disconnected || s.out == []
  {
    if e.Writable? {
      WritableConserves(s, e.r);
    }
    assert Step(s, e).wire == s.wire ==> |s.wire + s.out| == |s.wire| + |s.out|;
  }

  lemma RunCons(s: Conn, e: Event, t: Conn, es: seq<Event>, all: seq<Event>)
    requires all == [e] + es && Possible(s, e) && Step(s, e) == t && PossibleRun(t, es)
    ensures PossibleRun(s, all) && Run(s, all) == Run(t, es)
  {
    assert all[1..] == es;
  }

  /** The other cases do occur: a shutdown functor still queued when the peer hangs up half-closes
      a socket whose output was never sent. */
  lemma HalfCloseMayFollowHangup()
    ensures var es := [Establish(true), Send([7], true, WouldBlock), Shutdown(false), Hangup, RunTask(WouldBlock)];
            PossibleRun(FRESH, es) && Run(FRESH, es).halfClosed && Run(FRESH, es).out == [7]
  {
    var e0, e1, e2, e3, e4 := Event.Establish(true), Send([7], true, WouldBlock), Event.Shutdown(false), Hangup, RunTask(WouldBlock);
    var s1 := Step(FRESH, e0);
    var s2 := Step(s1, e1);
    var s3 := Step(s2, e2);
    var s4 := Step(s3, e3);
    RunCons(s4, e4, Step(s4, e4), [], [e4]);
    RunCons(s3, e3, s4, [e4], [e3, e4]);
    RunCons(s2, e2, s3, [e3, e4], [e2, e3, e4]);
    RunCons(s1, e1, s2, [e2, e3, e4], [e1, e2, e3, e4]);
    RunCons(FRESH, e0, s1, [e1, e2, e3, e4], [e0, e1, e2, e3, e4]);
  }

  /** And a message that another thread sent before it shut the connection down is overtaken: the
      last byte of older output goes out first, the half-close follows it, and the message is then
      refused whatever its functor meets. */
  lemma HalfCloseMayOvertakeSend(a: byte, msg: seq<byte>, r: WriteResult, later: WriteResult)
    requires msg != [] && (r.Wrote? ==> r.n <= |msg|)
    ensures var es := [Establish(true), Send([a], true, WouldBlock), Send(msg, false, r), Shutdown(false), Writable(Wrote(1))];
            && PossibleRun(FRESH, es)
            && var s := Run(FRESH, es);
               && s.halfClosed && s.phase == Disconnecting && s.wire == [a] && QueuedSends(s.tasks) == [msg]
               && (Possible(s, RunTask(later)) ==> Refused(s, later) && Step(s, RunTask(later)).wire == [a])
  {
    var e0, e1, e2 := Event.Establish(true), Send([a], true, WouldBlock), Send(msg, false, r);
    var e3, e4 := Event.Shutdown(false), Writable(Wrote(1));
    var s2 := FRESH.(phase := Connected, reading := true, ups := 1, out := [a], writing := true);
    var s4 := s2.(phase := Disconnecting, tasks := [SendTask(msg), ShutdownTask]);
    var s5 := s4.(wire := [a], out := [], writing := false, halfClosed := true);
    RunCons(s4, e4, s5, [], [e4]);
    SendThenShutdown(s2, s4, msg, r, [e4]);
    assert [e2, e3, e4] == [e2, e3] + [e4];
    RunCons(Step(FRESH, e0), e1, s2, [e2, e3, e4], [e1, e2, e3, e4]);
    RunCons(FRESH, e0, Step(FRESH, e0), [e1, e2, e3, e4], [e0, e1, e2, e3, e4]);
    Overtaken(s5, msg, later);
  }

  /** Another thread sends and then shuts down; the loop gets to neither functor yet. */
  lemma SendThenShutdown(s: Conn, t: Conn, msg: seq<byte>, r: WriteResult, es: seq<Event>)
    requires s.phase == Connected && s.tasks == [] && s.CanAnswer(|msg|, r)
    requires t == s.(phase := Disconnecting, tasks := [SendTask(msg), ShutdownTask]) && PossibleRun(t, es)
    ensures var all := [Event.Send(msg, false, r), Event.Shutdown(false)] + es; PossibleRun(s, all) && Run(s, all) == Run(t, es)
  {
    var e2, e3 := Event.Send(msg, false, r), Event.Shutdown(false);
    var m := s.(tasks := [SendTask(msg)]);
    RunCons(m, e3, t, es, [e3] + es);
    RunCons(s, e2, m, [e3] + es, [e2, e3] + es);
  }

  lemma Overtaken(s: Conn, msg: seq<byte>, r: WriteResult)
    requires s.halfClosed && s.out == [] && !s.writing && s.tasks == [SendTask(msg), ShutdownTask] && msg != []
    ensures QueuedSends(s.tasks) == [msg]
    ensures Possible(s, RunTask(r)) ==> Refused(s, r) && Step(s, RunTask(r)).wire == s.wire
  {
    assert [SendTask(msg), ShutdownTask][1..] == [ShutdownTask] && [ShutdownTask][1..] == [];
    assert QueuedSends([ShutdownTask]) == [] + QueuedSends([]);
  }

  /** After shutdown, write-ready events that each move at least one byte end in the half-close:
      k of them leave at most |out| - k bytes unsent, and none unsent means half-closed. */
  lemma {:induction false} DrainEndsInHalfClose(s: Conn, es: seq<Event>)
    requires s.Inv() && s.phase == Disconnecting && s.out != []
    requires PossibleRun(s, es)
    requires forall i :: 0 <= i < |es| ==> es[i].Writable? && es[i].r.Wrote? && es[i].r.n > 0
    requires |es| >= |s.out|
    ensures var t := Run(s, es); t.halfClosed && t.out == [] && t.wire == s.wire + s.out && t.phase == Disconnecting
    decreases |es|
  {
    var t := Step(s, es[0]);
    StepKeepsInv(s, es[0]);
    WritableConserves(s, es[0].r);
    if t.out != [] {
      DrainEndsInHalfClose(t, es[1..]);
    } else {
      IdleWritable(t, es[1..]);
    }
  }

  lemma {:induction false} IdleWritable(s: Conn, es: seq<Event>)
    requires !s.writing && PossibleRun(s, es)
    requires forall i :: 0 <= i < |es| ==> es[i].Writable?
    ensures Run(s, es) == s
    decreases |es|
  {
    if es != [] {
      IdleWritable(s, es[1..]);
    }
  }

  // ----- what each event means ---------------------------------------------

  /** The events that close an open connection: a registration that fails, a read without data, a
      hang-up, an error, a write that fails or takes nothing while output waits, and the functor of
      a forced close. */
  predicate Breaks(s: Conn, e: Event)
    requires Possible(s, e)
  {
    match e
    case Establish(ok) => s.phase == Connecting && !ok
    case RunTask(_) => s.tasks[0] == ForceCloseTask
    case Readable(n) => n <= 0
    case Writable(r) => s.out != [] && !(r.Wrote? && r.n > 0)
    case Hangup => true
    case SocketError => true
    case _ => false
  }

  function PhaseAfter(s: Conn, e: Event): Phase
    requires Possible(s, e)
  {
    if s.phase == Disconnected || Breaks(s, e) then Disconnected
    else if e.Establish? && s.phase == Connecting then Connected
    else if e.Shutdown? && s.phase == Connected then Disconnecting
    else if e.ForceClose? && s.phase == Connected then Disconnecting
    else s.phase
  }

  /** Bytes the kernel takes in this step: what write answers, where it is called at all, which is
      for a message with no output before it and for output that waits. */
  function BytesTaken(s: Conn, e: Event): nat
    requires Possible(s, e)
  {
    match e
    case Send(msg, inLoop, r) => if s.phase == Connected && inLoop && s.out == [] && r.Wrote? then r.n else 0
    case RunTask(r) => if s.tasks[0].SendTask? && s.phase != Disconnected && s.out == [] && r.Wrote? then r.n else 0
    case Writable(r) => if s.phase != Disconnected && s.out != [] && r.Wrote? then r.n else 0
    case _ => 0
  }

  /** The steps that half-close: a shutdown, at once or by its functor, that finds no output, and
      the write that takes the last of the output of a connection being shut down. */
  predicate HalfCloses(s: Conn, e: Event)
    requires Possible(s, e)
  {
    match e
    case Shutdown(inLoop) => inLoop && s.phase == Connected && s.out == []
    case RunTask(_) => s.tasks[0] == ShutdownTask && (s.phase == Disconnected || s.out == [])
    case Writable(r) => s.phase == Disconnecting && s.out != [] && r == Wrote(|s.out|)
    case _ => false
  }

  lemma StepMeans(s: Conn, e: Event)
    requires s.Inv() && Possible(s, e)
    ensures Step(s, e).phase == PhaseAfter(s, e)
    ensures |Step(s, e).wire| == |s.wire| + BytesTaken(s, e)
    ensures Step(s, e).halfClosed <==> s.halfClosed || HalfCloses(s, e)
    ensures Step(s, e).ups == s.ups + (if e == Event.Establish(true) && s.phase == Connecting then 1 else 0)
  {
  }

  ghost predicate BrokenBy(s: Conn, es: seq<Event>)
    requires PossibleRun(s, es)
    decreases |es|
  {
    es != [] && (Breaks(s, es[0]) || BrokenBy(Step(s, es[0]), es[1..]))
  }

  ghost predicate HalfClosedBy(s: Conn, es: seq<Event>)
    requires PossibleRun(s, es)
    decreases |es|
  {
    es != [] && (HalfCloses(s, es[0]) || HalfClosedBy(Step(s, es[0]), es[1..]))
  }

  ghost function BytesTakenBy(s: Conn, es: seq<Event>): nat
    requires PossibleRun(s, es)
    decreases |es|
  {
    if es == [] then 0 else BytesTaken(s, es[0]) + BytesTakenBy(Step(s, es[0]), es[1..])
  }

  /** Whether the first attempt to establish the connection, if any, succeeds. */
  predicate EstablishedBy(es: seq<Event>) {
    es != [] && if es[0].Establish? then es[0].ok else EstablishedBy(es[1..])
  }

  predicate AttemptedBy(es: seq<Event>) {
    es != [] && (es[0].Establish? || AttemptedBy(es[1..]))
  }

  lemma {:induction false} RunMeans(s: Conn, es: seq<Event>)
    requires s.Inv() && PossibleRun(s, es)
    ensures var t := Run(s, es);
            && (t.phase == Disconnected <==> s.phase == Disconnected || BrokenBy(s, es))
            && (t.halfClosed <==> s.halfClosed || HalfClosedBy(s, es))
            && |t.wire| == |s.wire| + BytesTakenBy(s, es)
            && (t.phase == Connecting <==> s.phase == Connecting && !AttemptedBy(es))
            && t.ups == (if s.phase == Connecting && EstablishedBy(es) then 1 else s.ups)
    decreases |es|
  {
    if es != [] {
      StepKeepsInv(s, es[0]);
      StepMeans(s, es[0]);
      RunMeans(Step(s, es[0]), es[1..]);
    }
  }

  /** In every run: the connection is closed, and reported closed and down once, exactly if some
      event broke it; it was reported up exactly if its first registration succeeded, and once;
      the socket has been half-closed exactly if some step half-closes; and the wire holds as many
      bytes as the kernel said it took. */
  lemma EventsDecide(es: seq<Event>)
    requires PossibleRun(FRESH, es)
    ensures var t := Run(FRESH, es);
            && (t.phase == Disconnected <==> BrokenBy(FRESH, es))
            && t.closes == t.downs == (if BrokenBy(FRESH, es) then 1 else 0)
            && t.ups == (if EstablishedBy(es) then 1 else 0)
            && (t.phase == Connecting <==> !AttemptedBy(es))
            && (t.halfClosed <==> HalfClosedBy(FRESH, es))
            && |t.wire| == BytesTakenBy(FRESH, es)
  {
    RunMeans(FRESH, es);
    RunKeepsInv(FRESH, es);
  }

  /** The functor of a forced close closes the connection, once, and sends and half-closes nothing. */
  lemma ForceCloseTaskCloses(es: seq<Event>, r: WriteResult)
    requires PossibleRun(FRESH, es) && Possible(Run(FRESH, es), RunTask(r)) && Run(FRESH, es).tasks[0] == ForceCloseTask
    ensures var s, t := Run(FRESH, es), Step(Run(FRESH, es), RunTask(r));
            && t.phase == Disconnected && t.closes == t.downs == 1 && !t.reading && !t.writing
            && t.wire == s.wire && t.out == s.out && t.halfClosed == s.halfClosed && t.tasks == s.tasks[1..]
  {
    RunKeepsInv(FRESH, es);
    ForceCloseStep(Run(FRESH, es), r);
  }

  lemma ForceCloseStep(s: Conn, r: WriteResult)
    requires s.Inv() && Possible(s, RunTask(r)) && s.tasks[0] == ForceCloseTask
    ensures var t := Step(s, RunTask(r));
            && t.phase == Disconnected && t.closes == t.downs == 1 && !t.reading && !t.writing
            && t.wire == s.wire && t.out == s.out && t.halfClosed == s.halfClosed && t.tasks == s.tasks[1..]
  {
    assert ForceCloseTask in s.tasks;
  }

  function CountTasks(es: seq<Event>): nat {
    if es == [] then 0 else (if es[0].RunTask? then 1 else 0) + CountTasks(es[1..])
  }

  /** A forced close that waits in the queue is carried out when its turn comes, whatever else
      happens meanwhile. */
  lemma {:induction false} ForceCloseComesUp(s: Conn, es: seq<Event>, j: nat)
    requires s.Inv() && PossibleRun(s, es) && j < |s.tasks| && s.tasks[j] == ForceCloseTask && CountTasks(es) > j
    ensures Run(s, es).phase == Disconnected
    decreases |es|
  {
    var e, t := es[0], Step(s, es[0]);
    StepKeepsInv(s, e);
    StepTasks(s, e);
    StepMeans(s, e);
    if e.RunTask? && j == 0 {
      RunsMoveForward(t, es[1..]);
    } else {
      ForceCloseComesUp(t, es[1..], if e.RunTask? then j - 1 else j);
    }
  }

  /** So a forced close of an open connection ends in one close, at the latest when the loop has
      run as many functors as were then queued, in any run. */
  lemma ForceCloseEndsInClose(es: seq<Event>, later: seq<Event>)
    requires PossibleRun(FRESH, es) && PossibleRun(Step(Run(FRESH, es), Event.ForceClose), later)
    requires Run(FRESH, es).phase == Connected || Run(FRESH, es).phase == Disconnecting
    requires CountTasks(later) > |Run(FRESH, es).tasks|
    ensures var t := Run(Step(Run(FRESH, es), Event.ForceClose), later);
            t.phase == Disconnected && t.closes == t.downs == 1
  {
    RunKeepsInv(FRESH, es);
    var s := Run(FRESH, es);
    StepKeepsInv(s, Event.ForceClose);
    ForceCloseComesUp(Step(s, Event.ForceClose), later, |s.tasks|);
    RunKeepsInv(Step(s, Event.ForceClose), later);
  }

  // ----- dispatch of one poll event ----------------------------------------

  /** The bits Channel::handle_event looks at. */
  datatype Ready = Ready(hup: bool, input: bool, nval: bool, err: bool, priOrRdhup: bool, output: bool)

  /** Channel::handle_event: close, error, read and write handler, in this order, none excluding
      a later one. */
  function Dispatch(s: Conn, rev: Ready, n: int, r: WriteResult): Conn
    requires s.CanAnswer(|s.out|, r)
  {
    AnswerOutput(AnswerInput(AnswerBroken(s, rev), rev, n), rev, r)
  }

  function AnswerBroken(s: Conn, rev: Ready): (t: Conn)
    ensures t.out == s.out && t.halfClosed == s.halfClosed
  {
    var s1 := if rev.hup && !rev.input then s.HandleClose() else s;
    if rev.err || rev.nval then s1.HandleClose() else s1
  }

  function AnswerInput(s: Conn, rev: Ready, n: int): (t: Conn)
    ensures t.out == s.out && t.halfClosed == s.halfClosed
  {
    if (rev.input || rev.priOrRdhup) && n <= 0 then s.HandleClose() else s
  }

  function AnswerOutput(s: Conn, rev: Ready, r: WriteResult): Conn
    requires s.CanAnswer(|s.out|, r)
  {
    if rev.output then s.HandleWrite(r) else s
  }

  /** Some handler of the event finds the connection broken: hang-up without input, an error, or
      a read that returns no data. */
  predicate Closes(rev: Ready, n: int) {
    || (rev.hup && !rev.input)
    || rev.err || rev.nval
    || ((rev.input || rev.priOrRdhup) && n <= 0)
  }

  /** However many handlers one event calls, the connection is closed and reported down once, and
      a handler called after the close sends nothing; an event that closes nothing writes, if the
      socket can be written, and does nothing else. */
  lemma DispatchClosesOnce(s: Conn, rev: Ready, n: int, r: WriteResult)
    requires s.Inv() && s.phase != Connecting && s.CanAnswer(|s.out|, r)
    ensures var t := Dispatch(s, rev, n, r);
            && t.Inv() && t.closes == t.downs <= 1
            && (Closes(rev, n) ==> t.phase == Disconnected && t.wire == s.wire && t.out == s.out)
            && t == (if Closes(rev, n) then Step(s, Hangup) else if rev.output then Step(s, Writable(r)) else s)
  {
    var t := AnswerInput(AnswerBroken(s, rev), rev, n);
    if rev.output {
      StepKeepsInv(t, Writable(r));
    }
  }

  // ----- the class ---------------------------------------------------------

  class TcpConnection {
    const poller: EpollPoller
    const channel: Channel
    const output: ByteBuffer
    var phase: Phase
    var tasks: seq<Task>
    ghost var wire: seq<byte>
    ghost var halfClosed: bool
    ghost var ups: nat
    ghost var downs: nat
    ghost var closes: nat

    ghost function Abs(): Conn
      requires output.Valid()
      reads this, channel, output, output.buffer
    {
      Conn(phase, channel.mask.read, channel.mask.write, output.Contents(), tasks, wire, halfClosed, ups, downs, closes)
    }

    ghost predicate Valid()
      reads this, channel, output, output.buffer, poller, poller.owned
    {
      output.Valid() && poller.Valid() && channel in poller.owned && Abs().Inv() && Registered()
    }

    /** Of a connection that was reported up: while it is open its channel is registered, and once
        it is closed it is not. */
    ghost predicate Registered()
      reads this, channel, poller
    {
      ups == 1 ==> if phase == Disconnected then channel.index != Added else channel.index == Added && channel !in poller.absent
    }

    /** So no event reaches a closed connection: the kernel does not know its channel. */
    lemma ClosedIsUnknown()
      requires Valid() && phase == Disconnected && ups == 1
      ensures forall fd :: fd in poller.kernel ==> poller.kernel[fd].0 != channel
    {
      forall fd | fd in poller.kernel ensures poller.kernel[fd].0 != channel {
        assert poller.Abs().Registered(fd);
      }
    }

    constructor (poller: EpollPoller, fd: int)
      requires poller.Valid()
      modifies poller
      ensures Valid() && this.poller == poller && Abs() == FRESH
      ensures fresh(channel) && channel.fd == fd && fresh(output) && fresh(output.buffer)
    {
      var ch := poller.NewChannel(fd);
      var b := new ByteBuffer();
      this.poller := poller;
      channel := ch;
      output := b;
      phase := Connecting;
      tasks := [];
      wire := [];
      halfClosed := false;
      ups, downs, closes := 0, 0, 0;
    }

    /** The channel's enable_reading. */
    method EnableReading(refuse: bool) returns (ok: bool)
      requires poller.Valid() && channel in poller.owned
      modifies channel, poller
      ensures poller.Valid() && poller.owned == old(poller.owned)
      ensures channel.mask == old(channel.mask).(read := true)
      ensures ok ==> channel.index == Added && channel !in poller.absent
    {
      ok := poller.EnableReading(channel, refuse);
    }

    method EnableWriting(refuse: bool)
      requires poller.Valid() && channel in poller.owned
      modifies channel, poller
      ensures poller.Valid() && poller.owned == old(poller.owned)
      ensures channel.mask == old(channel.mask).(write := true)
      ensures old(phase != Disconnected && Registered()) ==> Registered()
    {
      var _ := poller.EnableWriting(channel, refuse);
    }

    method DisableWriting(refuse: bool)
      requires poller.Valid() && channel in poller.owned
      modifies channel, poller
      ensures poller.Valid() && poller.owned == old(poller.owned)
      ensures channel.mask == old(channel.mask).(write := false)
      ensures old(phase != Disconnected && channel.mask.read && Registered()) ==> Registered()
    {
      var _ := poller.DisableWriting(channel, refuse);
    }

    method DisableAll(refuse: bool)
      requires poller.Valid() && channel in poller.owned
      modifies channel, poller
      ensures poller.Valid() && poller.owned == old(poller.owned)
      ensures channel.mask == NO_EVENTS
      ensures old(channel.index == Added && channel !in poller.absent) ==> channel.index == Deleted
    {
      var _ := poller.DisableAll(channel, refuse);
    }

    method SendInLoop(msg: seq<byte>, r: WriteResult, refuse: bool)
      requires Valid() && Abs().CanAnswer(|msg|, r) && phase != Connecting
      modifies this, channel, output, output.buffer, poller
      ensures Valid() && poller.owned == old(poller.owned) && (output.buffer == old(output.buffer) || fresh(output.buffer))
      ensures Abs() == old(Abs()).SendInLoop(msg, r)
      ensures old(phase) == Disconnected ==> unchanged(channel) && unchanged(poller)
    {
      SendKeepsInv(Abs(), msg, r);
      if phase == Disconnected {
        return;
      }
      var nwrote, faultError := WriteDirectly(msg, r);
      if !faultError && nwrote < |msg| {
        Buffer(msg[nwrote..], refuse);
      }
    }

    /** The fast path: with no output before it, a message is offered to the socket at once. */
    method WriteDirectly(msg: seq<byte>, r: WriteResult) returns (nwrote: nat, faultError: bool)
      requires output.Valid() && Abs().CanAnswer(|msg|, r)
      modifies this`wire
      ensures nwrote == if Abs().Direct() && r.Wrote? then r.n else 0
      ensures faultError <==> Abs().Direct() && r.Reset?
      ensures nwrote <= |msg| && Abs() == old(Abs()).(wire := old(wire) + msg[..nwrote])
    {
      nwrote, faultError := 0, false;
      if !channel.mask.write && output.writeIdx - output.readIdx == 0 {
        match r {
          case Wrote(n) =>
            nwrote := n;
            wire := wire + msg[..n];
          case Reset => faultError := true;
          case _ =>
        }
      }
    }

    /** The slow path: keep what the socket did not take and ask to be told when it can. */
    method Buffer(data: seq<byte>, refuse: bool)
      requires output.Valid() && poller.Valid() && channel in poller.owned && data != []
      modifies channel, output, output.buffer, poller
      ensures output.Valid() && poller.Valid() && poller.owned == old(poller.owned)
      ensures output.buffer == old(output.buffer) || fresh(output.buffer)
      ensures Abs() == old(Abs()).Buffered(data)
      ensures old(phase != Disconnected && Registered()) ==> Registered()
    {
      output.Append(data);
      if !channel.mask.write {
        EnableWriting(refuse);
      }
    }

    method Send(msg: seq<byte>, inLoop: bool, r: WriteResult, refuse: bool)
      requires Valid() && Possible(Abs(), Event.Send(msg, inLoop, r))
      modifies this, channel, output, output.buffer, poller
      ensures Valid() && Abs() == Step(old(Abs()), Event.Send(msg, inLoop, r))
      ensures old(phase) == Disconnected ==> unchanged(channel) && unchanged(poller)
    {
      if phase == Connected {
        if inLoop {
          SendInLoop(msg, r, refuse);
        } else {
          tasks := tasks + [SendTask(msg)];
        }
      }
    }

    method ShutdownInLoop()
      requires output.Valid()
      modifies this`halfClosed
      ensures Abs() == old(Abs()).ShutdownInLoop()
    {
      if !channel.mask.write {
        halfClosed := true;
      }
    }

    method Shutdown(inLoop: bool)
      requires Valid()
      modifies this
      ensures Valid() && Abs() == Step(old(Abs()), Event.Shutdown(inLoop))
    {
      if phase == Connected {
        phase := Disconnecting;
        if inLoop {
          ShutdownInLoop();
        } else {
          tasks := tasks + [ShutdownTask];
        }
      }
    }

    method ForceClose()
      requires Valid()
      modifies this
      ensures Valid() && Abs() == Step(old(Abs()), Event.ForceClose)
    {
      if phase == Connected || phase == Disconnecting {
        phase := Disconnecting;
        tasks := tasks + [ForceCloseTask];
      }
    }

    method HandleClose(refuse: bool)
      requires output.Valid() && poller.Valid() && channel in poller.owned && phase != Connecting
      requires phase == Disconnected ==> Abs().Inv()
      requires phase != Disconnected ==> downs == closes == 0 && ups <= 1
      requires Registered()
      modifies this, channel, poller
      ensures Valid() && poller.owned == old(poller.owned)
      ensures Abs() == old(Abs()).HandleClose()
      ensures old(phase) == Disconnected ==> unchanged(channel) && unchanged(poller)
    {
      if phase == Disconnected {
        return;
      }
      phase := Disconnected;
      DisableAll(refuse);
      downs := downs + 1;
      closes := closes + 1;
    }

    method HandleWrite(r: WriteResult, refuse: bool)
      requires Valid() && phase != Connecting && Abs().CanAnswer(|output.Contents()|, r)
      modifies this, channel, output, poller
      ensures Valid() && poller.owned == old(poller.owned) && Abs() == Step(old(Abs()), Writable(r))
      ensures old(phase) == Disconnected ==> unchanged(channel) && unchanged(poller)
    {
      StepKeepsInv(Abs(), Writable(r));
      if channel.mask.write {
        if r.Wrote? && r.n > 0 {
          Drain(r.n, refuse);
        } else {
          HandleClose(refuse);
        }
      }
    }

    /** The socket has taken n bytes from the front of the output. */
    method Drain(n: nat, refuse: bool)
      requires output.Valid() && poller.Valid() && channel in poller.owned
      requires n > 0 && channel.mask.write && Abs().CanAnswer(|output.Contents()|, Wrote(n))
      modifies this, channel, output, poller
      ensures output.Valid() && poller.Valid() && poller.owned == old(poller.owned) && output.buffer == old(output.buffer)
      ensures Abs() == old(Abs()).HandleWrite(Wrote(n))
      ensures old(phase != Disconnected && channel.mask.read && Registered()) ==> Registered()
    {
      TakeFront(n);
      if output.writeIdx - output.readIdx == 0 {
        Drained(refuse);
      }
    }

    method TakeFront(n: nat)
      requires output.Valid() && n <= |output.Contents()|
      modifies this`wire, output
      ensures output.Valid() && output.buffer == old(output.buffer)
      ensures Abs() == old(Abs()).(wire := old(wire) + old(output.Contents())[..n], out := old(output.Contents())[n..])
    {
      wire := wire + output.Contents()[..n];
      var _ := output.Retrieve(n);
    }

    /** Nothing is left to write: write interest goes, and a shutdown that waited is carried out. */
    method Drained(refuse: bool)
      requires output.Valid() && poller.Valid() && channel in poller.owned
      modifies this, channel, poller
      ensures poller.Valid() && poller.owned == old(poller.owned)
      ensures var t := old(Abs()).(writing := false); Abs() == if phase == Disconnecting then t.ShutdownInLoop() else t
      ensures old(phase != Disconnected && channel.mask.read && Registered()) ==> Registered()
    {
      DisableWriting(refuse);
      if phase == Disconnecting {
        ShutdownInLoop();
      }
    }

    method HandleRead(n: int, refuse: bool)
      requires Valid() && phase != Connecting
      modifies this, channel, poller
      ensures Valid() && Abs() == Step(old(Abs()), Readable(n))
      ensures old(phase) == Disconnected ==> unchanged(channel) && unchanged(poller)
    {
      if n > 0 {
        // the bytes go to the message callback
      } else {
        HandleClose(refuse);
      }
    }

    /** What the channel calls for one poll event; n is the result of reading, if it reads. */
    method HandleEvent(rev: Ready, n: int, r: WriteResult, refuse: bool)
      requires Valid() && phase != Connecting && Abs().CanAnswer(|output.Contents()|, r)
      modifies this, channel, output, poller
      ensures Valid() && Abs() == Dispatch(old(Abs()), rev, n, r)
      ensures old(phase) == Disconnected ==> unchanged(channel) && unchanged(poller)
    {
      OnBroken(rev, refuse);
      OnInput(rev, n, refuse);
      OnOutput(rev, r, refuse);
    }

    /** Hang-up without input, and errors. */
    method OnBroken(rev: Ready, refuse: bool)
      requires Valid() && phase != Connecting
      modifies this, channel, poller
      ensures Valid() && Abs() == AnswerBroken(old(Abs()), rev)
      ensures old(phase) == Disconnected ==> unchanged(channel) && unchanged(poller)
    {
      if rev.hup && !rev.input {
        HandleClose(refuse);
      }
      if rev.err || rev.nval {
        HandleClose(refuse);
      }
    }

    method OnInput(rev: Ready, n: int, refuse: bool)
      requires Valid() && phase != Connecting
      modifies this, channel, poller
      ensures Valid() && Abs() == AnswerInput(old(Abs()), rev, n)
      ensures old(phase) == Disconnected ==> unchanged(channel) && unchanged(poller)
    {
      if rev.input || rev.priOrRdhup {
        HandleRead(n, refuse);
      }
    }

    method OnOutput(rev: Ready, r: WriteResult, refuse: bool)
      requires Valid() && phase != Connecting && Abs().CanAnswer(|output.Contents()|, r)
      modifies this, channel, output, poller
      ensures Valid() && Abs() == AnswerOutput(old(Abs()), rev, r)
      ensures old(phase) == Disconnected ==> unchanged(channel) && unchanged(poller)
    {
      if rev.output {
        HandleWrite(r, refuse);
      }
    }

    /** The loop runs this connection's oldest functor. */
    method RunTask(r: WriteResult, refuse: bool)
      requires Valid() && Possible(Abs(), Event.RunTask(r))
      modifies this, channel, output, output.buffer, poller
      ensures Valid() && Abs() == Step(old(Abs()), Event.RunTask(r))
      ensures old(phase) == Disconnected ==> unchanged(channel) && unchanged(poller)
    {
      RunTaskKeepsInv(Abs(), r);
      var task := tasks[0];
      match task {
        case SendTask(msg) =>
          SendQueued(msg, r, refuse);
        case ShutdownTask =>
          tasks := tasks[1..];
          ShutdownInLoop();
        case ForceCloseTask =>
          tasks := tasks[1..];
          if phase == Connected || phase == Disconnecting {
            HandleClose(refuse);
          }
      }
    }

    method SendQueued(msg: seq<byte>, r: WriteResult, refuse: bool)
      requires Valid() && Abs().CanAnswer(|msg|, r) && tasks != [] && tasks[0] == SendTask(msg)
      modifies this, channel, output, output.buffer, poller
      ensures Valid() && Abs() == Step(old(Abs()), Event.RunTask(r))
      ensures old(phase) == Disconnected ==> unchanged(channel) && unchanged(poller)
    {
      assert tasks == [tasks[0]] + tasks[1..];
      tasks := tasks[1..];
      SendInLoop(msg, r, refuse);
    }

    method ConnEstablished(refuse: bool) returns (ok: bool)
      requires Valid()
      modifies this, channel, poller
      ensures Valid() && Abs() == Step(old(Abs()), Event.Establish(ok))
      ensures old(phase) == Disconnected ==> unchanged(channel) && unchanged(poller)
    {
      ok := true;
      if phase != Connecting {
        return;
      }
      phase := Connected;
      ok := EnableReading(refuse);
      if !ok {
        HandleClose(refuse);
        return;
      }
      ups := ups + 1;
    }

    method ReportEnd(refuse: bool)
      requires output.Valid() && poller.Valid() && channel in poller.owned && phase == Connected
      modifies this, channel, poller
      ensures poller.Valid() && poller.owned == old(poller.owned) && channel.mask == NO_EVENTS
      ensures Abs() == old(Abs()).Destroy()
    {
      phase := Disconnected;
      DisableAll(refuse);
      downs := downs + 1;
    }

    /** After a close, destruction notifies nobody again and leaves the channel in no entry of the
        poller's map; nor does it after a connection that was never established or is still
        connected, whose end it reports. Halfway through a shutdown it does nothing: the channel
        still has events and stays where it is. Once disconnected, no other method touches channel
        or poller, so a late event or functor cannot bring the channel back. */
    method ConnDestroyed(refuse: bool)
      requires Valid()
      modifies this, channel, poller
      ensures output.Valid() && poller.Valid() && Abs() == old(Abs()).Destroy()
      ensures old(phase) != Connected ==> Valid() && Abs() == old(Abs())
      ensures old(phase) == Connected ==> phase == Disconnected && downs == 1 && closes == 0
      ensures old(phase) != Disconnecting ==>
                channel.index == New && forall fd :: fd in poller.channels ==> poller.channels[fd] != channel
      ensures old(phase) == Disconnecting ==> poller.Abs() == old(poller.Abs())
    {
      if phase == Connected {
        ReportEnd(refuse);
      }
      poller.RemoveChannel(channel);
    }
  }
}
