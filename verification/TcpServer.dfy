/** server/src/network/tcp_server.cpp: naming, bookkeeping and disposal of connections.

    The server's map, the functors that cross loops (remove_conn_in_loop, conn_destroyed) and
    every connection form one state; any interleaving of their steps is a run. */
module Servers {
  import opened Bytes
  import opened Connections

  const COLON: byte := 58
  const HASH: byte := 35
  const SUFFIX_ROOM: nat := 31   // snprintf into char buf[32]

  function FullSuffix(hostPort: Text, id: nat): Text {
    [COLON] + hostPort + [HASH] + Decimal(id)
  }

  /** What snprintf leaves of ":host:port#id". */
  function Suffix(hostPort: Text, id: nat): Text {
    var s := FullSuffix(hostPort, id);
    if |s| <= SUFFIX_ROOM then s else s[..SUFFIX_ROOM]
  }

  ghost predicate NamesDistinct(hostPort: Text, n: nat) {
    forall i: nat, j: nat :: 1 <= i < j <= n ==> Suffix(hostPort, i) != Suffix(hostPort, j)
  }

  predicate SuffixFits(hostPort: Text, id: nat) {
    |FullSuffix(hostPort, id)| <= SUFFIX_ROOM
  }

  lemma FittingSuffixesDiffer(hostPort: Text, i: nat, j: nat)
    requires i < j && SuffixFits(hostPort, j)
    ensures Suffix(hostPort, i) != Suffix(hostPort, j)
  {
    DecimalLengthMonotone(i, j);
    DecimalRoundTrip(i);
    DecimalRoundTrip(j);
    var k := |hostPort| + 2;
    assert FullSuffix(hostPort, i)[k..] == Decimal(i);
    assert FullSuffix(hostPort, j)[k..] == Decimal(j);
  }

  /** A truncated name always collides with an earlier one: the number whose digits survive,
      or, if no digit survives, any other. */
  lemma TruncatedSuffixCollides(hostPort: Text, n: nat) returns (p: nat)
    requires n >= 2 && !SuffixFits(hostPort, n)
    ensures 1 <= p < n && Suffix(hostPort, p) == Suffix(hostPort, n)
  {
    var head := [COLON] + hostPort + [HASH];
    if |head| >= SUFFIX_ROOM {
      p := 1;
      assert Suffix(hostPort, p) == head[..SUFFIX_ROOM] == Suffix(hostPort, n);
    } else {
      var k := SUFFIX_ROOM - |head|;
      p := DecimalPrefix(n, k);
      assert Suffix(hostPort, n) == head + Decimal(n)[..k] == FullSuffix(hostPort, p);
    }
  }

  /** Connection names are distinct exactly as long as the newest suffix is not truncated. */
  lemma NamesDistinctIff(hostPort: Text, n: nat)
    ensures NamesDistinct(hostPort, n) <==> n <= 1 || SuffixFits(hostPort, n)
  {
    if n >= 2 {
      if SuffixFits(hostPort, n) {
        forall i: nat, j: nat | 1 <= i < j <= n ensures Suffix(hostPort, i) != Suffix(hostPort, j) {
          DecimalLengthMonotone(j, n);
          FittingSuffixesDiffer(hostPort, i, j);
        }
      } else {
        var p := TruncatedSuffixCollides(hostPort, n);
      }
    }
  }

  // ----- the server --------------------------------------------------------

  datatype Server = Server(
    base: Text,
    hostPort: Text,
    made: nat,                    // next_conn_id_ - 1
    conns: map<nat, Conn>,        // every connection ever made, by number
    table: map<Text, nat>,        // conn_map_
    removing: multiset<nat>,      // queued remove_conn_in_loop functors
    destroying: multiset<nat>,    // queued conn_destroyed functors
    destroyed: multiset<nat>      // conn_destroyed calls made
  )
  {
    function Name(id: nat): Text {
      base + Suffix(hostPort, id)
    }

    /** Disposals under way or done for one connection. */
    function Disposals(id: nat): nat {
      removing[id] + destroying[id] + destroyed[id]
    }

    ghost predicate Inv() {
      && (forall id :: id in conns <==> 1 <= id <= made)
      && (forall id :: AtMostOnce(id))
    }

    ghost predicate AtMostOnce(id: nat) {
      if id in conns then conns[id].Inv() && Disposals(id) <= conns[id].closes else Disposals(id) == 0
    }

    /** With distinct names, the map holds exactly the connections not yet handed over for
        destruction, and no close goes unanswered. */
    ghost predicate Complete() {
      forall id :: id in conns ==> Answered(id)
    }

    ghost predicate Answered(id: nat)
      requires id in conns
    {
      && (destroying[id] == 0 && destroyed[id] == 0 <==> Name(id) in table && table[Name(id)] == id)
      && Disposals(id) == conns[id].closes
    }

    /** Connection id becomes c; its close callback queues remove_conn_in_loop. */
    function Changed(id: nat, c: Conn): Server
      requires id in conns
    {
      this.(conns := conns[id := c],
            removing := if c.closes > conns[id].closes then removing + multiset{id} else removing)
    }
  }

  function Start(base: Text, hostPort: Text): Server {
    Server(base, hostPort, 0, map[], map[], multiset{}, multiset{}, multiset{})
  }

  datatype Move =
    | NewConn
    | OnConn(id: nat, e: Event)
    | RemoveInLoop(id: nat)
    | DestroyConn(id: nat)

  predicate MovePossible(s: Server, m: Move) {
    match m
    case NewConn => true
    case OnConn(id, e) => id in s.conns && Possible(s.conns[id], e)
    case RemoveInLoop(id) => id in s.removing
    case DestroyConn(id) => id in s.destroying && id in s.conns
  }

  function MoveStep(s: Server, m: Move): Server
    requires MovePossible(s, m)
  {
    match m
    case NewConn =>
      var id := s.made + 1;
      s.(made := id, conns := s.conns[id := FRESH], table := s.table[s.Name(id) := id])
    case OnConn(id, e) => s.Changed(id, Step(s.conns[id], e))
    case RemoveInLoop(id) =>
      var t := s.(removing := s.removing - multiset{id});
      if s.Name(id) in s.table then t.(table := s.table - {s.Name(id)}, destroying := s.destroying + multiset{id}) else t
    case DestroyConn(id) =>
      s.(conns := s.conns[id := s.conns[id].Destroy()],
         destroying := s.destroying - multiset{id}, destroyed := s.destroyed + multiset{id})
  }

  ghost predicate PossibleMoves(s: Server, ms: seq<Move>)
    decreases |ms|
  {
    ms != [] ==> MovePossible(s, ms[0]) && PossibleMoves(MoveStep(s, ms[0]), ms[1..])
  }

  ghost function Moves(s: Server, ms: seq<Move>): Server
    requires PossibleMoves(s, ms)
    decreases |ms|
  {
    if ms == [] then s else Moves(MoveStep(s, ms[0]), ms[1..])
  }

  lemma StepCloses(s: Conn, e: Event)
    requires s.Inv() && Possible(s, e)
    ensures s.closes <= Step(s, e).closes <= s.closes + 1
  {
  }

  lemma ChangeKeepsInv(s: Server, id: nat, c: Conn)
    requires s.Inv() && id in s.conns && c.Inv() && s.conns[id].closes <= c.closes <= s.conns[id].closes + 1
    ensures s.Changed(id, c).Inv()
    ensures s.Complete() ==> s.Changed(id, c).Complete()
  {
    var t := s.Changed(id, c);
    forall j ensures t.AtMostOnce(j) { assert s.AtMostOnce(j); }
    if s.Complete() {
      forall j | j in t.conns ensures t.Answered(j) { assert s.Answered(j); }
    }
  }

  lemma OnConnKeepsInv(s: Server, id: nat, e: Event)
    requires s.Inv() && id in s.conns && Possible(s.conns[id], e)
    ensures MoveStep(s, OnConn(id, e)).Inv()
    ensures s.Complete() ==> MoveStep(s, OnConn(id, e)).Complete()
  {
    assert s.AtMostOnce(id);
    StepKeepsInv(s.conns[id], e);
    StepCloses(s.conns[id], e);
    ChangeKeepsInv(s, id, Step(s.conns[id], e));
  }

  lemma MoveKeepsInv(s: Server, m: Move)
    requires s.Inv() && MovePossible(s, m)
    ensures MoveStep(s, m).Inv()
  {
    match m {
      case OnConn(id, e) => OnConnKeepsInv(s, id, e);
      case NewConn =>
        forall j ensures MoveStep(s, m).AtMostOnce(j) { assert s.AtMostOnce(j); }
      case RemoveInLoop(id) => RemoveKeepsInv(s, id);
      case DestroyConn(id) => DestroyKeepsInv(s, id);
    }
  }

  lemma RemoveKeepsInv(s: Server, id: nat)
    requires s.Inv() && id in s.removing
    ensures MoveStep(s, RemoveInLoop(id)).Inv()
  {
    var t := MoveStep(s, RemoveInLoop(id));
    forall j ensures t.AtMostOnce(j) {
      assert s.AtMostOnce(j);
      assert t.Disposals(j) <= s.Disposals(j);
    }
  }

  lemma DestroyKeepsInv(s: Server, id: nat)
    requires s.Inv() && id in s.destroying && id in s.conns
    ensures MoveStep(s, DestroyConn(id)).Inv()
  {
    var t := MoveStep(s, DestroyConn(id));
    assert s.AtMostOnce(id) && s.conns[id].Destroy() == s.conns[id];
    forall j ensures t.AtMostOnce(j) {
      assert s.AtMostOnce(j);
      assert t.Disposals(j) == s.Disposals(j);
    }
  }

  lemma NewConnKeepsComplete(s: Server)
    requires s.Inv() && s.Complete() && NamesDistinct(s.hostPort, s.made + 1)
    ensures MoveStep(s, NewConn).Complete()
  {
    var t := MoveStep(s, NewConn);
    forall id | id in t.conns ensures t.Answered(id) {
      assert s.AtMostOnce(id);
      if id != t.made {
        assert s.Answered(id);
        NamesApart(s, t.made, id, t.made);
      }
    }
  }

  lemma RemoveKeepsComplete(s: Server, k: nat)
    requires s.Inv() && s.Complete() && k in s.removing && NamesDistinct(s.hostPort, s.made)
    ensures MoveStep(s, RemoveInLoop(k)).Complete()
  {
    var t := MoveStep(s, RemoveInLoop(k));
    assert s.AtMostOnce(k) && s.Answered(k);
    forall id | id in t.conns ensures t.Answered(id) {
      assert s.AtMostOnce(id) && s.Answered(id);
      if id != k { NamesApart(s, s.made, id, k); }
    }
  }

  lemma DestroyKeepsComplete(s: Server, k: nat)
    requires s.Inv() && s.Complete() && k in s.destroying && k in s.conns
    ensures MoveStep(s, DestroyConn(k)).Complete()
  {
    var t := MoveStep(s, DestroyConn(k));
    forall id | id in t.conns ensures t.Answered(id) {
      assert s.AtMostOnce(id) && s.Answered(id);
    }
  }

  lemma MoveKeepsComplete(s: Server, m: Move)
    requires s.Inv() && s.Complete() && MovePossible(s, m)
    requires NamesDistinct(s.hostPort, MoveStep(s, m).made)
    ensures MoveStep(s, m).Complete()
  {
    match m {
      case NewConn => NewConnKeepsComplete(s);
      case OnConn(id, e) => OnConnKeepsInv(s, id, e);
      case RemoveInLoop(id) => RemoveKeepsComplete(s, id);
      case DestroyConn(id) => DestroyKeepsComplete(s, id);
    }
  }

  lemma NamesApart(s: Server, n: nat, i: nat, j: nat)
    requires NamesDistinct(s.hostPort, n) && 1 <= i <= n && 1 <= j <= n && i != j
    ensures s.Name(i) != s.Name(j)
  {
    assert Suffix(s.hostPort, i) != Suffix(s.hostPort, j);
    assert s.Name(i)[|s.base|..] == Suffix(s.hostPort, i) && s.Name(j)[|s.base|..] == Suffix(s.hostPort, j);
  }

  /** In every run of the server, each connection is closed at most once and destroyed at most
      once, and only after it was closed, so destruction never notifies a second time. */
  lemma {:induction false} DestroyedAtMostOnce(s: Server, ms: seq<Move>, id: nat)
    requires s.Inv() && PossibleMoves(s, ms)
    ensures var t := Moves(s, ms);
            && t.Inv()
            && t.destroyed[id] <= 1
            && (id in t.destroying || id in t.destroyed ==>
                  id in t.conns && t.conns[id].phase == Disconnected && t.conns[id].closes == t.conns[id].downs == 1
                  && !t.conns[id].reading && !t.conns[id].writing && t.conns[id].Destroy() == t.conns[id])
    decreases |ms|
  {
    if ms == [] {
      assert s.AtMostOnce(id);
    } else {
      MoveKeepsInv(s, ms[0]);
      DestroyedAtMostOnce(MoveStep(s, ms[0]), ms[1..], id);
    }
  }

  lemma {:induction false} CountGrows(s: Server, ms: seq<Move>)
    requires PossibleMoves(s, ms)
    ensures s.made <= Moves(s, ms).made && Moves(s, ms).hostPort == s.hostPort && Moves(s, ms).base == s.base
    decreases |ms|
  {
    if ms != [] { CountGrows(MoveStep(s, ms[0]), ms[1..]); }
  }

  lemma {:induction false} RunKeepsComplete(s: Server, ms: seq<Move>)
    requires s.Inv() && s.Complete() && PossibleMoves(s, ms)
    requires NamesDistinct(s.hostPort, Moves(s, ms).made)
    ensures Moves(s, ms).Complete()
    decreases |ms|
  {
    if ms != [] {
      var t := MoveStep(s, ms[0]);
      CountGrows(t, ms[1..]);
      assert forall i: nat, j: nat :: 1 <= i < j <= t.made ==> Suffix(s.hostPort, i) != Suffix(s.hostPort, j);
      MoveKeepsInv(s, ms[0]);
      MoveKeepsComplete(s, ms[0]);
      RunKeepsComplete(t, ms[1..]);
    }
  }

  /** While there is one connection or the newest name is not truncated, every closed connection is queued for removal,
      queued for destruction, or destroyed: exactly one of the three, exactly once; and the map
      still holds it in the first of them only. */
  lemma EveryCloseIsAnswered(base: Text, hostPort: Text, ms: seq<Move>, id: nat)
    requires PossibleMoves(Start(base, hostPort), ms)
    requires var t := Moves(Start(base, hostPort), ms);
             id in t.conns && (t.made <= 1 || SuffixFits(hostPort, t.made))
    ensures var t := Moves(Start(base, hostPort), ms);
            && t.removing[id] + t.destroying[id] + t.destroyed[id] == (if t.conns[id].phase == Disconnected then 1 else 0)
            && (t.Name(id) in t.table && t.table[t.Name(id)] == id <==> t.destroying[id] + t.destroyed[id] == 0)
  {
    var s := Start(base, hostPort);
    DestroyedAtMostOnce(s, ms, id);
    CountGrows(s, ms);
    NamesDistinctIff(hostPort, Moves(s, ms).made);
    RunKeepsComplete(s, ms);
    var t := Moves(s, ms);
    assert t.Answered(id) && t.AtMostOnce(id);
  }

  // ----- what a run's own moves say ----------------------------------------

  /** The events of one connection among the moves of the server. */
  function EventsFor(ms: seq<Move>, id: nat): seq<Event> {
    if ms == [] then []
    else (if ms[0].OnConn? && ms[0].id == id then [ms[0].e] else []) + EventsFor(ms[1..], id)
  }

  function CountNew(ms: seq<Move>): nat {
    if ms == [] then 0 else (if ms[0].NewConn? then 1 else 0) + CountNew(ms[1..])
  }

  function CountRemoves(ms: seq<Move>, id: nat): nat {
    if ms == [] then 0 else (if ms[0] == RemoveInLoop(id) then 1 else 0) + CountRemoves(ms[1..], id)
  }

  function CountDestroys(ms: seq<Move>, id: nat): nat {
    if ms == [] then 0 else (if ms[0] == DestroyConn(id) then 1 else 0) + CountDestroys(ms[1..], id)
  }

  /** A connection not yet made, or the one that is there. */
  function ConnOf(s: Server, id: nat): Conn {
    if id in s.conns then s.conns[id] else FRESH
  }

  lemma MoveOnConn(s: Server, m: Move, id: nat)
    requires s.Inv() && MovePossible(s, m)
    ensures ConnOf(MoveStep(s, m), id) == if m.OnConn? && m.id == id then Step(s.conns[id], m.e) else ConnOf(s, id)
    ensures m.OnConn? && m.id == id ==> Possible(ConnOf(s, id), m.e)
  {
    assert s.AtMostOnce(id);
  }

  /** Whatever else the server does, each of its connections runs exactly the events meant for it,
      so all laws of one connection hold of it. */
  lemma {:induction false} ConnRunsItsEvents(s: Server, ms: seq<Move>, id: nat)
    requires s.Inv() && PossibleMoves(s, ms)
    ensures PossibleRun(ConnOf(s, id), EventsFor(ms, id))
    ensures ConnOf(Moves(s, ms), id) == Run(ConnOf(s, id), EventsFor(ms, id))
    decreases |ms|
  {
    if ms != [] {
      var t := MoveStep(s, ms[0]);
      MoveKeepsInv(s, ms[0]);
      MoveOnConn(s, ms[0], id);
      ConnRunsItsEvents(t, ms[1..], id);
      if ms[0].OnConn? && ms[0].id == id {
        RunCons(ConnOf(s, id), ms[0].e, ConnOf(t, id), EventsFor(ms[1..], id), EventsFor(ms, id));
      } else {
        assert EventsFor(ms, id) == [] + EventsFor(ms[1..], id) == EventsFor(ms[1..], id);
      }
    }
  }

  /** Every move does its work: as many connections are made as were accepted, each removal run
      takes one off the queue, each destruction run is a destruction, and each close of a
      connection has queued one removal, whatever the names. */
  lemma {:induction false} MovesCount(s: Server, ms: seq<Move>, id: nat)
    requires s.Inv() && PossibleMoves(s, ms)
    ensures var t := Moves(s, ms);
            && t.made == s.made + CountNew(ms)
            && t.destroyed[id] == s.destroyed[id] + CountDestroys(ms, id)
            && t.removing[id] + CountRemoves(ms, id) == s.removing[id] + (ConnOf(t, id).closes - ConnOf(s, id).closes)
            && t.destroying[id] + CountDestroys(ms, id) <= s.destroying[id] + CountRemoves(ms, id)
    decreases |ms|
  {
    if ms != [] {
      MoveKeepsInv(s, ms[0]);
      MoveCounts(s, ms[0], id);
      MovesCount(MoveStep(s, ms[0]), ms[1..], id);
    }
  }

  lemma MoveCounts(s: Server, m: Move, id: nat)
    requires s.Inv() && MovePossible(s, m)
    ensures var t := MoveStep(s, m);
            && t.made == s.made + (if m.NewConn? then 1 else 0)
            && t.destroyed[id] == s.destroyed[id] + (if m == DestroyConn(id) then 1 else 0)
            && t.removing[id] + (if m == RemoveInLoop(id) then 1 else 0)
               == s.removing[id] + (ConnOf(t, id).closes - ConnOf(s, id).closes)
            && t.destroying[id] + (if m == DestroyConn(id) then 1 else 0)
               <= s.destroying[id] + (if m == RemoveInLoop(id) then 1 else 0)
  {
    MoveOnConn(s, m, id);
    assert s.AtMostOnce(id);
    if m.OnConn? && m.id == id { StepCloses(s.conns[id], m.e); }
  }

  /** No run with at most n connections leaves a close unanswered. */
  ghost predicate AlwaysAnswers(base: Text, hostPort: Text, n: nat) {
    forall ms, id :: PossibleMoves(Start(base, hostPort), ms) ==> Answers(Moves(Start(base, hostPort), ms), id, n)
  }

  ghost predicate Answers(t: Server, id: nat, n: nat) {
    id in t.conns && t.made <= n ==> t.Disposals(id) == t.conns[id].closes
  }

  /** Every close is answered, in every run with at most n connections, if and only if there is at
      most one or the newest name is not truncated: otherwise two live connections may share a
      name, and the first to be removed takes the other's entry with it. */
  lemma EveryCloseIsAnsweredIff(base: Text, hostPort: Text, n: nat)
    ensures AlwaysAnswers(base, hostPort, n) <==> n <= 1 || SuffixFits(hostPort, n)
  {
    var s := Start(base, hostPort);
    NamesDistinctIff(hostPort, n);
    if n <= 1 || SuffixFits(hostPort, n) {
      forall ms, id | PossibleMoves(s, ms) ensures Answers(Moves(s, ms), id, n) {
        var t := Moves(s, ms);
        CountGrows(s, ms);
        if id in t.conns && t.made <= n {
          assert forall i: nat, j: nat :: 1 <= i < j <= t.made ==> Suffix(hostPort, i) != Suffix(hostPort, j);
          RunKeepsComplete(s, ms);
          assert t.Answered(id);
        }
      }
    } else {
      var ms := TruncatedNameLosesClose(base, hostPort, n);
      assert !Answers(Moves(s, ms), n, n);
    }
  }

  /** The run: n connections are made; the n-th and the earlier one of the same name close; the
      earlier one is removed first, and the n-th is then never destroyed. */
  lemma TruncatedNameLosesClose(base: Text, hostPort: Text, n: nat) returns (ms: seq<Move>)
    requires n >= 2 && !SuffixFits(hostPort, n)
    ensures PossibleMoves(Start(base, hostPort), ms)
    ensures var t := Moves(Start(base, hostPort), ms);
            t.made == n && n in t.conns && t.conns[n].closes == 1 && t.Disposals(n) == 0
  {
    var s := Start(base, hostPort);
    var p := TruncatedSuffixCollides(hostPort, n);
    var opening := NewConns(s, n);
    var closing := CloseBoth(Moves(s, opening), p, n);
    MovesConcat(s, opening, closing);
    ms := opening + closing;
  }

  ghost predicate AllFresh(s: Server) {
    && s.removing == s.destroying == s.destroyed == multiset{}
    && forall id :: 1 <= id <= s.made ==> id in s.conns && s.conns[id] == FRESH && s.Name(id) in s.table
  }

  lemma {:induction false} NewConns(s: Server, k: nat) returns (ms: seq<Move>)
    requires AllFresh(s)
    ensures PossibleMoves(s, ms)
    ensures var t := Moves(s, ms); AllFresh(t) && t.made == s.made + k && t.base == s.base && t.hostPort == s.hostPort
    decreases k
  {
    if k == 0 {
      ms := [];
    } else {
      var t := MoveStep(s, NewConn);
      assert forall id :: t.Name(id) == s.Name(id);
      var rest := NewConns(t, k - 1);
      ms := [NewConn] + rest;
      assert ms[1..] == rest;
    }
  }

  lemma {:induction false} MovesConcat(s: Server, a: seq<Move>, b: seq<Move>)
    requires PossibleMoves(s, a) && PossibleMoves(Moves(s, a), b)
    ensures PossibleMoves(s, a + b) && Moves(s, a + b) == Moves(Moves(s, a), b)
    decreases |a|
  {
    if a == [] {
      assert a + b == b;
    } else {
      assert (a + b)[1..] == a[1..] + b;
      MovesConcat(MoveStep(s, a[0]), a[1..], b);
    }
  }

  /** Of two connections of one name, both queued for removal, the second to be removed finds the
      name gone and is forgotten. */
  lemma RemoveBoth(s: Server, p: nat, n: nat) returns (ms: seq<Move>)
    requires p in s.removing && n in s.removing && p != n && s.Name(p) == s.Name(n) && s.Name(p) in s.table
    ensures PossibleMoves(s, ms)
    ensures var t := Moves(s, ms); t.made == s.made && t.conns == s.conns && t.Disposals(n) == s.Disposals(n) - 1
  {
    var m0, m1 := RemoveInLoop(p), RemoveInLoop(n);
    var s1 := MoveStep(s, m0);
    MovesCons(s1, m1, MoveStep(s1, m1), [], [m1]);
    MovesCons(s, m0, s1, [m1], [m0, m1]);
    ms := [m0, m1];
  }

  /** A connection that cannot be registered with its poller closes at once. */
  lemma CloseBoth(s: Server, p: nat, n: nat) returns (ms: seq<Move>)
    requires AllFresh(s) && 1 <= p < n <= s.made && Suffix(s.hostPort, p) == Suffix(s.hostPort, n)
    ensures PossibleMoves(s, ms)
    ensures var t := Moves(s, ms); t.made == s.made && n in t.conns && t.conns[n].closes == 1 && t.Disposals(n) == 0
  {
    var m0, m1 := OnConn(p, Event.Establish(false)), OnConn(n, Event.Establish(false));
    var s1 := MoveStep(s, m0);
    var s2 := MoveStep(s1, m1);
    MovesCons(s1, m1, s2, [], [m1]);
    MovesCons(s, m0, s1, [m1], [m0, m1]);
    assert s2.Name(p) == s.Name(p) && s2.Name(n) == s.Name(n);
    var rest := RemoveBoth(s2, p, n);
    MovesConcat(s, [m0, m1], rest);
    ms := [m0, m1] + rest;
  }

  lemma MovesCons(s: Server, m: Move, t: Server, ms: seq<Move>, all: seq<Move>)
    requires all == [m] + ms && MovePossible(s, m) && MoveStep(s, m) == t && PossibleMoves(t, ms)
    ensures PossibleMoves(s, all) && Moves(s, all) == Moves(t, ms)
  {
    assert all[1..] == ms;
  }

  // ----- the class ---------------------------------------------------------

  /** The server's own fields, the functors around it and, by their values, its connections. */
  class TcpServer {
    const name: Text
    const hostPort: Text
    var nextConnId: nat
    var connMap: map<Text, nat>
    var removing: multiset<nat>
    var destroying: multiset<nat>
    var conns: map<nat, Conn>
    ghost var destroyed: multiset<nat>

    ghost function Abs(): Server
      requires nextConnId >= 1
      reads this
    {
      Server(name, hostPort, nextConnId - 1, conns, connMap, removing, destroying, destroyed)
    }

    /** Every connection is disposed of at most once, after its close; and while no two names are
        equal, exactly once. */
    ghost predicate Valid()
      reads this
    {
      nextConnId >= 1 && Abs().Inv() && (NamesDistinct(hostPort, nextConnId - 1) ==> Abs().Complete())
    }

    constructor (name: Text, hostPort: Text)
      ensures Valid() && Abs() == Start(name, hostPort)
    {
      this.name := name;
      this.hostPort := hostPort;
      nextConnId := 1;
      connMap := map[];
      destroying, removing, destroyed := multiset{}, multiset{}, multiset{};
      conns := map[];
    }

    method NewConn() returns (connName: Text)
      requires Valid()
      modifies this
      ensures Valid() && Abs() == MoveStep(old(Abs()), Move.NewConn)
      ensures connName in connMap && connMap[connName] == old(nextConnId)
      ensures SuffixFits(hostPort, old(nextConnId)) ==> connName == name + ([COLON] + hostPort + [HASH] + Decimal(old(nextConnId)))
      ensures name <= connName && |connName| <= |name| + SUFFIX_ROOM
    {
      MoveKeepsLaws(Abs(), Move.NewConn);
      var full := [COLON] + hostPort + [HASH] + Decimal(nextConnId);
      var buf := if |full| <= SUFFIX_ROOM then full else full[..SUFFIX_ROOM];
      connName := name + buf;
      connMap := connMap[connName := nextConnId];
      conns := conns[nextConnId := FRESH];
      nextConnId := nextConnId + 1;
    }

    /** Some event on a connection; a close calls back remove_conn, which queues a functor. */
    method OnConn(id: nat, e: Event)
      requires Valid() && MovePossible(Abs(), Move.OnConn(id, e))
      modifies this
      ensures Valid() && Abs() == MoveStep(old(Abs()), Move.OnConn(id, e))
    {
      MoveKeepsLaws(Abs(), Move.OnConn(id, e));
      var before, after := conns[id], Step(conns[id], e);
      conns := conns[id := after];
      if after.closes > before.closes {
        RemoveConn(id);
      }
    }

    method RemoveConn(id: nat)
      modifies this`removing
      ensures removing == old(removing) + multiset{id}
    {
      removing := removing + multiset{id};
    }

    /** remove_conn_in_loop for a connection whose close callback queued it: it is handed over for
        destruction only if its name was still in the map. */
    method RemoveConnInLoop(id: nat)
      requires Valid() && id in removing
      modifies this
      ensures Valid() && Abs() == MoveStep(old(Abs()), RemoveInLoop(id))
    {
      MoveKeepsLaws(Abs(), RemoveInLoop(id));
      removing := removing - multiset{id};
      var connName := name + Suffix(hostPort, id);
      if connName !in connMap {
        return;
      }
      connMap := connMap - {connName};
      destroying := destroying + multiset{id};
    }

    /** The connection's loop runs conn_destroyed. */
    method DestroyConn(id: nat)
      requires Valid() && MovePossible(Abs(), Move.DestroyConn(id))
      modifies this
      ensures Valid() && Abs() == MoveStep(old(Abs()), Move.DestroyConn(id))
    {
      MoveKeepsLaws(Abs(), Move.DestroyConn(id));
      destroying := destroying - multiset{id};
      destroyed := destroyed + multiset{id};
      conns := conns[id := conns[id].Destroy()];
    }
  }

  lemma MoveKeepsLaws(s: Server, m: Move)
    requires s.Inv() && MovePossible(s, m) && (NamesDistinct(s.hostPort, s.made) ==> s.Complete())
    ensures MoveStep(s, m).Inv() && (NamesDistinct(s.hostPort, MoveStep(s, m).made) ==> MoveStep(s, m).Complete())
  {
    MoveKeepsInv(s, m);
    if NamesDistinct(s.hostPort, MoveStep(s, m).made) {
      assert forall i: nat, j: nat :: 1 <= i < j <= s.made ==> Suffix(s.hostPort, i) != Suffix(s.hostPort, j);
      MoveKeepsComplete(s, m);
    }
  }
}
