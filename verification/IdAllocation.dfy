/** server/src/service/user_manager.cpp, addUser and addGroup: how an id is allocated when several
    threads register at once.

    A call increments the counter, loads it into the INSERT statement, executes that, and then
    loads the counter a third time for the cached user; only the cache itself is locked. Each of
    the four is one step, and any interleaving is a run. The table refuses an id it holds. */
module IdAllocations {

  /** How far a call has come. */
  datatype Pc = Incremented | Loaded(id: int) | Inserted(id: int)

  /** A call that has succeeded: the account it made, the id it cached, and whether another call
      incremented the counter between its two loads. */
  datatype Call = Call(inserted: int, cached: int, overtaken: bool)

  datatype State = State(
    counter: int,              // base_user_id_ or base_group_id_
    calls: map<nat, Pc>,       // calls under way, by thread
    accounts: set<int>,        // ids in t_user
    overtaken: set<nat>,       // history: threads during whose calls the counter moved on
    done: seq<Call>            // history: calls that succeeded
  )

  function Start(counter: int, accounts: set<int>): State {
    State(counter, map[], accounts, {}, [])
  }

  datatype Step = Increment(t: nat) | Load(t: nat) | Execute(t: nat, accepts: bool) | Cache(t: nat)

  predicate Possible(s: State, e: Step) {
    match e
    case Increment(t) => t !in s.calls
    case Load(t) => t in s.calls && s.calls[t] == Incremented
    case Execute(t, _) => t in s.calls && s.calls[t].Loaded?
    case Cache(t) => t in s.calls && s.calls[t].Inserted?
  }

  function Do(s: State, e: Step): State
    requires Possible(s, e)
  {
    match e
    case Increment(t) =>
      s.(counter := s.counter + 1, calls := s.calls[t := Incremented],
         overtaken := s.overtaken + set u | u in s.calls && s.calls[u] != Incremented)
    case Load(t) => s.(calls := s.calls[t := Loaded(s.counter)], overtaken := s.overtaken - {t})
    case Execute(t, accepts) =>
      var id := s.calls[t].id;
      if accepts && id !in s.accounts then s.(accounts := s.accounts + {id}, calls := s.calls[t := Inserted(id)])
      else s.(calls := s.calls - {t})
    case Cache(t) =>
      s.(calls := s.calls - {t}, done := s.done + [Call(s.calls[t].id, s.counter, t in s.overtaken)])
  }

  // ----- what every step keeps ---------------------------------------------

  /** The counter has moved on from what a call loaded exactly if the call was overtaken. */
  ghost predicate CallOk(s: State, t: nat)
    requires t in s.calls
  {
    s.calls[t] != Incremented ==> s.calls[t].id <= s.counter && (t in s.overtaken <==> s.calls[t].id < s.counter)
  }

  predicate DoneOk(c: Call) {
    c.inserted <= c.cached && (c.overtaken <==> c.inserted < c.cached)
  }

  /** Some call made this account. */
  ghost predicate MadeBy(s: State, id: int) {
    || (exists i :: 0 <= i < |s.done| && s.done[i].inserted == id)
    || (exists t :: t in s.calls && s.calls[t] == Inserted(id))
  }

  /** Every new account was made by a call, and no two calls made the same. */
  ghost predicate AccountsOk(s: State, initial: set<int>) {
    && (forall id :: id in s.accounts <==> id in initial || MadeBy(s, id))
    && (forall id :: id in initial ==> !MadeBy(s, id))
    && (forall i, j :: 0 <= i < j < |s.done| ==> s.done[i].inserted != s.done[j].inserted)
    && (forall i, t :: 0 <= i < |s.done| && t in s.calls && s.calls[t].Inserted? ==> s.done[i].inserted != s.calls[t].id)
    && (forall t, u :: t in s.calls && u in s.calls && t != u && s.calls[t].Inserted? ==> s.calls[t] != s.calls[u])
  }

  ghost predicate CallsOk(s: State) {
    (forall t :: t in s.calls ==> CallOk(s, t)) && (forall i :: 0 <= i < |s.done| ==> DoneOk(s.done[i]))
  }

  lemma StepKeepsCalls(s: State, e: Step)
    requires CallsOk(s) && Possible(s, e)
    ensures CallsOk(Do(s, e))
  {
    var s' := Do(s, e);
    forall t | t in s'.calls ensures CallOk(s', t) {
      if t in s.calls { assert CallOk(s, t); }
    }
    if e.Cache? { assert CallOk(s, e.t); }
  }

  /** The calls that made accounts, after the step. */
  lemma StepMakes(s: State, e: Step, id: int)
    requires Possible(s, e)
    ensures MadeBy(Do(s, e), id) <==>
              MadeBy(s, id) || (e.Execute? && e.accepts && id == s.calls[e.t].id && id !in s.accounts)
  {
    var s' := Do(s, e);
    if e.Cache? {
      assert s'.done[|s.done|].inserted == s.calls[e.t].id;
    }
    if i :| 0 <= i < |s.done| && s.done[i].inserted == id {
      assert s'.done[i].inserted == id;
    } else if t :| t in s.calls && s.calls[t] == Inserted(id) {
      if !(e.Cache? && e.t == t) { assert t in s'.calls && s'.calls[t] == Inserted(id); }
    }
    if e.Execute? && e.accepts && id == s.calls[e.t].id && id !in s.accounts {
      assert s'.calls[e.t] == Inserted(id);
    }
  }

  lemma StepKeepsAccounts(s: State, e: Step, initial: set<int>)
    requires AccountsOk(s, initial) && Possible(s, e)
    ensures AccountsOk(Do(s, e), initial)
  {
    forall id ensures MadeBy(Do(s, e), id) <==>
                        MadeBy(s, id) || (e.Execute? && e.accepts && id == s.calls[e.t].id && id !in s.accounts) {
      StepMakes(s, e, id);
    }
    if e.Execute? {
      assert MadeBy(s, s.calls[e.t].id) ==> s.calls[e.t].id in s.accounts;
    }
  }

  ghost predicate PossibleRun(s: State, es: seq<Step>)
    decreases |es|
  {
    es != [] ==> Possible(s, es[0]) && PossibleRun(Do(s, es[0]), es[1..])
  }

  ghost function Run(s: State, es: seq<Step>): State
    requires PossibleRun(s, es)
    decreases |es|
  {
    if es == [] then s else Run(Do(s, es[0]), es[1..])
  }

  lemma {:induction false} RunKeeps(s: State, es: seq<Step>, initial: set<int>)
    requires CallsOk(s) && AccountsOk(s, initial) && PossibleRun(s, es)
    ensures CallsOk(Run(s, es)) && AccountsOk(Run(s, es), initial)
    decreases |es|
  {
    if es != [] {
      StepKeepsCalls(s, es[0]);
      StepKeepsAccounts(s, es[0], initial);
      RunKeeps(Do(s, es[0]), es[1..], initial);
    }
  }

  // ----- the theorems ------------------------------------------------------

  function InsertedIds(cs: seq<Call>): seq<int> {
    if |cs| == 0 then [] else InsertedIds(cs[..|cs| - 1]) + [cs[|cs| - 1].inserted]
  }

  function CachedIds(cs: seq<Call>): seq<int> {
    if |cs| == 0 then [] else CachedIds(cs[..|cs| - 1]) + [cs[|cs| - 1].cached]
  }

  ghost predicate NoneOvertaken(cs: seq<Call>) {
    forall i :: 0 <= i < |cs| ==> !cs[i].overtaken
  }

  function Sum(xs: seq<int>): int {
    if |xs| == 0 then 0 else Sum(xs[..|xs| - 1]) + xs[|xs| - 1]
  }

  lemma {:induction false} SumWithout(xs: seq<int>, i: nat)
    requires i < |xs|
    ensures Sum(xs[..i] + xs[i + 1..]) == Sum(xs) - xs[i]
    decreases |xs|
  {
    var n := |xs| - 1;
    var rest := xs[..i] + xs[i + 1..];
    if i == n {
      assert rest == xs[..n];
    } else {
      var front := xs[..n];
      SumWithout(front, i);
      assert rest[..n - 1] == front[..i] + front[i + 1..] && rest[n - 1] == xs[n];
    }
  }

  lemma {:induction false} SameMembersSameSum(xs: seq<int>, ys: seq<int>)
    requires multiset(xs) == multiset(ys)
    ensures Sum(xs) == Sum(ys)
    decreases |xs|
  {
    assert |multiset(xs)| == |xs| && |multiset(ys)| == |ys|;
    if |xs| > 0 {
      var n := |xs| - 1;
      assert xs[n] in multiset(xs);
      assert xs[n] in multiset(ys);
      var i :| 0 <= i < |ys| && ys[i] == xs[n];
      SumWithout(ys, i);
      TakeOut(xs, n);
      TakeOut(ys, i);
      assert xs[..n] + xs[n + 1..] == xs[..n];
      SameMembersSameSum(xs[..n], ys[..i] + ys[i + 1..]);
    }
  }

  lemma TakeOut(xs: seq<int>, i: nat)
    requires i < |xs|
    ensures multiset(xs[..i] + xs[i + 1..]) == multiset(xs) - multiset{xs[i]}
  {
    assert xs == xs[..i] + [xs[i]] + xs[i + 1..];
  }

  lemma NoneOvertakenSnoc(front: seq<Call>, c: Call)
    ensures NoneOvertaken(front + [c]) <==> NoneOvertaken(front) && !c.overtaken
  {
    var cs := front + [c];
    assert cs[|front|] == c;
    if NoneOvertaken(cs) {
      forall i | 0 <= i < |front| ensures !front[i].overtaken {
        assert cs[i] == front[i];
      }
    }
  }

  lemma IdsSnoc(front: seq<Call>, c: Call)
    ensures CachedIds(front + [c]) == CachedIds(front) + [c.cached]
    ensures InsertedIds(front + [c]) == InsertedIds(front) + [c.inserted]
  {
    assert (front + [c])[..|front|] == front;
  }

  /** Cached ids are never below inserted ones, so any difference shows in the sum. */
  lemma {:induction false} SumsTell(cs: seq<Call>)
    requires forall i :: 0 <= i < |cs| ==> DoneOk(cs[i])
    ensures Sum(CachedIds(cs)) >= Sum(InsertedIds(cs))
    ensures Sum(CachedIds(cs)) == Sum(InsertedIds(cs)) ==> NoneOvertaken(cs)
    ensures NoneOvertaken(cs) ==> CachedIds(cs) == InsertedIds(cs)
  {
    if |cs| > 0 {
      var n := |cs| - 1;
      var front, c := cs[..n], cs[n];
      assert cs == front + [c] && DoneOk(c);
      SumsTell(front);
      IdsSnoc(front, c);
      NoneOvertakenSnoc(front, c);
      SumSnoc(CachedIds(front), c.cached);
      SumSnoc(InsertedIds(front), c.inserted);
    }
  }

  lemma SumSnoc(xs: seq<int>, x: int)
    ensures Sum(xs + [x]) == Sum(xs) + x
  {
    assert (xs + [x])[..|xs|] == xs;
  }

  /** In every run, however the calls interleave: the ids cached are the ids inserted, each as
      often, if and only if no call that succeeded saw the counter incremented by another between
      its INSERT and its last look at it. One that did caches a larger id than it inserted. */
  lemma CachedIsInsertedIff(counter: int, accounts: set<int>, es: seq<Step>)
    requires PossibleRun(Start(counter, accounts), es)
    ensures var done := Run(Start(counter, accounts), es).done;
            && (multiset(CachedIds(done)) == multiset(InsertedIds(done)) <==> NoneOvertaken(done))
            && (forall i :: 0 <= i < |done| ==> DoneOk(done[i]))
  {
    RunKeeps(Start(counter, accounts), es, accounts);
    var done := Run(Start(counter, accounts), es).done;
    SumsTell(done);
    if multiset(CachedIds(done)) == multiset(InsertedIds(done)) {
      SameMembersSameSum(CachedIds(done), InsertedIds(done));
    }
  }

  /** The accounts, at least, never clash: when no call is under way, the new ones are exactly those
      of the calls that succeeded, one each. */
  lemma EveryCallItsAccount(counter: int, accounts: set<int>, es: seq<Step>, id: int)
    requires PossibleRun(Start(counter, accounts), es) && Run(Start(counter, accounts), es).calls == map[]
    ensures var s := Run(Start(counter, accounts), es);
            && (id in s.accounts && id !in accounts <==> exists i :: 0 <= i < |s.done| && s.done[i].inserted == id)
            && (forall i, j :: 0 <= i < j < |s.done| ==> s.done[i].inserted != s.done[j].inserted)
  {
    RunKeeps(Start(counter, accounts), es, accounts);
    var s := Run(Start(counter, accounts), es);
    assert MadeBy(s, id) <==> exists i :: 0 <= i < |s.done| && s.done[i].inserted == id;
  }

  lemma RunCons(s: State, e: Step, t: State, es: seq<Step>, all: seq<Step>)
    requires all == [e] + es && Possible(s, e) && Do(s, e) == t && PossibleRun(t, es)
    ensures PossibleRun(s, all) && Run(s, all) == Run(t, es)
  {
    assert all[1..] == es;
  }

  /** The other case does occur: thread 1 inserts its id, thread 2 increments, thread 1 caches the
      id of thread 2, and so does thread 2. Two cached users share an id and an account has none. */
  lemma TwoCallsMayCacheOneId(c: int)
    ensures var es := [Increment(1), Load(1), Execute(1, true), Increment(2), Cache(1), Load(2), Execute(2, true), Cache(2)];
            && PossibleRun(Start(c, {}), es)
            && var s := Run(Start(c, {}), es);
               s.calls == map[] && s.accounts == {c + 1, c + 2} && CachedIds(s.done) == [c + 2, c + 2]
  {
    var e0, e1, e2, e3 := Increment(1), Load(1), Execute(1, true), Increment(2);
    var e4, e5, e6, e7 := Cache(1), Load(2), Execute(2, true), Cache(2);
    var d1, d2 := Call(c + 1, c + 2, true), Call(c + 2, c + 2, false);
    var s3 := State(c + 1, map[1 := Inserted(c + 1)], {c + 1}, {}, []);
    var s5 := State(c + 2, map[2 := Incremented], {c + 1}, {1}, [d1]);
    var s8 := State(c + 2, map[], {c + 1, c + 2}, {1}, [d1, d2]);
    SecondCall(s5, s8, d1, d2);
    Overtake(c, s3, s5, [e5, e6, e7]);
    FirstCall(c, s3, [e3, e4] + [e5, e6, e7]);
    assert [e0, e1, e2, e3, e4, e5, e6, e7] == [e0, e1, e2] + ([e3, e4] + [e5, e6, e7]);
    TwoCached(d1, d2);
  }

  lemma TwoCached(d1: Call, d2: Call)
    ensures CachedIds([d1, d2]) == [d1.cached, d2.cached]
  {
    assert [d1, d2] == [d1] + [d2] && [d1] == [] + [d1];
    IdsSnoc([], d1);
    IdsSnoc([d1], d2);
  }

  lemma Overtake(c: int, s3: State, s5: State, es: seq<Step>)
    requires s3 == State(c + 1, map[1 := Inserted(c + 1)], {c + 1}, {}, [])
    requires s5 == State(c + 2, map[2 := Incremented], {c + 1}, {1}, [Call(c + 1, c + 2, true)]) && PossibleRun(s5, es)
    ensures var all := [Increment(2), Cache(1)] + es; PossibleRun(s3, all) && Run(s3, all) == Run(s5, es)
  {
    var s4 := State(c + 2, map[1 := Inserted(c + 1), 2 := Incremented], {c + 1}, {1}, []);
    assert Do(s3, Increment(2)) == s4;
    assert Do(s4, Cache(1)) == s5;
    RunCons(s4, Cache(1), s5, es, [Cache(1)] + es);
    RunCons(s3, Increment(2), s4, [Cache(1)] + es, [Increment(2), Cache(1)] + es);
  }

  lemma FirstCall(c: int, s3: State, es: seq<Step>)
    requires s3 == State(c + 1, map[1 := Inserted(c + 1)], {c + 1}, {}, []) && PossibleRun(s3, es)
    ensures var all := [Increment(1), Load(1), Execute(1, true)] + es;
            PossibleRun(Start(c, {}), all) && Run(Start(c, {}), all) == Run(s3, es)
  {
    var e0, e1, e2 := Increment(1), Load(1), Execute(1, true);
    var s1 := State(c + 1, map[1 := Incremented], {}, {}, []);
    var s2 := State(c + 1, map[1 := Loaded(c + 1)], {}, {}, []);
    assert Do(Start(c, {}), e0) == s1;
    assert Do(s1, e1) == s2;
    assert Do(s2, e2) == s3;
    RunCons(s2, e2, s3, es, [e2] + es);
    RunCons(s1, e1, s2, [e2] + es, [e1, e2] + es);
    RunCons(Start(c, {}), e0, s1, [e1, e2] + es, [e0, e1, e2] + es);
  }

  lemma SecondCall(s5: State, s8: State, d1: Call, d2: Call)
    requires s5.calls == map[2 := Incremented] && s5.counter !in s5.accounts && 2 !in s5.overtaken && s5.done == [d1]
    requires d2 == Call(s5.counter, s5.counter, false)
    requires s8 == s5.(calls := map[], accounts := s5.accounts + {s5.counter}, done := [d1, d2])
    ensures PossibleRun(s5, [Load(2), Execute(2, true), Cache(2)]) && Run(s5, [Load(2), Execute(2, true), Cache(2)]) == s8
  {
    var e5, e6, e7 := Load(2), Execute(2, true), Cache(2);
    var s6 := s5.(calls := map[2 := Loaded(s5.counter)]);
    var s7 := s6.(calls := map[2 := Inserted(s5.counter)], accounts := s8.accounts);
    RunCons(s7, e7, s8, [], [e7]);
    RunCons(s6, e6, s7, [e7], [e6, e7]);
    RunCons(s5, e5, s6, [e6, e7], [e5, e6, e7]);
  }
}
