/** server/src/network/epoll_poller.cpp and channel.cpp: registration of channels.

    Three records must agree: the index kept in each channel, the poller's map from file
    descriptor to channel, and the kernel's interest set. `Registry` is their common value,
    with the laws over every run of channel operations; `Channel` and `EpollPoller` are the
    classes, each method proved to act as the corresponding function of `Registry`. */
module Polling {

  datatype Index = New | Added | Deleted

  /** The interest mask: POLLIN|POLLPRI are always set and cleared together. */
  datatype Mask = Mask(read: bool, write: bool)
  {
    predicate None() { !read && !write }
  }

  const NO_EVENTS := Mask(false, false)

  datatype Chan = Chan(fd: int, mask: Mask, index: Index)

  datatype Ctl = Add | Mod | Del

  type Kernel<K> = map<int, (K, Mask)>

  /** epoll_ctl. ADD of a present descriptor and MOD or DEL of an absent one are errors; the
      kernel may also refuse an ADD or a MOD for reasons of its own. */
  function EpollCtl<K>(kernel: Kernel<K>, op: Ctl, fd: int, k: K, mask: Mask, refuse: bool): (r: (Kernel<K>, bool)) {
    match op
    case Add => if fd in kernel || refuse then (kernel, false) else (kernel[fd := (k, mask)], true)
    case Mod => if fd !in kernel || refuse then (kernel, false) else (kernel[fd := (k, mask)], true)
    case Del => if fd !in kernel then (kernel, false) else (kernel - {fd}, true)
  }

  /** `faulty` collects the channels for which the kernel refused an ADD or MOD since they were
      last new, and `absent` those whose ADD it refused; both are history, nothing reads them. */
  datatype Registry<!K(==)> = Registry(
    chans: map<K, Chan>, table: map<int, K>, kernel: Kernel<K>, faulty: set<K>, absent: set<K>)
  {
    /** The three records agree. */
    ghost predicate Agree() {
      && (forall fd :: fd in table ==> Mapped(fd))
      && (forall fd :: fd in kernel ==> Registered(fd))
      && (forall k :: k in chans ==> ChannelAgrees(k))
    }

    ghost predicate Mapped(fd: int)
      requires fd in table
    {
      var k := table[fd];
      k in chans && chans[k].fd == fd && chans[k].index != New
    }

    ghost predicate Registered(fd: int)
      requires fd in kernel
    {
      var k := kernel[fd].0;
      && k in chans && chans[k].fd == fd && chans[k].index == Added
      && (k !in faulty ==> kernel[fd].1 == chans[k].mask)
    }

    /** New: not mapped. Added: mapped, and registered unless the kernel refused the ADD, with the
        current mask unless it refused anything. Deleted: mapped, no events, not registered. */
    ghost predicate ChannelAgrees(k: K)
      requires k in chans
    {
      var c := chans[k];
      match c.index
      case New => !(c.fd in table && table[c.fd] == k)
      case Added =>
        && c.fd in table && table[c.fd] == k
        && (k !in absent <==> c.fd in kernel && kernel[c.fd].0 == k)
        && (k !in faulty ==> k !in absent && kernel[c.fd].1 == c.mask)
      case Deleted => c.fd in table && table[c.fd] == k && c.mask.None() && c.fd !in kernel
    }

    /** The epoll_ctl call that update_channel would issue now, if any. */
    function NextCtl(k: K): (op: set<Ctl>)
      requires k in chans
    {
      var c := chans[k];
      match c.index
      case New => if c.fd in table then {} else {Add}
      case Deleted => if c.fd in table && table[c.fd] == k then {Add} else {}
      case Added =>
        if !(c.fd in table && table[c.fd] == k) then {} else if c.mask.None() then {Del} else {Mod}
    }

    function Control(op: Ctl, k: K, refuse: bool): (r: (Registry<K>, bool))
      requires k in chans
    {
      var c := chans[k];
      var (kernel', ok) := EpollCtl(kernel, op, c.fd, k, c.mask, refuse);
      (this.(kernel := kernel',
             faulty := if refuse && op != Del then faulty + {k} else faulty,
             absent := if refuse && op == Add then absent + {k} else if op == Add then absent - {k} else absent), ok)
    }

    function WithIndex(k: K, index: Index): Registry<K>
      requires k in chans
    {
      this.(chans := chans[k := chans[k].(index := index)])
    }

    /** EpollPoller::update_channel. */
    function Update(k: K, refuse: bool): (r: (Registry<K>, bool))
      requires k in chans
    {
      var c := chans[k];
      if c.index == Added then
        if !(c.fd in table && table[c.fd] == k) then (this, false)
        else if c.mask.None() then
          var (p, ok) := Control(Del, k, refuse);
          if ok then (p.WithIndex(k, Deleted), true) else (p, false)
        else Control(Mod, k, refuse)
      else if c.index == New then
        if c.fd in table then (this, false)
        else this.(table := table[c.fd := k]).WithIndex(k, Added).Control(Add, k, refuse)
      else
        if !(c.fd in table && table[c.fd] == k) then (this, false)
        else WithIndex(k, Added).Control(Add, k, refuse)
    }

    /** Channel::enable_*, disable_* and disable_all: set the mask, then update. */
    function SetMask(k: K, mask: Mask, refuse: bool): (r: (Registry<K>, bool))
      requires k in chans
    {
      this.(chans := chans[k := chans[k].(mask := mask)]).Update(k, refuse)
    }

    /** Channel::remove and EpollPoller::remove_channel. */
    function Remove(k: K): Registry<K>
      requires k in chans
    {
      var c := chans[k];
      if !(c.fd in table && table[c.fd] == k) || !c.mask.None() || c.index == New then this
      else
        var p := this.(table := table - {c.fd});
        var p' := if c.index == Added then p.Control(Del, k, false).0 else p;
        p'.(chans := p'.chans[k := c.(index := New)], faulty := faulty - {k}, absent := absent - {k})
    }

    /** Construction of a channel. */
    function Open(k: K, fd: int): Registry<K>
      requires k !in chans
    {
      this.(chans := chans[k := Chan(fd, NO_EVENTS, New)], faulty := faulty - {k}, absent := absent - {k})
    }
  }

  /** A change confined to channel k and its descriptor need only be checked there. */
  lemma LocalChange<K>(p: Registry<K>, q: Registry<K>, k: K)
    requires p.Agree() && k in p.chans && k in q.chans
    requires var fd := p.chans[k].fd;
             && q.chans[k].fd == fd && q.chans == p.chans[k := q.chans[k]]
             && q.table - {fd} == p.table - {fd} && q.kernel - {fd} == p.kernel - {fd}
             && q.faulty - {k} == p.faulty - {k} && q.absent - {k} == p.absent - {k}
             && (fd in q.table ==> q.Mapped(fd)) && (fd in q.kernel ==> q.Registered(fd)) && q.ChannelAgrees(k)
             && (fd in p.table && p.table[fd] != k ==> q.table == p.table && q.kernel == p.kernel)
    ensures q.Agree()
  {
    var fd := p.chans[k].fd;
    forall f | f in q.table ensures q.Mapped(f) {
      if f != fd { assert f in q.table - {fd}; assert f in p.table && p.table[f] == q.table[f]; assert p.Mapped(f); }
    }
    forall f | f in q.kernel ensures q.Registered(f) {
      if f != fd { OffDescriptor(p, q, k, f); }
    }
    forall j | j in q.chans ensures q.ChannelAgrees(j) {
      if j != k { OtherChannel(p, q, k, j); }
    }
  }

  lemma OffDescriptor<K>(p: Registry<K>, q: Registry<K>, k: K, f: int)
    requires p.Agree() && k in p.chans && k in q.chans && f in q.kernel && f != p.chans[k].fd
    requires q.chans == p.chans[k := q.chans[k]] && q.faulty - {k} == p.faulty - {k}
    requires q.kernel - {p.chans[k].fd} == p.kernel - {p.chans[k].fd}
    ensures q.Registered(f)
  {
    assert f in q.kernel - {p.chans[k].fd};
    assert f in p.kernel && p.kernel[f] == q.kernel[f];
    assert p.Registered(f);
    var j := p.kernel[f].0;
    assert j != k && (j in q.faulty - {k} <==> j in p.faulty - {k});
  }

  lemma OtherChannel<K>(p: Registry<K>, q: Registry<K>, k: K, j: K)
    requires p.Agree() && k in p.chans && k in q.chans && j in p.chans && j != k
    requires var fd := p.chans[k].fd;
             && q.chans == p.chans[k := q.chans[k]]
             && q.table - {fd} == p.table - {fd} && q.kernel - {fd} == p.kernel - {fd}
             && q.faulty - {k} == p.faulty - {k} && q.absent - {k} == p.absent - {k}
             && (fd in q.table ==> q.Mapped(fd)) && (fd in q.kernel ==> q.Registered(fd)) && q.ChannelAgrees(k)
             && (fd in p.table && p.table[fd] != k ==> q.table == p.table && q.kernel == p.kernel)
    ensures q.ChannelAgrees(j)
  {
    var fd := p.chans[k].fd;
    var f := p.chans[j].fd;
    assert p.ChannelAgrees(j);
    assert j in q.faulty - {k} <==> j in p.faulty - {k};
    assert j in q.absent - {k} <==> j in p.absent - {k};
    if f != fd {
      assert f in q.table - {fd} <==> f in p.table - {fd};
      assert f in q.table - {fd} ==> (q.table - {fd})[f] == (p.table - {fd})[f];
      assert f in q.kernel - {fd} <==> f in p.kernel - {fd};
      assert f in q.kernel - {fd} ==> (q.kernel - {fd})[f] == (p.kernel - {fd})[f];
    }
  }

  lemma SetMaskKeepsAgreement<K>(p: Registry<K>, k: K, mask: Mask, refuse: bool)
    requires p.Agree() && k in p.chans
    ensures p.SetMask(k, mask, refuse).0.Agree()
  {
    var q := p.SetMask(k, mask, refuse).0;
    var fd := p.chans[k].fd;
    assert p.ChannelAgrees(k);
    if fd in p.table { assert p.Mapped(fd); }
    if fd in p.kernel { assert p.Registered(fd); assert p.ChannelAgrees(p.kernel[fd].0); }
    LocalChange(p, q, k);
  }

  lemma RemoveKeepsAgreement<K>(p: Registry<K>, k: K)
    requires p.Agree() && k in p.chans
    ensures p.Remove(k).Agree()
    ensures p.chans[k].mask.None() ==> forall fd :: fd in p.Remove(k).table ==> p.Remove(k).table[fd] != k
  {
    var q := p.Remove(k);
    var fd := p.chans[k].fd;
    assert p.ChannelAgrees(k);
    if fd in p.table { assert p.Mapped(fd); }
    if fd in p.kernel { assert p.Registered(fd); assert p.ChannelAgrees(p.kernel[fd].0); }
    LocalChange(p, q, k);
    forall f | f in q.table && p.chans[k].mask.None() ensures q.table[f] != k { assert p.Mapped(f); }
  }

  lemma OpenKeepsAgreement<K>(p: Registry<K>, k: K, fd: int)
    requires p.Agree() && k !in p.chans
    ensures p.Open(k, fd).Agree()
  {
    var q := p.Open(k, fd);
    forall f | f in q.table ensures q.Mapped(f) { assert p.Mapped(f); }
    forall f | f in q.kernel ensures q.Registered(f) { assert p.Registered(f); }
    forall j | j in q.chans ensures q.ChannelAgrees(j) {
      if j != k { assert p.ChannelAgrees(j); } else if fd in p.table { assert p.Mapped(fd); }
    }
  }

  // ----- runs --------------------------------------------------------------

  datatype Call<K> =
    | Create(k: K, fd: int)
    | Set(k: K, mask: Mask, refuse: bool)
    | Drop(k: K)

  /** One call on some channel; calls that name no existing channel do nothing. */
  function Perform<K>(p: Registry<K>, call: Call<K>): Registry<K> {
    match call
    case Create(k, fd) => if k in p.chans then p else p.Open(k, fd)
    case Set(k, mask, refuse) => if k in p.chans then p.SetMask(k, mask, refuse).0 else p
    case Drop(k) => if k in p.chans then p.Remove(k) else p
  }

  function PerformAll<K>(p: Registry<K>, calls: seq<Call<K>>): Registry<K>
    decreases |calls|
  {
    if calls == [] then p else PerformAll(Perform(p, calls[0]), calls[1..])
  }

  /** After any sequence of create, enable, disable and remove calls, whatever the kernel
      refuses, index, map and interest set agree. */
  lemma {:induction false} RunsKeepAgreement<K>(p: Registry<K>, calls: seq<Call<K>>)
    requires p.Agree()
    ensures PerformAll(p, calls).Agree()
    decreases |calls|
  {
    if calls != [] {
      PerformKeepsAgreement(p, calls[0]);
      RunsKeepAgreement(Perform(p, calls[0]), calls[1..]);
    }
  }

  lemma PerformKeepsAgreement<K>(p: Registry<K>, call: Call<K>)
    requires p.Agree()
    ensures Perform(p, call).Agree()
  {
    match call {
      case Create(k, fd) => if k !in p.chans { OpenKeepsAgreement(p, k, fd); }
      case Set(k, mask, refuse) => if k in p.chans { SetMaskKeepsAgreement(p, k, mask, refuse); }
      case Drop(k) => if k in p.chans { RemoveKeepsAgreement(p, k); }
    }
  }

  /** Where the kernel never refuses on its own account, no channel is ever faulty, so every
      added channel is registered with exactly its current mask. */
  lemma {:induction false} WithoutRefusalsAddedMeansRegistered<K>(p: Registry<K>, calls: seq<Call<K>>, k: K)
    requires p.Agree() && p.faulty == {}
    requires forall i :: 0 <= i < |calls| && calls[i].Set? ==> !calls[i].refuse
    requires k in PerformAll(p, calls).chans
    ensures var q := PerformAll(p, calls);
            var c := q.chans[k];
            q.faulty == {} && (c.index == Added <==> c.fd in q.kernel && q.kernel[c.fd] == (k, c.mask))
    decreases |calls|
  {
    if calls == [] {
      assert p.ChannelAgrees(k);
      if p.chans[k].fd in p.kernel { assert p.Registered(p.chans[k].fd); }
    } else {
      PerformKeepsAgreement(p, calls[0]);
      WithoutRefusalsAddedMeansRegistered(Perform(p, calls[0]), calls[1..], k);
    }
  }

  /** In an agreeing state the control operation that update_channel chooses suits the kernel: ADD
      never finds the descriptor present, and MOD and DEL find it absent exactly for a channel
      whose ADD the kernel refused. So the call succeeds, where the kernel does not refuse it,
      exactly when there is a control to issue that is not of this kind. */
  lemma ControlSurprisedIff<K>(p: Registry<K>, k: K, mask: Mask)
    requires p.Agree() && k in p.chans
    ensures var q := p.(chans := p.chans[k := p.chans[k].(mask := mask)]);
            var fd := p.chans[k].fd;
            && (Add in q.NextCtl(k) ==> fd !in p.kernel)
            && (Mod in q.NextCtl(k) || Del in q.NextCtl(k) ==> (fd !in p.kernel <==> k in p.absent))
            && (fd in p.kernel && q.NextCtl(k) != {} ==> p.kernel[fd].0 == k)
            && (p.SetMask(k, mask, false).1 <==> Add in q.NextCtl(k) || (q.NextCtl(k) != {} && k !in p.absent))
  {
    var fd := p.chans[k].fd;
    assert p.ChannelAgrees(k);
    if fd in p.kernel { assert p.Registered(fd); assert p.ChannelAgrees(p.kernel[fd].0); }
  }

  /** That does occur: enabling a channel whose first registration the kernel refused asks the
      kernel to modify a descriptor it does not know, and keeps failing. */
  lemma RefusedAddStaysAbsent<K>(p: Registry<K>, k: K, fd: int, mask: Mask, again: Mask)
    requires p.Agree() && k !in p.chans && fd !in p.table
    ensures var q := p.Open(k, fd).SetMask(k, mask, true).0;
            && q.chans[k].index == Added && k in q.absent && fd !in q.kernel
            && !q.SetMask(k, again, false).1 && q.SetMask(k, again, false).0.chans[k].index == Added
  {
    if fd in p.kernel { RegisteredIsMapped(p, fd); }
  }

  lemma RegisteredIsMapped<K>(p: Registry<K>, fd: int)
    requires p.Agree() && fd in p.kernel
    ensures fd in p.table && p.table[fd] == p.kernel[fd].0
  {
    assert p.Registered(fd);
    assert p.ChannelAgrees(p.kernel[fd].0);
  }

  /** What a successful change does, to the record: a channel that was added and now wants nothing
      leaves the interest set and counts as deleted; any other is in it with exactly the new mask
      and counts as added. No other descriptor and no other channel is touched. */
  lemma SetMaskEffect<K>(p: Registry<K>, k: K, mask: Mask, refuse: bool)
    requires p.Agree() && k in p.chans
    ensures var (q, ok) := p.SetMask(k, mask, refuse);
            var fd := p.chans[k].fd;
            && k in q.chans && q.chans == p.chans[k := q.chans[k]] && q.chans[k].fd == fd && q.chans[k].mask == mask
            && q.kernel - {fd} == p.kernel - {fd} && q.table - {fd} == p.table - {fd}
            && (ok ==> fd in q.table && q.table[fd] == k)
            && (ok && p.chans[k].index == Added && mask.None() ==> q.chans[k].index == Deleted && fd !in q.kernel)
            && (ok && !(p.chans[k].index == Added && mask.None()) ==>
                  q.chans[k].index == Added && fd in q.kernel && q.kernel[fd] == (k, mask) && k !in q.absent)
            && (!ok ==> q.kernel == p.kernel)
  {
    assert p.ChannelAgrees(k);
    if p.chans[k].fd in p.kernel { RegisteredIsMapped(p, p.chans[k].fd); }
  }

  /** Of a channel that is registered: dropping all interest always succeeds, and any other change
      leaves it added and known to the kernel, even one the kernel refuses. */
  lemma RegisteredStays<K>(p: Registry<K>, k: K, mask: Mask, refuse: bool)
    requires p.Agree() && k in p.chans && p.chans[k].index == Added && k !in p.absent
    ensures var (q, ok) := p.SetMask(k, mask, refuse);
            && (mask.None() ==> ok)
            && (!mask.None() ==> q.chans[k].index == Added && k !in q.absent)
  {
    assert p.ChannelAgrees(k);
  }

  /** Every mapped channel is in the interest set exactly if it wants something, and counts as
      deleted exactly if it does not. */
  ghost predicate Interested<K>(p: Registry<K>) {
    forall k :: k in p.chans && p.chans[k].index != New ==> InterestShows(p, k)
  }

  ghost predicate InterestShows<K>(p: Registry<K>, k: K)
    requires k in p.chans
  {
    var c := p.chans[k];
    && (c.fd in p.kernel && p.kernel[c.fd].0 == k <==> !c.mask.None())
    && (c.index == Deleted <==> c.mask.None())
  }

  /** A call that takes all interest from a channel which has none registered: update_channel
      answers it with an ADD. */
  predicate Redundant<K>(p: Registry<K>, call: Call<K>) {
    && call.Set? && call.k in p.chans && call.mask.None()
    && (p.chans[call.k].index == Deleted || (p.chans[call.k].index == New && p.chans[call.k].fd !in p.table))
  }

  lemma PerformInterestedIff<K>(p: Registry<K>, call: Call<K>)
    requires p.Agree() && p.faulty == {} && Interested(p) && (call.Set? ==> !call.refuse)
    ensures Perform(p, call).faulty == {}
    ensures Interested(Perform(p, call)) <==> !Redundant(p, call)
  {
    var q := Perform(p, call);
    if call.k in p.chans {
      var fd := p.chans[call.k].fd;
      assert p.ChannelAgrees(call.k);
      if fd in p.kernel { RegisteredIsMapped(p, fd); }
      if call.Set? { SetMaskInterestedIff(p, call.k, call.mask); }
      if call.Drop? {
        RemoveKeepsAgreement(p, call.k);
        forall j | j in q.chans && q.chans[j].index != New ensures InterestShows(q, j) {
          assert InterestShows(p, j);
          assert p.ChannelAgrees(j);
        }
      }
    } else {
      forall j | j in q.chans && q.chans[j].index != New ensures InterestShows(q, j) {
        assert InterestShows(p, j);
      }
    }
  }

  lemma SetMaskInterestedIff<K>(p: Registry<K>, k: K, mask: Mask)
    requires p.Agree() && p.faulty == {} && Interested(p) && k in p.chans
    ensures Interested(p.SetMask(k, mask, false).0) <==> !Redundant(p, Set(k, mask, false))
  {
    var q := p.SetMask(k, mask, false).0;
    var fd := p.chans[k].fd;
    SetMaskEffect(p, k, mask, false);
    assert p.ChannelAgrees(k);
    forall j | j in q.chans && j != k && q.chans[j].index != New ensures InterestShows(q, j) {
      assert InterestShows(p, j) && p.ChannelAgrees(j);
      OthersShow(p, q, k, j);
    }
    if Redundant(p, Set(k, mask, false)) {
      if fd in p.kernel { RegisteredIsMapped(p, fd); }
      assert !InterestShows(q, k);
    } else if q.chans[k].index != New {
      assert InterestShows(q, k);
    }
  }

  lemma OthersShow<K>(p: Registry<K>, q: Registry<K>, k: K, j: K)
    requires p.Agree() && j in p.chans && k in p.chans && j != k && p.chans[j].index != New && InterestShows(p, j)
    requires k in q.chans && q.chans == p.chans[k := q.chans[k]]
    requires var fd := p.chans[k].fd; q.kernel - {fd} == p.kernel - {fd} && (p.chans[j].fd == fd ==> q.kernel == p.kernel)
    ensures InterestShows(q, j)
  {
    var fd, f := p.chans[k].fd, p.chans[j].fd;
    if f != fd {
      assert f in q.kernel - {fd} <==> f in p.kernel - {fd};
      assert f in q.kernel - {fd} ==> (q.kernel - {fd})[f] == (p.kernel - {fd})[f];
    }
  }

  ghost predicate AlwaysInterested<K>(p: Registry<K>, calls: seq<Call<K>>)
    decreases |calls|
  {
    Interested(p) && (calls != [] ==> AlwaysInterested(Perform(p, calls[0]), calls[1..]))
  }

  ghost predicate NeverRedundant<K>(p: Registry<K>, calls: seq<Call<K>>)
    decreases |calls|
  {
    calls != [] ==> !Redundant(p, calls[0]) && NeverRedundant(Perform(p, calls[0]), calls[1..])
  }

  /** Where the kernel never refuses: throughout a run, a mapped channel is in the interest set
      exactly if it wants something, if and only if no call of the run takes all interest from a
      channel that has none registered. */
  lemma {:induction false} RegisteredIffInterestedIff<K>(p: Registry<K>, calls: seq<Call<K>>)
    requires p.Agree() && p.faulty == {} && Interested(p)
    requires forall i :: 0 <= i < |calls| && calls[i].Set? ==> !calls[i].refuse
    ensures AlwaysInterested(p, calls) <==> NeverRedundant(p, calls)
    decreases |calls|
  {
    if calls != [] {
      var q := Perform(p, calls[0]);
      PerformInterestedIff(p, calls[0]);
      PerformKeepsAgreement(p, calls[0]);
      if Interested(q) {
        RegisteredIffInterestedIff(q, calls[1..]);
      }
    }
  }

  /** The other case does occur: disabling a channel twice registers it again, wanting nothing. */
  lemma DisablingTwiceRegisters<K>(p: Registry<K>, k: K, fd: int, mask: Mask)
    requires p.Agree() && k !in p.chans && fd !in p.table && !mask.None()
    ensures var q := p.Open(k, fd).SetMask(k, mask, false).0.SetMask(k, NO_EVENTS, false).0;
            var r := q.SetMask(k, NO_EVENTS, false).0;
            && fd !in q.kernel && q.chans[k].index == Deleted
            && fd in r.kernel && r.kernel[fd] == (k, NO_EVENTS) && r.chans[k].index == Added
  {
    if fd in p.kernel { RegisteredIsMapped(p, fd); }
  }

  // ----- the classes -------------------------------------------------------

  class Channel {
    const fd: int
    var mask: Mask
    var index: Index
    var revents: int

    constructor (fd: int)
      ensures this.fd == fd && Value() == Chan(fd, NO_EVENTS, New) && revents == 0
    {
      this.fd := fd;
      mask := NO_EVENTS;
      index := New;
      revents := 0;
    }

    ghost function Value(): Chan
      reads this
    {
      Chan(fd, mask, index)
    }
  }

  class EpollPoller {
    var channels: map<int, Channel>
    var kernel: Kernel<Channel>
    ghost var owned: set<Channel>
    ghost var faulty: set<Channel>
    ghost var absent: set<Channel>

    ghost function Abs(): Registry<Channel>
      reads this, owned
    {
      Registry(map c: Channel | c in owned :: c.Value(), channels, kernel, faulty, absent)
    }

    ghost predicate Valid()
      reads this, owned
    {
      Abs().Agree()
    }

    constructor ()
      ensures Valid() && owned == {} && Abs() == Registry(map[], map[], map[], {}, {})
    {
      channels := map[];
      kernel := map[];
      owned, faulty, absent := {}, {}, {};
    }

    method NewChannel(fd: int) returns (ch: Channel)
      requires Valid()
      modifies this
      ensures Valid() && fresh(ch) && owned == old(owned) + {ch} && ch.Value() == Chan(fd, NO_EVENTS, New)
      ensures Abs() == old(Abs()).Open(ch, fd)
    {
      ch := new Channel(fd);
      ghost var before := Abs();
      owned := owned + {ch};
      faulty, absent := faulty - {ch}, absent - {ch};
      assert Abs().chans == before.chans[ch := ch.Value()];
      OpenKeepsAgreement(before, ch, fd);
    }

    /** _update: one epoll_ctl call with the channel's current mask. */
    method Control(op: Ctl, ch: Channel, refuse: bool) returns (ok: bool)
      requires ch in owned
      modifies this`kernel, this`faulty, this`absent
      ensures (Abs(), ok) == old(Abs()).Control(op, ch, refuse)
    {
      var r := EpollCtl(kernel, op, ch.fd, ch, ch.mask, refuse);
      kernel, ok := r.0, r.1;
      if refuse && op != Del {
        faulty := faulty + {ch};
      }
      if op == Add {
        absent := if refuse then absent + {ch} else absent - {ch};
      }
      assert Abs().chans == old(Abs()).chans;
    }

    method UpdateChannel(ch: Channel, refuse: bool) returns (ok: bool)
      requires ch in owned
      modifies this`channels, this`kernel, this`faulty, this`absent, ch`index
      ensures (Abs(), ok) == old(Abs()).Update(ch, refuse)
    {
      ghost var before := Abs();
      var fd := ch.fd;
      if ch.index == New || ch.index == Deleted {
        if ch.index == New {
          if fd in channels {
            return false;
          }
          channels := channels[fd := ch];
        } else {
          if fd !in channels {
            return false;
          }
          if channels[fd] != ch {
            return false;
          }
        }
        ch.index := Added;
        assert Abs().chans == before.chans[ch := before.chans[ch].(index := Added)];
        ok := Control(Add, ch, refuse);
      } else {
        if fd !in channels || channels[fd] != ch || ch.index != Added {
          return false;
        }
        if ch.mask.None() {
          ok := Control(Del, ch, refuse);
          if ok {
            ghost var middle := Abs();
            ch.index := Deleted;
            assert Abs().chans == middle.chans[ch := middle.chans[ch].(index := Deleted)];
          }
        } else {
          ok := Control(Mod, ch, refuse);
        }
      }
    }

    /** The tail every enable_ and disable_ operation of Channel shares. */
    method SetMask(ch: Channel, mask: Mask, refuse: bool) returns (ok: bool)
      requires Valid() && ch in owned
      modifies this`channels, this`kernel, this`faulty, this`absent, ch`index, ch`mask
      ensures Valid() && ch.mask == mask
      ensures (Abs(), ok) == old(Abs()).SetMask(ch, mask, refuse)
      ensures ok ==> if old(ch.index) == Added && mask.None() then ch.index == Deleted && ch.fd !in kernel
                     else ch.index == Added && ch !in absent && ch.fd in kernel && kernel[ch.fd] == (ch, mask)
      ensures old(ch.index) == Added && ch !in old(absent) ==>
                if mask.None() then ok else ch.index == Added && ch !in absent
    {
      ghost var before := Abs();
      ch.mask := mask;
      assert Abs().chans == before.chans[ch := before.chans[ch].(mask := mask)];
      ok := UpdateChannel(ch, refuse);
      SetMaskKeepsAgreement(before, ch, mask, refuse);
      SetMaskEffect(before, ch, mask, refuse);
      if before.chans[ch].index == Added && ch !in before.absent {
        RegisteredStays(before, ch, mask, refuse);
      }
    }

    method EnableReading(ch: Channel, refuse: bool) returns (ok: bool)
      requires Valid() && ch in owned
      modifies this`channels, this`kernel, this`faulty, this`absent, ch`index, ch`mask
      ensures Valid() && ch.mask == old(ch.mask).(read := true)
      ensures (Abs(), ok) == old(Abs()).SetMask(ch, ch.mask, refuse)
      ensures ok ==> ch.index == Added && ch !in absent && ch.fd in kernel && kernel[ch.fd] == (ch, ch.mask)
      ensures old(ch.index) == Added && ch !in old(absent) ==> ch.index == Added && ch !in absent
    {
      ok := SetMask(ch, ch.mask.(read := true), refuse);
    }

    method EnableWriting(ch: Channel, refuse: bool) returns (ok: bool)
      requires Valid() && ch in owned
      modifies this`channels, this`kernel, this`faulty, this`absent, ch`index, ch`mask
      ensures Valid() && ch.mask == old(ch.mask).(write := true)
      ensures (Abs(), ok) == old(Abs()).SetMask(ch, ch.mask, refuse)
      ensures ok ==> ch.index == Added && ch !in absent && ch.fd in kernel && kernel[ch.fd] == (ch, ch.mask)
      ensures old(ch.index) == Added && ch !in old(absent) ==> ch.index == Added && ch !in absent
    {
      ok := SetMask(ch, ch.mask.(write := true), refuse);
    }

    method DisableReading(ch: Channel, refuse: bool) returns (ok: bool)
      requires Valid() && ch in owned
      modifies this`channels, this`kernel, this`faulty, this`absent, ch`index, ch`mask
      ensures Valid() && ch.mask == old(ch.mask).(read := false)
      ensures (Abs(), ok) == old(Abs()).SetMask(ch, ch.mask, refuse)
      ensures old(ch.index) == Added && ch !in old(absent) ==>
                if ch.mask.None() then ch.index == Deleted && ch.fd !in kernel else ch.index == Added && ch !in absent
    {
      ok := SetMask(ch, ch.mask.(read := false), refuse);
    }

    method DisableWriting(ch: Channel, refuse: bool) returns (ok: bool)
      requires Valid() && ch in owned
      modifies this`channels, this`kernel, this`faulty, this`absent, ch`index, ch`mask
      ensures Valid() && ch.mask == old(ch.mask).(write := false)
      ensures (Abs(), ok) == old(Abs()).SetMask(ch, ch.mask, refuse)
      ensures old(ch.index) == Added && ch !in old(absent) ==>
                if ch.mask.None() then ch.index == Deleted && ch.fd !in kernel else ch.index == Added && ch !in absent
    {
      ok := SetMask(ch, ch.mask.(write := false), refuse);
    }

    method DisableAll(ch: Channel, refuse: bool) returns (ok: bool)
      requires Valid() && ch in owned
      modifies this`channels, this`kernel, this`faulty, this`absent, ch`index, ch`mask
      ensures Valid() && ch.mask == NO_EVENTS
      ensures (Abs(), ok) == old(Abs()).SetMask(ch, NO_EVENTS, refuse)
      ensures old(ch.index) == Added && ch !in old(absent) ==> ok && ch.index == Deleted && ch.fd !in kernel
    {
      ok := SetMask(ch, NO_EVENTS, refuse);
    }

    /** Channel::remove and remove_channel; a channel without events ends in no map entry. */
    method RemoveChannel(ch: Channel)
      requires Valid() && ch in owned
      modifies this`channels, this`kernel, this`faulty, this`absent, ch`index
      ensures Valid() && Abs() == old(Abs()).Remove(ch)
      ensures old(ch.mask).None() ==> ch.index == New && forall fd :: fd in channels ==> channels[fd] != ch
    {
      ghost var before := Abs();
      RemoveKeepsAgreement(before, ch);
      assert before.ChannelAgrees(ch);
      var fd := ch.fd;
      if fd !in channels || channels[fd] != ch || !ch.mask.None() {
        return;
      }
      if ch.index != Added && ch.index != Deleted {
        return;
      }
      Forget(ch);
    }

    /** The removal itself. */
    method Forget(ch: Channel)
      requires ch in owned && ch.fd in channels && channels[ch.fd] == ch && ch.mask.None() && ch.index != New
      modifies this`channels, this`kernel, this`faulty, this`absent, ch`index
      ensures Abs() == old(Abs()).Remove(ch) && ch.index == New
    {
      ghost var before := Abs();
      channels := channels - {ch.fd};
      if ch.index == Added {
        var _ := Control(Del, ch, false);
      }
      ch.index := New;
      faulty, absent := faulty - {ch}, absent - {ch};
      assert Abs().chans == before.chans[ch := before.chans[ch].(index := New)];
    }

    /** _fill_active_channels over what epoll_wait reports: entries of the interest set, each at
        most once. The early return is never taken, so all of them become active, in order. */
    method FillActiveChannels(events: seq<(Channel, int)>) returns (active: seq<Channel>)
      requires Valid()
      requires forall i :: 0 <= i < |events| ==> events[i].0 in owned
      requires forall i :: 0 <= i < |events| ==>
                 events[i].0.fd in kernel && kernel[events[i].0.fd].0 == events[i].0
      requires forall i, j :: 0 <= i < j < |events| ==> events[i].0 != events[j].0
      modifies set i | 0 <= i < |events| :: events[i].0`revents
      ensures Abs() == old(Abs())
      ensures |active| == |events|
      ensures forall i :: 0 <= i < |events| ==> active[i] == events[i].0 && active[i].revents == events[i].1
    {
      active := [];
      var i := 0;
      while i < |events|
        invariant 0 <= i <= |events| && |active| == i
        invariant Abs() == old(Abs())
        invariant forall j :: 0 <= j < i ==> active[j] == events[j].0 && active[j].revents == events[j].1
      {
        var ch := events[i].0;
        assert Abs().Registered(ch.fd) && Abs().ChannelAgrees(ch);
        if ch.fd !in channels || channels[ch.fd] != ch {
          assert false;
        } else {
          ch.revents := events[i].1;
          active := active + [ch];
        }
        i := i + 1;
      }
    }
  }
}
