/** server/src/network/byte_buffer.h: a growable byte buffer with a prepend area.

    `Layout` is the index arithmetic alone (store size, read and write index), with the laws
    that hold over every sequence of operations. `ByteBuffer` is the class that moves bytes in
    place; each method is proved to act on `Contents` as a plain sequence operation and on
    `Shape` as the corresponding function of `Layout`. */
module ByteBuffers {
  import opened Bytes

  const CHEAP_PREPEND: nat := 8
  const INITIAL_SIZE: nat := 1024
  const INITIAL_STORE: nat := CHEAP_PREPEND + INITIAL_SIZE

  datatype Layout = Layout(size: nat, r: nat, w: nat)
  {
    /** What every operation keeps. The read index never reaches the end of the store. */
    predicate Ok() {
      r <= w <= size && r < size && size >= INITIAL_STORE
    }

    function Readable(): nat
      requires Ok()
    {
      w - r
    }

    function Writable(): nat
      requires Ok()
    {
      size - w
    }

    /** The store must be resized: free space on both sides, less the reserve, is short of len. */
    predicate MustGrow(len: nat)
      requires Ok()
    {
      Writable() + r < len + CHEAP_PREPEND
    }

    /** _make_zoom, as bb_bytes_check_writable calls it. */
    function Zoom(len: nat): (l: Layout)
      requires Ok() && Writable() < len
      ensures l.Ok() && l.Readable() == Readable() && l.Writable() >= len && l.size >= size
    {
      if MustGrow(len) then Layout(w + len, r, w)
      else Layout(size, CHEAP_PREPEND, CHEAP_PREPEND + Readable())
    }

    function Reserve(len: nat): (l: Layout)
      requires Ok()
      ensures l.Ok() && l.Readable() == Readable() && l.Writable() >= len && l.size >= size
    {
      if Writable() < len then Zoom(len) else this
    }
  }

  const FRESH_LAYOUT := Layout(INITIAL_STORE, CHEAP_PREPEND, CHEAP_PREPEND)

  datatype Op =
    | Append(n: nat)
    | Reserve(n: nat)
    | Written(n: nat)
    | Unwrite(n: nat)
    | Retrieve(n: nat)
    | RetrieveAll
    | Prepend(n: nat)
    | Shrink(reserve: nat)

  /** The effect of one operation on the indices; refused requests change nothing. */
  function Apply(l: Layout, op: Op): (l': Layout)
    requires l.Ok()
    ensures l'.Ok()
  {
    match op
    case Append(n) => var g := l.Reserve(n); g.(w := g.w + n)
    case Reserve(n) => l.Reserve(n)
    case Written(n) => if n > l.Writable() then l else l.(w := l.w + n)
    case Unwrite(n) => if n > l.Readable() then l else l.(w := l.w - n)
    case Retrieve(n) =>
      if n > l.Readable() then l
      else if n < l.Readable() then l.(r := l.r + n)
      else l.(r := CHEAP_PREPEND, w := CHEAP_PREPEND)
    case RetrieveAll => l.(r := CHEAP_PREPEND, w := CHEAP_PREPEND)
    case Prepend(n) => if n > l.r then l else l.(r := l.r - n)
    case Shrink(reserve) =>
      var g := FRESH_LAYOUT.Reserve(l.Readable() + reserve);
      g.(w := g.w + l.Readable())
  }

  /** Room the operation asks for beyond what is readable. */
  function Requested(op: Op): nat {
    match op
    case Append(n) => n
    case Reserve(n) => n
    case Shrink(reserve) => reserve
    case _ => 0
  }

  ghost predicate Demands(l: Layout, ops: seq<Op>, m: nat)
    requires l.Ok()
    decreases |ops|
  {
    ops != [] ==>
      && l.Readable() + Requested(ops[0]) <= m
      && Demands(Apply(l, ops[0]), ops[1..], m)
  }

  function ApplyAll(l: Layout, ops: seq<Op>): (l': Layout)
    requires l.Ok()
    ensures l'.Ok()
    decreases |ops|
  {
    if ops == [] then l else ApplyAll(Apply(l, ops[0]), ops[1..])
  }

  /** The store grows only for demands beyond its initial room. */
  function StoreLimit(m: nat): nat {
    if m <= INITIAL_SIZE then INITIAL_STORE else 2 * m + 6
  }

  /** In every run whose readable plus requested bytes stay within m, the backing store stays
      within its initial 1032 bytes if m is at most 1024, and within 2m + 6 bytes otherwise. */
  lemma {:induction false} StoreBounded(l: Layout, ops: seq<Op>, m: nat)
    requires l.Ok() && l.size <= StoreLimit(m)
    requires Demands(l, ops, m)
    ensures ApplyAll(l, ops).size <= StoreLimit(m)
    decreases |ops|
  {
    if ops != [] {
      StoreBounded(Apply(l, ops[0]), ops[1..], m);
    }
  }

  /** The limit is exact: for every m some run within that demand ends with a store of this size. */
  lemma StoreBoundAttained(m: nat) returns (ops: seq<Op>)
    ensures Demands(FRESH_LAYOUT, ops, m) && ApplyAll(FRESH_LAYOUT, ops).size == StoreLimit(m)
  {
    if m <= INITIAL_SIZE {
      ops := [];
    } else {
      var o0, o1, o2, o3 := Append(m - 1), Retrieve(m - 2), Unwrite(1), Append(m);
      ops := [o0, o1, o2, o3];
      var l1 := Apply(FRESH_LAYOUT, o0);
      var l2 := Apply(l1, o1);
      var l3 := Apply(l2, o2);
      var l4 := Apply(l3, o3);
      ApplyCons(l3, o3, l4, [], [o3], m);
      ApplyCons(l2, o2, l3, [o3], [o2, o3], m);
      ApplyCons(l1, o1, l2, [o2, o3], [o1, o2, o3], m);
      ApplyCons(FRESH_LAYOUT, o0, l1, [o1, o2, o3], ops, m);
    }
  }

  lemma ApplyCons(l: Layout, op: Op, l': Layout, ops: seq<Op>, all: seq<Op>, m: nat)
    requires l.Ok() && l'.Ok() && all == [op] + ops && Apply(l, op) == l'
    requires l.Readable() + Requested(op) <= m && Demands(l', ops, m)
    ensures Demands(l, all, m) && ApplyAll(l, all) == ApplyAll(l', ops)
  {
    assert all[1..] == ops;
  }

  /** Except for shrinking, which starts from a new store, no operation gives space back. */
  lemma {:induction false} StoreNeverShrinks(l: Layout, ops: seq<Op>)
    requires l.Ok()
    requires forall i :: 0 <= i < |ops| ==> !ops[i].Shrink?
    ensures ApplyAll(l, ops).size >= l.size
    decreases |ops|
  {
    if ops != [] {
      StoreNeverShrinks(Apply(l, ops[0]), ops[1..]);
    }
  }

  /** Eight bytes are free in front after every operation that empties or compacts the buffer, or
      renews its store; no other but prepending and retrieving changes the room in front. */
  lemma RoomInFront(l: Layout, op: Op)
    requires l.Ok()
    ensures op.RetrieveAll? || op.Shrink? || (op.Retrieve? && op.n == l.Readable()) ==> Apply(l, op).r == 8
    ensures op.Append? || op.Reserve? ==>
              Apply(l, op).r == if l.Writable() >= op.n || l.Writable() + l.r < op.n + 8 then l.r else 8
    ensures op.Written? || op.Unwrite? ==> Apply(l, op).r == l.r
    ensures op.Shrink? ==> Apply(l, op).Writable() >= op.reserve && Apply(l, op).Readable() == l.Readable()
    ensures op.Shrink? ==> Apply(l, op).size == if l.Readable() + op.reserve <= 1024 then 1032 else 8 + l.Readable() + op.reserve
  {
  }

  // ----- the store ---------------------------------------------------------

  /** std::copy towards the front of the same store: the ranges may overlap. */
  method MoveDown(a: array<byte>, from: nat, to: nat, dest: nat)
    requires dest <= from <= to <= a.Length
    modifies a
    ensures a[dest..dest + (to - from)] == old(a[from..to])
    ensures a[..dest] == old(a[..dest])
  {
    ghost var was := a[..];
    var i := 0;
    while i < to - from
      invariant 0 <= i <= to - from
      invariant forall k :: 0 <= k < dest ==> a[k] == was[k]
      invariant forall k :: dest <= k < dest + i ==> a[k] == was[k + (from - dest)]
      invariant forall k :: from + i <= k < to ==> a[k] == was[k]
    {
      a[dest + i] := a[from + i];
      i := i + 1;
    }
    MovedBlock(was, a[..], from, to, dest);
  }

  lemma MovedBlock(was: seq<byte>, now: seq<byte>, from: nat, to: nat, dest: nat)
    requires dest <= from <= to <= |was| == |now|
    requires forall k :: 0 <= k < dest ==> now[k] == was[k]
    requires forall k :: dest <= k < dest + (to - from) ==> now[k] == was[k + (from - dest)]
    ensures now[dest..dest + (to - from)] == was[from..to] && now[..dest] == was[..dest]
  {
    forall j | 0 <= j < to - from ensures now[dest..dest + (to - from)][j] == was[from..to][j] {
      assert now[dest + j] == was[dest + j + (from - dest)];
    }
  }

  /** std::copy of outside data into the store. */
  method Store(a: array<byte>, at: nat, data: seq<byte>)
    requires at + |data| <= a.Length
    modifies a
    ensures a[at..at + |data|] == data
    ensures a[..at] == old(a[..at])
    ensures a[at + |data|..] == old(a[at + |data|..])
  {
    var i := 0;
    while i < |data|
      invariant 0 <= i <= |data|
      invariant a[at..at + i] == data[..i]
      invariant a[..at] == old(a[..at])
      invariant a[at + |data|..] == old(a[at + |data|..])
    {
      a[at + i] := data[i];
      i := i + 1;
      assert a[at..at + i] == a[at..at + (i - 1)] + [a[at + (i - 1)]];
    }
  }

  /** The slice from r on, after data was put at w. */
  lemma JoinedSlices(before: seq<byte>, after: seq<byte>, r: nat, w: nat, data: seq<byte>)
    requires r <= w && w + |data| <= |after| == |before|
    requires after[..w] == before[..w] && after[w..w + |data|] == data
    ensures after[r..w + |data|] == before[r..w] + data
  {
    assert after[r..w] == after[..w][r..] && before[r..w] == before[..w][r..];
    assert after[r..w + |data|] == after[r..w] + after[w..w + |data|];
  }

  /** The slice up to w, after data was put at r in front of it. */
  lemma PrependedSlices(before: seq<byte>, after: seq<byte>, r: nat, w: nat, data: seq<byte>)
    requires r + |data| <= w <= |after| == |before|
    requires after[r + |data|..] == before[r + |data|..] && after[r..r + |data|] == data
    ensures after[r..w] == data + before[r + |data|..w]
  {
    var s := r + |data|;
    assert after[s..w] == after[s..][..w - s] && before[s..w] == before[s..][..w - s];
    assert after[r..w] == after[r..s] + after[s..w];
  }

  class ByteBuffer {
    var buffer: array<byte>
    var readIdx: nat
    var writeIdx: nat

    ghost function Shape(): Layout
      reads this
    {
      Layout(buffer.Length, readIdx, writeIdx)
    }

    ghost predicate Valid()
      reads this
    {
      Shape().Ok()
    }

    /** The readable bytes: all a client can observe. */
    ghost function Contents(): (s: seq<byte>)
      requires Valid()
      reads this, buffer
      ensures |s| == Shape().Readable()
    {
      buffer[readIdx..writeIdx]
    }

    /** The size argument of the original is ignored there as well. */
    constructor ()
      ensures Valid() && fresh(buffer)
      ensures Contents() == [] && Shape() == FRESH_LAYOUT
    {
      buffer := new byte[INITIAL_STORE];
      readIdx := CHEAP_PREPEND;
      writeIdx := CHEAP_PREPEND;
    }

    method Swap(rhs: ByteBuffer)
      requires Valid() && rhs.Valid()
      modifies this, rhs
      ensures Valid() && rhs.Valid()
      ensures buffer == old(rhs.buffer) && rhs.buffer == old(buffer)
      ensures Shape() == old(rhs.Shape()) && rhs.Shape() == old(Shape())
      ensures Contents() == old(rhs.Contents()) && rhs.Contents() == old(Contents())
    {
      var b, r, w := buffer, readIdx, writeIdx;
      buffer, readIdx, writeIdx := rhs.buffer, rhs.readIdx, rhs.writeIdx;
      rhs.buffer, rhs.readIdx, rhs.writeIdx := b, r, w;
    }

    method RetrieveAll()
      requires Valid()
      modifies this
      ensures Valid() && buffer == old(buffer)
      ensures Contents() == [] && Shape() == Apply(old(Shape()), Op.RetrieveAll)
    {
      readIdx := CHEAP_PREPEND;
      writeIdx := CHEAP_PREPEND;
    }

    method Retrieve(len: nat) returns (ok: bool)
      requires Valid()
      modifies this
      ensures Valid() && buffer == old(buffer)
      ensures ok == (len <= |old(Contents())|)
      ensures Contents() == if ok then old(Contents())[len..] else old(Contents())
      ensures Shape() == Apply(old(Shape()), Op.Retrieve(len))
    {
      if len > writeIdx - readIdx {
        return false;
      }
      if len < writeIdx - readIdx {
        readIdx := readIdx + len;
      } else {
        RetrieveAll();
      }
      return true;
    }

    method RetrieveAsString(len: nat) returns (s: seq<byte>)
      requires Valid()
      modifies this
      ensures Valid() && buffer == old(buffer)
      ensures if len <= |old(Contents())| then s + Contents() == old(Contents()) && |s| == len
              else s == [] && Contents() == old(Contents())
      ensures Shape() == Apply(old(Shape()), Op.Retrieve(len))
    {
      if len > writeIdx - readIdx {
        return [];
      }
      s := buffer[readIdx..readIdx + len];
      var _ := Retrieve(len);
    }

    /** vector::resize to a larger size. */
    method Resize(size: nat)
      requires Valid() && size >= buffer.Length
      modifies this
      ensures Valid() && fresh(buffer)
      ensures Contents() == old(Contents()) && Shape() == old(Shape()).(size := size)
    {
      var bigger := new byte[size];
      forall i | 0 <= i < buffer.Length {
        bigger[i] := buffer[i];
      }
      buffer := bigger;
    }

    /** Makes len bytes writable by growing or by compacting; the content does not change.
        The branch that would return early is never reached. */
    method MakeZoom(len: nat)
      requires Valid() && buffer.Length - writeIdx < len
      modifies this, buffer
      ensures Valid() && (buffer == old(buffer) || fresh(buffer))
      ensures Contents() == old(Contents()) && Shape() == old(Shape()).Zoom(len)
    {
      if (buffer.Length - writeIdx) + readIdx < len + CHEAP_PREPEND {
        Resize(writeIdx + len);
      } else if CHEAP_PREPEND >= readIdx {
        assert false;
      } else {
        var readable := writeIdx - readIdx;
        MoveDown(buffer, readIdx, writeIdx, CHEAP_PREPEND);
        readIdx := CHEAP_PREPEND;
        writeIdx := readIdx + readable;
      }
    }

    method CheckWritable(len: nat)
      requires Valid()
      modifies this, buffer
      ensures Valid() && (buffer == old(buffer) || fresh(buffer))
      ensures buffer.Length - writeIdx >= len
      ensures Contents() == old(Contents()) && Shape() == Apply(old(Shape()), Op.Reserve(len))
    {
      if buffer.Length - writeIdx < len {
        MakeZoom(len);
      }
    }

    method Append(data: seq<byte>)
      requires Valid()
      modifies this, buffer
      ensures Valid() && (buffer == old(buffer) || fresh(buffer))
      ensures Contents() == old(Contents()) + data
      ensures Shape() == Apply(old(Shape()), Op.Append(|data|))
    {
      CheckWritable(|data|);
      StoreAtEnd(data);
    }

    /** The copy itself, into room that is there. */
    method StoreAtEnd(data: seq<byte>)
      requires Valid() && writeIdx + |data| <= buffer.Length
      modifies this`writeIdx, buffer
      ensures Valid() && Contents() == old(Contents()) + data
      ensures Shape() == old(Shape()).(w := old(writeIdx) + |data|)
    {
      ghost var before := buffer[..];
      Store(buffer, writeIdx, data);
      JoinedSlices(before, buffer[..], readIdx, writeIdx, data);
      writeIdx := writeIdx + |data|;
    }

    /** Publishes bytes already stored after the write index. */
    method Written(len: nat) returns (ok: bool)
      requires Valid()
      modifies this
      ensures Valid() && buffer == old(buffer)
      ensures ok == (len <= old(Shape()).Writable())
      ensures |Contents()| == |old(Contents())| + (if ok then len else 0)
      ensures old(Contents()) <= Contents()
      ensures Shape() == Apply(old(Shape()), Op.Written(len))
    {
      if len > buffer.Length - writeIdx {
        return false;
      }
      writeIdx := writeIdx + len;
      return true;
    }

    method Unwrite(len: nat) returns (ok: bool)
      requires Valid()
      modifies this
      ensures Valid() && buffer == old(buffer)
      ensures ok == (len <= |old(Contents())|)
      ensures Contents() == if ok then old(Contents())[..|old(Contents())| - len] else old(Contents())
      ensures Shape() == Apply(old(Shape()), Op.Unwrite(len))
    {
      if len > writeIdx - readIdx {
        return false;
      }
      writeIdx := writeIdx - len;
      return true;
    }

    method Prepend(data: seq<byte>) returns (ok: bool)
      requires Valid()
      modifies this, buffer
      ensures Valid() && buffer == old(buffer)
      ensures ok == (|data| <= old(readIdx))
      ensures Contents() == if ok then data + old(Contents()) else old(Contents())
      ensures Shape() == Apply(old(Shape()), Op.Prepend(|data|))
    {
      if |data| > readIdx {
        return false;
      }
      ghost var before := buffer[..];
      readIdx := readIdx - |data|;
      Store(buffer, readIdx, data);
      PrependedSlices(before, buffer[..], readIdx, writeIdx, data);
      return true;
    }

    /** Copies the content into a new store with the given spare room and swaps it in. */
    method Shrink(reserve: nat)
      requires Valid()
      modifies this, buffer
      ensures Valid() && fresh(buffer)
      ensures Contents() == old(Contents()) && Shape() == Apply(old(Shape()), Op.Shrink(reserve))
    {
      var other := new ByteBuffer();
      other.CheckWritable(writeIdx - readIdx + reserve);
      other.Append(buffer[readIdx..writeIdx]);
      Swap(other);
    }

    // ----- integers in network order, width 1, 2, 4 or 8 -------------------

    method AppendInt(x: int, width: nat)
      requires Valid() && FitsSigned(x, width)
      modifies this, buffer
      ensures Valid() && (buffer == old(buffer) || fresh(buffer))
      ensures |Contents()| == |old(Contents())| + width && old(Contents()) <= Contents()
      ensures Shape() == Apply(old(Shape()), Op.Append(width))
      ensures DecodeInt(Contents()[|old(Contents())|..]) == x
    {
      Append(EncodeInt(x, width));
      IntRoundTrip(x, width);
      assert Contents()[|old(Contents())|..] == EncodeInt(x, width);
    }

    /** Silently does nothing when the prepend area is too small. */
    method PrependInt(x: int, width: nat)
      requires Valid() && FitsSigned(x, width)
      modifies this, buffer
      ensures Valid() && buffer == old(buffer)
      ensures if width <= old(readIdx) then
                && |Contents()| == width + |old(Contents())| && Contents()[width..] == old(Contents())
                && DecodeInt(Contents()[..width]) == x
              else Contents() == old(Contents())
    {
      var ok := Prepend(EncodeInt(x, width));
      if ok {
        IntRoundTrip(x, width);
        assert Contents()[..width] == EncodeInt(x, width);
      }
    }

    /** -1 stands for "too few bytes", as in the original. */
    method PeekInt(width: nat) returns (x: int)
      requires Valid() && width > 0
      ensures x == if |Contents()| < width then -1 else DecodeInt(Contents()[..width])
    {
      if writeIdx - readIdx < width {
        return -1;
      }
      assert Contents()[..width] == buffer[readIdx..readIdx + width];
      x := DecodeInt(buffer[readIdx..readIdx + width]);
    }

    method ReadInt(width: nat) returns (x: int)
      requires Valid() && width > 0
      modifies this
      ensures Valid() && buffer == old(buffer)
      ensures if |old(Contents())| < width then x == -1 && Contents() == old(Contents())
              else x == DecodeInt(old(Contents())[..width]) && Contents() == old(Contents())[width..]
    {
      x := PeekInt(width);
      var _ := Retrieve(width);
    }
  }
}
