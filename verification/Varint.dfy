/** server/src/network/protocol_stream.cpp, write7BitEncoded and read7BitEncoded: the unsigned
    LEB128 scheme (section 7.6 of DWARF 5) in a 32-bit and a 64-bit version. */
module Varints {
  import opened Bytes

  newtype uint32 = x: int | 0 <= x < 0x1_0000_0000
  newtype uint64 = x: int | 0 <= x < 0x1_0000_0000_0000_0000

  /** Seven bits a byte, least significant group first, bit 7 set on all but the last. */
  function Encode(v: nat): (s: seq<byte>)
    ensures |s| >= 1 && s[|s| - 1] < 128
    ensures forall i :: 0 <= i < |s| - 1 ==> s[i] >= 128
  {
    if v < 128 then [v] else [v % 128 + 128] + Encode(v / 128)
  }

  /** Some byte of s ends a code. */
  predicate Terminated(s: seq<byte>) {
    s != [] && (s[0] < 128 || Terminated(s[1..]))
  }

  /** Bytes taken by the code at the start of s. */
  function CodeLength(s: seq<byte>): (n: nat)
    requires Terminated(s)
    ensures 1 <= n <= |s|
    ensures s[n - 1] < 128 && forall i :: 0 <= i < n - 1 ==> s[i] >= 128
  {
    if s[0] < 128 then 1 else 1 + CodeLength(s[1..])
  }

  function Value(s: seq<byte>): nat
    requires Terminated(s)
  {
    if s[0] < 128 then s[0] else (s[0] - 128) + 128 * Value(s[1..])
  }

  function Pow128(n: nat): (p: nat)
    ensures p >= 1
  {
    if n == 0 then 1 else 128 * Pow128(n - 1)
  }

  /** Decoding what was encoded, whatever follows, gives back the value and stops right after. */
  lemma {:induction false} RoundTrip(v: nat, rest: seq<byte>)
    ensures Terminated(Encode(v) + rest)
    ensures Value(Encode(v) + rest) == v && CodeLength(Encode(v) + rest) == |Encode(v)|
  {
    if v >= 128 {
      RoundTrip(v / 128, rest);
      assert (Encode(v) + rest)[1..] == Encode(v / 128) + rest;
    }
  }

  /** v shifted right by k groups of seven bits. */
  function ShiftedGroups(v: nat, k: nat): nat {
    if k == 0 then v else ShiftedGroups(v / 128, k - 1)
  }

  /** The groups of seven bits come least significant first, and every byte but the last says that
      another follows. */
  lemma {:induction false} EncodeAt(v: nat, i: nat)
    requires i < |Encode(v)|
    ensures Encode(v)[i] % 128 == ShiftedGroups(v, i) % 128
    ensures Encode(v)[i] >= 128 <==> i < |Encode(v)| - 1
  {
    if v >= 128 && i > 0 {
      EncodeAt(v / 128, i - 1);
    }
  }

  lemma SameSeq(a: seq<byte>, b: seq<byte>, rest: seq<byte>)
    requires a <= b && rest == b[|a|..]
    ensures b + [] == b == a + rest
  {
  }

  /** No code is a prefix of another. */
  lemma PrefixFree(a: nat, b: nat)
    requires Encode(a) <= Encode(b)
    ensures a == b
  {
    var rest := Encode(b)[|Encode(a)|..];
    RoundTrip(a, rest);
    RoundTrip(b, []);
    SameSeq(Encode(a), Encode(b), rest);
  }

  /** A value below 128^n takes at most n bytes, and n bytes are needed from 128^(n-1) on. */
  lemma {:induction false} EncodeLength(v: nat, n: nat)
    requires n >= 1
    ensures |Encode(v)| <= n <==> v < Pow128(n)
  {
    if v >= 128 {
      if n == 1 {
        assert Pow128(1) == 128 * Pow128(0);
      } else {
        EncodeLength(v / 128, n - 1);
      }
    } else if n > 1 {
      EncodeLength(v, n - 1);
    } else {
      assert Pow128(1) == 128 * Pow128(0);
    }
  }

  lemma PowersTo5()
    ensures Pow128(4) == 0x1000_0000 && Pow128(5) == 0x8_0000_0000
  {
    assert Pow128(1) == 128 && Pow128(2) == 128 * 128 && Pow128(3) == 128 * 128 * 128;
  }

  lemma FiveBytes(v: nat)
    requires 0x1000_0000 <= v < 0x8_0000_0000
    ensures |Encode(v)| == 5
  {
    PowersTo5();
    EncodeLength(v, 4);
    EncodeLength(v, 5);
  }

  lemma Encode32Length(v: uint32)
    ensures 1 <= |Encode(v as int)| <= 5
  {
    PowersTo5();
    EncodeLength(v as int, 5);
  }

  lemma Encode64Length(v: uint64)
    ensures 1 <= |Encode(v as int)| <= 10
  {
    assert Pow128(2) == 16384 && Pow128(4) == 268435456 by {
      assert Pow128(1) == 128 && Pow128(3) == 2097152;
    }
    assert Pow128(6) == 4398046511104 by { assert Pow128(5) == 34359738368; }
    assert Pow128(8) == 72057594037927936 by { assert Pow128(7) == 562949953421312; }
    assert Pow128(10) == 0x4000_0000_0000_0000 * 256 by { assert Pow128(9) == 9223372036854775808; }
    EncodeLength(v as int, 10);
  }

  method Write7BitEncoded32(value: uint32, buf: seq<byte>) returns (r: seq<byte>)
    ensures r == buf + Encode(value as int)
  {
    var v := value;
    r := buf;
    var more := true;
    while more
      invariant if more then r + Encode(v as int) == buf + Encode(value as int) else r == buf + Encode(value as int)
      decreases more, v as int
    {
      ghost var was := v as int;
      var c: byte := (v % 128) as int;
      v := v / 128;
      if v != 0 {
        c := c + 128;
      }
      assert r + Encode(was) == if v != 0 then (r + [c]) + Encode(v as int) else r + [c];
      r := r + [c];
      more := v != 0;
    }
  }

  method Write7BitEncoded64(value: uint64, buf: seq<byte>) returns (r: seq<byte>)
    ensures r == buf + Encode(value as int)
  {
    var v := value;
    r := buf;
    var more := true;
    while more
      invariant if more then r + Encode(v as int) == buf + Encode(value as int) else r == buf + Encode(value as int)
      decreases more, v as int
    {
      ghost var was := v as int;
      var c: byte := (v % 128) as int;
      v := v / 128;
      if v != 0 {
        c := c + 128;
      }
      assert r + Encode(was) == if v != 0 then (r + [c]) + Encode(v as int) else r + [c];
      r := r + [c];
      more := v != 0;
    }
  }

  const RANGE32: nat := 0x1_0000_0000
  const RANGE64: nat := 0x1_0000_0000_0000_0000

  lemma AddWraps32(a: nat, b: nat)
    ensures (a % RANGE32 + b % RANGE32) % RANGE32 == (a + b) % RANGE32
  {
    assert a == RANGE32 * (a / RANGE32) + a % RANGE32;
  }

  lemma AddWraps64(a: nat, b: nat)
    ensures (a % RANGE64 + b % RANGE64) % RANGE64 == (a + b) % RANGE64
  {
    assert a == RANGE64 * (a / RANGE64) + a % RANGE64;
  }

  /** One more group, shifted left by bitCount and added, in a word of the given width. */
  function AddGroup(value: nat, group: nat, unit: nat, range: nat): (r: nat)
    requires range == RANGE32 || range == RANGE64
  {
    (value + (group * unit) % range) % range
  }

  lemma AddGroupWraps(exact: nat, group: nat, unit: nat, range: nat)
    requires range == RANGE32 || range == RANGE64
    ensures AddGroup(exact % range, group, unit, range) == (exact + group * unit) % range
  {
    if range == RANGE32 {
      AddWraps32(exact, group * unit);
    } else {
      AddWraps64(exact, group * unit);
    }
  }

  /** What the first n groups contribute. */
  ghost function Partial(s: seq<byte>, n: nat): nat
    requires n <= |s|
  {
    if n == 0 then 0 else Partial(s, n - 1) + (s[n - 1] % 128) as int * Pow128(n - 1)
  }

  lemma {:induction false} PartialFromFront(s: seq<byte>, n: nat)
    requires 1 <= n <= |s|
    ensures Partial(s, n) == (s[0] % 128) as int + 128 * Partial(s[1..], n - 1)
  {
    if n == 1 {
      assert Partial(s, 1) == Partial(s, 0) + (s[0] % 128) as int * Pow128(0);
    } else {
      PartialFromFront(s, n - 1);
      var group: nat := s[n - 1] % 128;
      assert s[1..][n - 2] == s[n - 1];
      ScaleStep(group, Pow128(n - 2));
    }
  }

  lemma ScaleStep(group: nat, p: nat)
    ensures group * (128 * p) == 128 * (group * p)
  {
  }

  lemma {:induction false} PartialIsValue(s: seq<byte>)
    requires Terminated(s)
    ensures Partial(s, CodeLength(s)) == Value(s)
  {
    PartialFromFront(s, CodeLength(s));
    if s[0] >= 128 {
      PartialIsValue(s[1..]);
    }
  }

  /** The decoding loop, in 32 or in 64 bits: groups are shifted into place and added with
      wrap-around. Callers hand over at most 5 (or 10) bytes, so every shift is within the word. */
  method Read7BitEncoded(s: seq<byte>, range: nat) returns (value: nat)
    requires Terminated(s)
    requires (range == RANGE32 && CodeLength(s) <= 5) || (range == RANGE64 && CodeLength(s) <= 10)
    ensures value == Value(s) % range
  {
    value := 0;
    var index: nat, unit: nat := 0, 1;   // unit is 2 to the power bitCount
    var more := true;
    while more
      invariant index <= CodeLength(s) && unit == Pow128(index) && value == Partial(s, index) % range
      invariant more <==> index < CodeLength(s)
      decreases more, |s| - index
    {
      var c := s[index];
      AddGroupWraps(Partial(s, index), c % 128, unit, range);
      value := AddGroup(value, c % 128, unit, range);
      unit := unit * 128;
      index := index + 1;
      more := c >= 128;
    }
    PartialIsValue(s);
  }

  /** The 64-bit writer that WriteCString uses and the 32-bit reader that reads lengths agree on
      every value below 2^32, in at most five bytes. */
  lemma Width64WriterFeedsWidth32Reader(v: uint32, rest: seq<byte>)
    ensures var s := Encode(v as int) + rest;
            Terminated(s) && CodeLength(s) == |Encode(v as int)| <= 5 && Value(s) % RANGE32 == v as int
  {
    RoundTrip(v as int, rest);
    Encode32Length(v);
  }
}
