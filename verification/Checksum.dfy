/** server/src/network/protocol_stream.cpp, checksum: the Internet checksum of sections 1 and 2
    of RFC 1071, computed over 16-bit words read in the byte order of a little-endian host. */
module Checksums {
  import opened Bytes

  const WORD: nat := 0x1_0000
  const ONES: nat := 0xffff
  const ACC: nat := 0x1_0000_0000   // range of the 32-bit accumulator

  function Word(lo: nat, hi: nat): nat {
    lo + 256 * hi
  }

  /** The terms that are added up: whole words, then a last odd byte on its own. */
  function Terms(data: seq<byte>): (ts: seq<nat>)
    ensures |ts| == (|data| + 1) / 2
    ensures forall i :: 0 <= i < |ts| ==> ts[i] < WORD
  {
    if |data| == 0 then []
    else if |data| == 1 then [data[0]]
    else [Word(data[0], data[1])] + Terms(data[2..])
  }

  function Sum(ts: seq<nat>): nat {
    if ts == [] then 0 else ts[0] + Sum(ts[1..])
  }

  /** Sixteen-bit one's complement value of a sum: cast out 65535 until 16 bits suffice. */
  function OnesComplement(n: nat): (r: nat)
    ensures r < WORD
    ensures r == 0 <==> n == 0
  {
    if n < WORD then n else OnesComplement(n - ONES)
  }

  /** 32-bit unsigned wrap-around. */
  function Wrap(n: nat): (r: nat)
    ensures r < ACC
  {
    if n < ACC then n else Wrap(n - ACC)
  }

  /** Multiples of 65535 do not matter. */
  lemma {:induction false} CastOut(a: nat, k: nat)
    requires a >= 1
    ensures OnesComplement(a + k * ONES) == OnesComplement(a)
  {
    if k > 0 {
      CastOut(a, k - 1);
      assert a + k * ONES == (a + (k - 1) * ONES) + ONES;
    }
  }

  lemma {:induction false} CastOutCount(n: nat) returns (k: nat)
    ensures n == OnesComplement(n) + k * ONES
  {
    if n < WORD {
      k := 0;
    } else {
      var k' := CastOutCount(n - ONES);
      k := k' + 1;
    }
  }

  /** Sums that differ by less than 65535 have different values. */
  lemma CloseSumsDiffer(a: nat, d: nat)
    requires 0 < d < ONES
    ensures OnesComplement(a) != OnesComplement(a + d)
  {
    var k := CastOutCount(a);
    var l := CastOutCount(a + d);
  }

  lemma {:induction false} SumBound(ts: seq<nat>)
    requires forall i :: 0 <= i < |ts| ==> ts[i] < WORD
    ensures Sum(ts) <= |ts| * ONES
  {
    if ts != [] {
      SumBound(ts[1..]);
    }
  }

  /** Up to 65537 terms the accumulator cannot overflow. */
  lemma AccumulatorNeverOverflows(data: seq<byte>)
    requires |Terms(data)| <= 65537
    ensures Sum(Terms(data)) < ACC
  {
    SumBound(Terms(data));
  }

  /** n words with all bits set. */
  function AllOnes(n: nat): (data: seq<byte>)
    ensures |data| == 2 * n
  {
    if n == 0 then [] else [255, 255] + AllOnes(n - 1)
  }

  lemma {:induction false} AllOnesSum(n: nat)
    ensures Sum(Terms(AllOnes(n))) == n * ONES
  {
    if n > 0 {
      AllOnesSum(n - 1);
      assert AllOnes(n)[2..] == AllOnes(n - 1);
      assert Terms(AllOnes(n))[1..] == Terms(AllOnes(n - 1));
    }
  }

  /** And no further: from 65538 terms on there is data whose sum does not fit. */
  lemma OverflowPossibleIff(n: nat)
    ensures (exists data: seq<byte> :: |Terms(data)| == n && Sum(Terms(data)) >= ACC) <==> n > 65537
  {
    if n > 65537 {
      AllOnesSum(n);
      assert |Terms(AllOnes(n))| == n && Sum(Terms(AllOnes(n))) >= ACC;
    } else {
      forall data: seq<byte> | |Terms(data)| == n ensures Sum(Terms(data)) < ACC {
        AccumulatorNeverOverflows(data);
      }
    }
  }

  lemma {:induction false} SumAppend(a: seq<nat>, b: seq<nat>)
    ensures Sum(a + b) == Sum(a) + Sum(b)
  {
    if a == [] {
      assert a + b == b;
    } else {
      assert (a + b)[1..] == a[1..] + b;
      SumAppend(a[1..], b);
    }
  }

  lemma {:induction false} TermsAppend(a: seq<byte>, b: seq<byte>)
    requires |a| % 2 == 0
    ensures Terms(a + b) == Terms(a) + Terms(b)
  {
    if a == [] {
      assert a + b == b;
    } else {
      assert (a + b)[2..] == a[2..] + b;
      TermsAppend(a[2..], b);
    }
  }

  /** A last odd byte counts as if a zero byte followed it. */
  lemma {:induction false} OddByteIsPadded(data: seq<byte>)
    requires |data| % 2 == 1
    ensures Terms(data) == Terms(data + [0])
  {
    if |data| > 1 {
      assert (data + [0])[2..] == data[2..] + [0];
      OddByteIsPadded(data[2..]);
    } else {
      assert (data + [0])[2..] == [];
    }
  }

  /** Folding the high half onto the low half keeps the one's complement value. */
  lemma FoldStep(n: nat)
    requires n >= WORD
    ensures OnesComplement(n / WORD + n % WORD) == OnesComplement(n)
    ensures n / WORD + n % WORD < n
  {
    CastOut(n / WORD + n % WORD, n / WORD);
  }

  /** The 32-bit sum. */
  ghost function AccumulatorOf(data: seq<byte>): (a: nat)
    ensures a < ACC
  {
    Wrap(Sum(Terms(data)))
  }

  ghost function ChecksumOf(data: seq<byte>): nat {
    ONES - OnesComplement(AccumulatorOf(data))
  }

  /** The C function: wrap-around accumulation in 32 bits, folding, complement. */
  method Checksum(data: seq<byte>) returns (c: nat)
    ensures c == ChecksumOf(data)
  {
    var cksum: nat := Accumulate(data);
    ghost var total := cksum;
    while cksum / WORD != 0
      invariant OnesComplement(cksum) == OnesComplement(total)
      decreases cksum
    {
      FoldStep(cksum);
      cksum := cksum / WORD + cksum % WORD;
    }
    c := ONES - cksum;
  }

  /** Unsigned 32-bit addition. */
  function Add32(a: nat, b: nat): (r: nat)
    requires a < ACC && b < ACC
    ensures r < ACC
  {
    if a + b < ACC then a + b else a + b - ACC
  }

  method Accumulate(data: seq<byte>) returns (cksum: nat)
    ensures cksum == AccumulatorOf(data)
  {
    cksum := 0;
    var i := 0;
    while |data| - i > 1
      invariant 0 <= i <= |data| && cksum < ACC
      invariant Wrap(cksum + Sum(Terms(data[i..]))) == Wrap(Sum(Terms(data)))
    {
      assert data[i..][2..] == data[i + 2..];
      var word := Word(data[i], data[i + 1]);
      assert ([word] + Terms(data[i + 2..]))[1..] == Terms(data[i + 2..]);
      cksum := Add32(cksum, word);
      i := i + 2;
    }
    if |data| - i != 0 {
      assert Terms(data[i..]) == [data[i]] && Sum([data[i]]) == data[i] + Sum([data[i]][1..]);
      cksum := Add32(cksum, data[i]);
    }
  }

  /** How often the accumulator wraps. */
  function Wraps(n: nat): nat {
    if n < ACC then 0 else 1 + Wraps(n - ACC)
  }

  lemma {:induction false} WrapCount(s: nat)
    ensures s == Wrap(s) + Wraps(s) * ACC
  {
    if s >= ACC {
      WrapCount(s - ACC);
    }
  }

  /** A lost carry shows in the result. */
  lemma CarryShows(s: nat)
    requires ACC <= s < 0x4000 * ACC
    ensures OnesComplement(Wrap(s)) != OnesComplement(s)
  {
    var q := Wraps(s);
    WrapCount(s);
    assert s == (Wrap(s) + q) + (q * (WORD + 1)) * ONES;
    CastOut(Wrap(s) + q, q * (WORD + 1));
    CloseSumsDiffer(Wrap(s), q);
  }

  /** For every length a C int can hold, the checksum is the complement of the one's complement
      sum if and only if the plain sum fits the accumulator. */
  lemma ChecksumExactIff(data: seq<byte>)
    requires |data| < 0x8000_0000
    ensures ChecksumOf(data) == ONES - OnesComplement(Sum(Terms(data))) <==> Sum(Terms(data)) < ACC
  {
    var s := Sum(Terms(data));
    SumBound(Terms(data));
    if s >= ACC {
      CarryShows(s);
    }
  }

  /** The other case does occur: 65538 words with all bits set. */
  lemma LongDataMayCheckWrong()
    ensures var data := AllOnes(65538); ChecksumOf(data) != ONES - OnesComplement(Sum(Terms(data)))
  {
    AllOnesSum(65538);
    ChecksumExactIff(AllOnes(65538));
  }

  lemma {:induction false} WrapAdd(s: nat, w: nat)
    ensures Wrap(s + w) == Wrap(Wrap(s) + w)
  {
    if s >= ACC {
      WrapAdd(s - ACC, w);
      assert s + w - ACC == (s - ACC) + w;
    }
  }

  /** The words that complete an accumulator of 32 bits to a one's complement zero. */
  lemma CompletingWord(a: nat, w: nat)
    requires a < ACC && w < WORD
    ensures OnesComplement(Wrap(a + w)) == ONES <==>
              w == ONES - OnesComplement(a) || (w == ONES && OnesComplement(a) == ONES && a + ONES < ACC)
  {
    if a + w < ACC {
      AddWord(a, w);
    } else {
      var k := CastOutCount(a);
      assert Wrap(a + w) == a + w - ACC < ONES;
      assert k <= 65536;
    }
  }

  /** RFC 1071, section 1: data of any even length followed by its own checksum word checks to
      zero, although the accumulator may have wrapped; and no other word does, except all ones
      where the checksum is zero and adding them does not wrap. */
  lemma SelfCheck(data: seq<byte>, w: nat)
    requires |data| % 2 == 0 && w < WORD
    ensures ChecksumOf(data + [w % 256, w / 256]) == 0 <==>
              || w == ChecksumOf(data)
              || (w == ONES && ChecksumOf(data) == 0 && AccumulatorOf(data) + ONES < ACC)
  {
    AccumulateWord(data, w);
    CompletingWord(AccumulatorOf(data), w);
  }

  lemma AccumulateWord(data: seq<byte>, w: nat)
    requires |data| % 2 == 0 && w < WORD
    ensures AccumulatorOf(data + [w % 256, w / 256]) == Wrap(AccumulatorOf(data) + w)
  {
    SumWithWord(data, w);
    WrapAdd(Sum(Terms(data)), w);
  }

  lemma SumWithWord(data: seq<byte>, w: nat)
    requires |data| % 2 == 0 && w < WORD
    ensures Sum(Terms(data + [w % 256, w / 256])) == Sum(Terms(data)) + w
    ensures |Terms(data + [w % 256, w / 256])| == |Terms(data)| + 1
  {
    var tail: seq<byte> := [w % 256, w / 256];
    assert Terms(tail) == [w] by { assert tail[2..] == []; }
    TermsAppend(data, tail);
    SumAppend(Terms(data), [w]);
    assert Sum([w]) == w + Sum([w][1..]);
  }

  lemma AddWord(s: nat, w: nat)
    requires w < WORD
    ensures OnesComplement(s + w) == ONES <==>
              w == ONES - OnesComplement(s) || (w == ONES && OnesComplement(s) == ONES)
  {
    if s > 0 {
      var k := CastOutCount(s);
      CastOut(OnesComplement(s) + w, k);
    }
  }

  lemma {:induction false} SumUpdate(ts: seq<nat>, i: nat, w: nat)
    requires i < |ts|
    ensures Sum(ts[i := w]) == Sum(ts) - ts[i] + w
  {
    if i == 0 {
      assert ts[i := w][1..] == ts[1..];
    } else {
      assert ts[i := w][1..] == ts[1..][i - 1 := w];
      SumUpdate(ts[1..], i - 1, w);
    }
  }

  /** Changing any one word changes the checksum, unless all zero bits become all one bits or
      the reverse. */
  lemma SingleWordErrorDetected(a: seq<byte>, b: seq<byte>, i: nat)
    requires |Terms(a)| == |Terms(b)| && i < |Terms(a)|
    requires Terms(b) == Terms(a)[i := Terms(b)[i]] && Terms(a)[i] < Terms(b)[i]
    requires Terms(b)[i] - Terms(a)[i] != ONES
    ensures ChecksumOf(a) != ChecksumOf(b)
  {
    WordChangeShows(Terms(a), Terms(b), i);
  }

  lemma WordChangeShows(ts: seq<nat>, us: seq<nat>, i: nat)
    requires |ts| == |us| && i < |ts| && us == ts[i := us[i]] && 0 < us[i] - ts[i] < ONES
    ensures OnesComplement(Wrap(Sum(ts))) != OnesComplement(Wrap(Sum(us)))
  {
    SumUpdate(ts, i, us[i]);
    SmallChangeShows(Sum(ts), us[i] - ts[i]);
  }

  lemma SmallChangeShows(s: nat, d: nat)
    requires 0 < d < ONES
    ensures OnesComplement(Wrap(s)) != OnesComplement(Wrap(s + d))
  {
    WrapAdd(s, d);
    CloseAccumulatorsDiffer(Wrap(s), d);
  }

  /** Adding a little to the accumulator changes its value, even if it wraps. */
  lemma CloseAccumulatorsDiffer(x: nat, d: nat)
    requires x < ACC && 0 < d < ONES
    ensures OnesComplement(x) != OnesComplement(Wrap(x + d))
  {
    if x + d < ACC {
      CloseSumsDiffer(x, d);
    } else {
      var y := x + d - ACC;
      assert Wrap(x + d) == y;
      if y > 0 {
        assert x + (d - 1) == y + 65537 * ONES;
        CastOut(y, 65537);
        CloseSumsDiffer(x, d - 1);
      }
    }
  }

  // ----- RFC 1071, section 2 (B): byte order independence -------------------

  function Swapped(data: seq<byte>): (s: seq<byte>)
    requires |data| % 2 == 0
    ensures |s| == |data|
  {
    if data == [] then [] else [data[1], data[0]] + Swapped(data[2..])
  }

  /** Every term of us is the term of ts with its bytes swapped. */
  ghost predicate TermsSwapped(ts: seq<nat>, us: seq<nat>) {
    |ts| == |us| && forall i :: 0 <= i < |ts| ==> WordSwapped(ts[i], us[i])
  }

  ghost predicate WordSwapped(w: nat, v: nat) {
    exists lo: byte, hi: byte :: w == Word(lo, hi) && v == Word(hi, lo)
  }

  lemma {:induction false} SwappedTerms(data: seq<byte>)
    requires |data| % 2 == 0
    ensures TermsSwapped(Terms(data), Terms(Swapped(data)))
  {
    if data != [] {
      var sw := Swapped(data);
      SwappedTerms(data[2..]);
      assert sw[2..] == Swapped(data[2..]);
      assert Terms(data)[1..] == Terms(data[2..]) && Terms(sw)[1..] == Terms(sw[2..]);
      assert WordSwapped(Word(data[0], data[1]), Word(data[1], data[0]));
    }
  }

  lemma {:induction false} SwappedSum(ts: seq<nat>, us: seq<nat>) returns (k: nat)
    requires TermsSwapped(ts, us)
    ensures 256 * Sum(ts) == Sum(us) + k * ONES
    ensures Sum(ts) == 0 <==> Sum(us) == 0
  {
    if ts == [] {
      k := 0;
    } else {
      assert WordSwapped(ts[0], us[0]);
      var lo: byte, hi: byte :| ts[0] == Word(lo, hi) && us[0] == Word(hi, lo);
      var k' := SwappedSum(ts[1..], us[1..]);
      k := k' + hi;
    }
  }

  /** A multiple of 65535. */
  predicate Multiple(j: int)
    decreases if j < 0 then -j else j
  {
    j == 0 || (j >= ONES && Multiple(j - ONES)) || (j + ONES <= 0 && Multiple(j + ONES))
  }

  lemma {:induction false} MultipleOf(k: int)
    ensures Multiple(k * ONES)
    decreases if k < 0 then -k else k
  {
    if k > 0 { MultipleOf(k - 1); } else if k < 0 { MultipleOf(k + 1); }
  }

  lemma {:induction false} Quotient(j: int) returns (k: int)
    requires Multiple(j)
    ensures j == k * ONES
    decreases if j < 0 then -j else j
  {
    if j == 0 {
      k := 0;
    } else if j > 0 {
      var k' := Quotient(j - ONES);
      k := k' + 1;
    } else {
      var k' := Quotient(j + ONES);
      k := k' - 1;
    }
  }

  /** w is the value of b iff they differ by a multiple of 65535, the two zeros apart. */
  lemma ValueIff(b: nat, w: nat, m: int, j: int)
    requires w < WORD && w + m * ONES == b + j && (b == 0 <==> w == 0)
    ensures OnesComplement(b) == w <==> Multiple(j)
  {
    if OnesComplement(b) == w {
      var p := CastOutCount(b);
      MultipleOf(m - p);
    }
    if Multiple(j) {
      var i := Quotient(j);
      SameValue(b, w, m - i);
    }
  }

  lemma SameValue(b: nat, w: nat, k: int)
    requires w < WORD && b == w + k * ONES && (b == 0 <==> w == 0)
    ensures OnesComplement(b) == w
  {
    if b > 0 {
      assert k >= 0;
      CastOut(w, k);
    }
  }

  /** One value is the other with its bytes swapped iff they stand in the ratio 256. */
  lemma SwapValueIff(a: nat, b: nat, k: int, j: int, lo: byte, hi: byte)
    requires 256 * a == b + k * ONES + j && (a == 0 <==> b == 0) && OnesComplement(a) == Word(lo, hi)
    ensures OnesComplement(b) == Word(hi, lo) <==> Multiple(j)
  {
    var q := CastOutCount(a);
    assert 256 * Word(lo, hi) == Word(hi, lo) + hi * ONES;
    ValueIff(b, Word(hi, lo), 256 * q + hi - k, j);
  }

  lemma SwapWrappedIff(a: nat, b: nat, q: nat, q': nat, k: int, lo: byte, hi: byte)
    requires 256 * (a + q * ACC) == b + q' * ACC + k * ONES && OnesComplement(a) == Word(lo, hi)
    ensures OnesComplement(b) == Word(hi, lo) <==> Multiple(q' - 256 * q) && (a == 0 <==> b == 0)
  {
    if a == 0 <==> b == 0 {
      var d := q' - 256 * q;
      assert d * ACC == (d * 65537) * ONES + d;
      SwapValueIff(a, b, k + d * 65537, d, lo, hi);
    }
  }

  /** Of the sums of data and swapped data: the numbers of wraps are in the ratio 256, up to a
      multiple of 65535, and both wrap to zero or neither. */
  predicate SwapKept(s: nat, t: nat) {
    Multiple(Wraps(t) - 256 * Wraps(s)) && (Wrap(s) == 0 <==> Wrap(t) == 0)
  }

  lemma SwapSumsIff(s: nat, t: nat, k: int, lo: byte, hi: byte)
    requires 256 * s == t + k * ONES && OnesComplement(Wrap(s)) == Word(lo, hi)
    ensures OnesComplement(Wrap(t)) == Word(hi, lo) <==> SwapKept(s, t)
  {
    WrapCount(s);
    WrapCount(t);
    SwapWrappedIff(Wrap(s), Wrap(t), Wraps(s), Wraps(t), k, lo, hi);
  }

  lemma TermsSwappedIff(ts: seq<nat>, us: seq<nat>, lo: byte, hi: byte)
    requires TermsSwapped(ts, us) && ONES - OnesComplement(Wrap(Sum(ts))) == Word(lo, hi)
    ensures ONES - OnesComplement(Wrap(Sum(us))) == Word(hi, lo) <==> SwapKept(Sum(ts), Sum(us))
    ensures Sum(ts) < ACC && Sum(us) < ACC ==> SwapKept(Sum(ts), Sum(us))
  {
    var k := SwappedSum(ts, us);
    SwapSumsIff(Sum(ts), Sum(us), k, 255 - lo, 255 - hi);
  }

  /** The checksum of byte-swapped data is the byte-swapped checksum, so host byte order does not
      matter, exactly as long as the carries lost from the two accumulators stand in the same
      ratio and neither alone wraps to zero; in particular while neither sum overflows. */
  lemma ByteOrderIndependentIff(data: seq<byte>, lo: byte, hi: byte)
    requires |data| % 2 == 0 && ChecksumOf(data) == Word(lo, hi)
    ensures ChecksumOf(Swapped(data)) == Word(hi, lo) <==> SwapKept(Sum(Terms(data)), Sum(Terms(Swapped(data))))
    ensures Sum(Terms(data)) < ACC && Sum(Terms(Swapped(data))) < ACC ==>
              SwapKept(Sum(Terms(data)), Sum(Terms(Swapped(data))))
  {
    SwappedTerms(data);
    TermsSwappedIff(Terms(data), Terms(Swapped(data)), lo, hi);
  }

  /** Beyond that it may fail: 65538 words with all bits set are their own byte swap, but their
      checksum is not. */
  lemma LongDataMayDependOnByteOrder()
    ensures var data := AllOnes(65538); Swapped(data) == data && ChecksumOf(data) == Word(1, 0) != Word(0, 1)
  {
    AllOnesSum(65538);
    AllOnesSwapped(65538);
    assert Wrap(65538 * ONES) == 65534;
  }

  lemma {:induction false} AllOnesSwapped(n: nat)
    ensures Swapped(AllOnes(n)) == AllOnes(n)
  {
    if n > 0 {
      AllOnesSwapped(n - 1);
      assert AllOnes(n)[2..] == AllOnes(n - 1);
    }
  }
}
