/** Bytes, fixed-width big-endian integers and decimal text: the value formats that the
    buffer, the wire codec, the connection names and the hex dump all share. */
module Bytes {
  type byte = x: int | 0 <= x < 256

  type Text = seq<byte>

  /** 256 to the power n: the number of values n bytes can hold. */
  function Pow256(n: nat): (p: nat)
    ensures p >= 1
    ensures n > 0 ==> p % 2 == 0
  {
    if n == 0 then 1 else 256 * Pow256(n - 1)
  }

  /** The n low-order bytes of u, most significant first (network order). */
  function BigEndian(u: nat, n: nat): (s: seq<byte>)
    ensures |s| == n
  {
    if n == 0 then [] else BigEndian(u / 256, n - 1) + [u % 256]
  }

  function FromBigEndian(s: seq<byte>): nat {
    if s == [] then 0 else 256 * FromBigEndian(s[..|s| - 1]) + s[|s| - 1]
  }

  lemma {:induction false} BigEndianRoundTrip(u: nat, n: nat)
    requires u < Pow256(n)
    ensures FromBigEndian(BigEndian(u, n)) == u
  {
    if n > 0 {
      BigEndianRoundTrip(u / 256, n - 1);
      assert BigEndian(u, n)[..n - 1] == BigEndian(u / 256, n - 1);
    }
  }

  /** u shifted right by k bytes. */
  function Shifted(u: nat, k: nat): nat {
    if k == 0 then u else Shifted(u / 256, k - 1)
  }

  /** The most significant byte comes first. */
  lemma {:induction false} BigEndianAt(u: nat, n: nat, i: nat)
    requires i < n
    ensures BigEndian(u, n)[i] == Shifted(u, n - 1 - i) % 256
  {
    if i < n - 1 {
      BigEndianAt(u / 256, n - 1, i);
    }
  }

  /** The range of a two's-complement integer n bytes wide. */
  predicate FitsSigned(x: int, n: nat) {
    n > 0 && -(Pow256(n) / 2) <= x < Pow256(n) / 2
  }

  /** What htobe16/32/64 (or htonl/htons) followed by a byte copy stores for x. */
  function EncodeInt(x: int, n: nat): (s: seq<byte>)
    requires FitsSigned(x, n)
    ensures |s| == n
  {
    BigEndian(if x < 0 then x + Pow256(n) else x, n)
  }

  /** What a byte copy followed by be16/32/64toh (or ntohl/ntohs) yields. */
  function DecodeInt(s: seq<byte>): int {
    Signed(FromBigEndian(s), Pow256(|s|))
  }

  /** Two's complement reading of u in a range of p values. */
  function Signed(u: nat, p: nat): int {
    if u < p / 2 then u else u - p
  }

  /** The bytes of an integer are its two's complement: the number itself, or for a negative one
      the number plus 256 to the power n. */
  lemma EncodedIsTwosComplement(x: int, n: nat)
    requires FitsSigned(x, n)
    ensures FromBigEndian(EncodeInt(x, n)) == if x < 0 then x + Pow256(n) else x
  {
    BigEndianRoundTrip(if x < 0 then x + Pow256(n) else x, n);
  }

  /** Integers read back as they were written, negative ones included. */
  lemma IntRoundTrip(x: int, n: nat)
    requires FitsSigned(x, n)
    ensures DecodeInt(EncodeInt(x, n)) == x
  {
    BigEndianRoundTrip(if x < 0 then x + Pow256(n) else x, n);
  }

  lemma {:induction false} FromBigEndianBack(s: seq<byte>)
    ensures FromBigEndian(s) < Pow256(|s|) && BigEndian(FromBigEndian(s), |s|) == s
  {
    if s != [] {
      var n := |s| - 1;
      FromBigEndianBack(s[..n]);
      assert s == s[..n] + [s[n]];
    }
  }

  /** And any bytes are those of the integer they are read as. */
  lemma IntRoundTripBack(s: seq<byte>)
    requires |s| > 0
    ensures FitsSigned(DecodeInt(s), |s|) && EncodeInt(DecodeInt(s), |s|) == s
  {
    FromBigEndianBack(s);
  }

  // ----- decimal text ------------------------------------------------------

  const ZERO: byte := 48   // '0'
  const MINUS: byte := 45  // '-'
  const PLUS: byte := 43   // '+'

  predicate IsDigit(b: byte) {
    ZERO <= b < ZERO + 10
  }

  /** printf's "%u"/"%d" rendering of a non-negative number. */
  function Decimal(n: nat): (s: Text)
    ensures |s| > 0 && forall i :: 0 <= i < |s| ==> IsDigit(s[i])
    ensures n > 0 ==> s[0] != ZERO
  {
    if n < 10 then [ZERO + n] else Decimal(n / 10) + [ZERO + n % 10]
  }

  function DecimalValue(s: Text): int {
    if s == [] then 0 else 10 * DecimalValue(s[..|s| - 1]) + (s[|s| - 1] - ZERO)
  }

  lemma {:induction false} DecimalRoundTrip(n: nat)
    ensures DecimalValue(Decimal(n)) == n
  {
    var s := Decimal(n);
    if n < 10 {
      assert s[..|s| - 1] == [];
    } else {
      DecimalRoundTrip(n / 10);
      assert s[..|s| - 1] == Decimal(n / 10);
    }
  }

  /** A shorter decimal rendering belongs to a smaller number. */
  lemma {:induction false} DecimalLengthMonotone(m: nat, n: nat)
    requires m <= n
    ensures |Decimal(m)| <= |Decimal(n)|
  {
    if m >= 10 {
      DecimalLengthMonotone(m / 10, n / 10);
    }
  }

  /** Every non-empty proper prefix of a rendering is the rendering of a smaller positive number. */
  lemma {:induction false} DecimalPrefix(n: nat, k: nat) returns (p: nat)
    requires 0 < k < |Decimal(n)|
    ensures 0 < p < n && Decimal(p) == Decimal(n)[..k]
  {
    var s := Decimal(n);
    assert n >= 10;
    assert s[..|s| - 1] == Decimal(n / 10);
    if k == |s| - 1 {
      p := n / 10;
    } else {
      p := DecimalPrefix(n / 10, k);
      assert s[..k] == s[..|s| - 1][..k];
    }
  }

  function Pow10(d: nat): (p: nat)
    ensures p >= 1
  {
    if d == 0 then 1 else 10 * Pow10(d - 1)
  }

  /** A number below ten to the power d has at most d digits. */
  lemma {:induction false} DecimalLength(n: nat, d: nat)
    requires d >= 1 && n < Pow10(d)
    ensures |Decimal(n)| <= d
  {
    if n >= 10 {
      assert Pow10(1) == 10 * Pow10(0);
      DecimalLength(n / 10, d - 1);
    }
  }

  lemma PowersOfTen()
    ensures Pow10(10) == 10_000_000_000 && Pow10(19) == 10_000_000_000_000_000_000
  {
    assert Pow10(2) == 100 && Pow10(4) == 10_000 by { assert Pow10(1) == 10 && Pow10(3) == 1_000; }
    assert Pow10(6) == 1_000_000 && Pow10(8) == 100_000_000 by { assert Pow10(5) == 100_000 && Pow10(7) == 10_000_000; }
    assert Pow10(10) == 10_000_000_000 && Pow10(12) == 1_000_000_000_000 by {
      assert Pow10(9) == 1_000_000_000 && Pow10(11) == 100_000_000_000;
    }
    assert Pow10(14) == 100_000_000_000_000 && Pow10(16) == 10_000_000_000_000_000 by {
      assert Pow10(13) == 10_000_000_000_000 && Pow10(15) == 1_000_000_000_000_000;
    }
    assert Pow10(18) == 1_000_000_000_000_000_000 by { assert Pow10(17) == 100_000_000_000_000_000; }
  }
}
