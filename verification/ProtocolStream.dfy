/** server/src/network/protocol_stream.cpp, BinaryStreamWriter and BinaryStreamReader: a typed
    field codec behind a six-byte header (four of length, two of checksum).

    `FieldAt` and `EncodeField` describe one field on the wire; the theorems say that they undo
    each other over whole messages. The two classes are proved to read and write exactly so. */
module ProtocolStreams {
  import opened Common
  import opened Bytes
  import opened Varints

  const HEADER: nat := 6
  const INT64_TEXT: nat := 128     // size of the buffer ReadInt64 reads its text into

  datatype Kind = KInt32 | KShort | KChar | KString | KInt64

  datatype Field =
    | Int32(i: int)
    | Short(i: int)
    | Char(c: byte)
    | String(s: seq<byte>)
    | Int64(i: int)
  {
    predicate Ok() {
      match this
      case Int32(i) => FitsSigned(i, 4)
      case Short(i) => FitsSigned(i, 2)
      case Char(_) => true
      case String(s) => |s| < RANGE32
      case Int64(i) => -0x8000_0000_0000_0000 <= i < 0x8000_0000_0000_0000
    }

    function KindOf(): Kind {
      match this
      case Int32(_) => KInt32
      case Short(_) => KShort
      case Char(_) => KChar
      case String(_) => KString
      case Int64(_) => KInt64
    }
  }

  // ----- decimal text of 64-bit numbers ------------------------------------

  /** sprintf "%ld". */
  function SignedDecimal(i: int): Text {
    if i < 0 then [MINUS] + Decimal(-i) else Decimal(i)
  }

  predicate IsSpace(b: byte) {
    b == 32 || 9 <= b <= 13
  }

  function SkipSpace(s: Text): Text {
    if s != [] && IsSpace(s[0]) then SkipSpace(s[1..]) else s
  }

  function TakeDigits(s: Text): Text {
    if s != [] && IsDigit(s[0]) then [s[0]] + TakeDigits(s[1..]) else []
  }

  /** atoll: blanks, one sign, digits up to the first other character. */
  function Atoll(s: Text): int {
    var t := SkipSpace(s);
    if t != [] && t[0] == MINUS then -DecimalValue(TakeDigits(t[1..]))
    else if t != [] && t[0] == PLUS then DecimalValue(TakeDigits(t[1..]))
    else DecimalValue(TakeDigits(t))
  }

  lemma {:induction false} AllDigitsTaken(s: Text)
    requires forall i :: 0 <= i < |s| ==> IsDigit(s[i])
    ensures TakeDigits(s) == s
  {
    if s != [] {
      AllDigitsTaken(s[1..]);
    }
  }

  /** Every 64-bit number, the least one included, survives its decimal text. */
  lemma DecimalTextRoundTrip(i: int)
    ensures Atoll(SignedDecimal(i)) == i
  {
    var s, n := SignedDecimal(i), if i < 0 then -i else i;
    DecimalRoundTrip(n);
    AllDigitsTaken(Decimal(n));
    assert SkipSpace(s) == s;
    assert i < 0 ==> s[1..] == Decimal(n);
  }

  lemma DecimalTextLength(i: int)
    requires Int64(i).Ok()
    ensures |SignedDecimal(i)| <= 20
  {
    PowersOfTen();
    DecimalLength(if i < 0 then -i else i, 19);
  }

  // ----- one field ---------------------------------------------------------

  function EncodeString(s: seq<byte>): seq<byte> {
    Encode(|s|) + s
  }

  function EncodeField(f: Field): seq<byte>
    requires f.Ok()
  {
    match f
    case Int32(i) => EncodeInt(i, 4)
    case Short(i) => EncodeInt(i, 2)
    case Char(c) => [c]
    case String(s) => EncodeString(s)
    case Int64(i) => EncodeString(SignedDecimal(i))
  }

  /** The five bytes a length may take are all continuation bytes: the original would decode
      past its own local array. Its callers must not let that happen. */
  predicate LengthOverlong(data: seq<byte>, cur: nat) {
    cur + 5 <= |data| && forall j :: cur <= j < cur + 5 ==> data[j] >= 128
  }

  /** A length at cur: the bytes it occupies and its value, if it ends within the data. */
  function LengthAt(data: seq<byte>, cur: nat): Option<(nat, nat)> {
    if cur <= |data| && Terminated(data[cur..]) && CodeLength(data[cur..]) <= 5
    then Some((CodeLength(data[cur..]), Value(data[cur..]) % RANGE32))
    else None
  }

  /** A string at cur and the position afterwards. A string longer than the caller's limit is
      refused in place; one cut off by the end of the data leaves cur behind its length. */
  function StringAt(data: seq<byte>, cur: nat, limit: Option<nat>): (Option<seq<byte>>, nat) {
    match LengthAt(data, cur)
    case None => (None, cur)
    case Some((headlen, fieldlen)) =>
      if limit.Some? && fieldlen > limit.value then (None, cur)
      else if cur + headlen + fieldlen > |data| then (None, cur + headlen)
      else (Some(data[cur + headlen..cur + headlen + fieldlen]), cur + headlen + fieldlen)
  }

  function FieldAt(data: seq<byte>, cur: nat, kind: Kind): (Option<Field>, nat) {
    match kind
    case KInt32 =>
      if cur + 4 > |data| then (None, cur) else (Some(Int32(DecodeInt(data[cur..cur + 4]))), cur + 4)
    case KShort =>
      if cur + 2 > |data| then (None, cur) else (Some(Short(DecodeInt(data[cur..cur + 2]))), cur + 2)
    case KChar =>
      if cur + 1 > |data| then (None, cur) else (Some(Char(data[cur])), cur + 1)
    case KString =>
      var r := StringAt(data, cur, None);
      (if r.0.Some? then Some(String(r.0.value)) else None, r.1)
    case KInt64 =>
      var r := StringAt(data, cur, Some(INT64_TEXT));
      (if r.0.Some? then Some(Int64(Atoll(r.0.value))) else None, r.1)
  }

  lemma StringReadsBack(data: seq<byte>, cur: nat, s: seq<byte>, rest: seq<byte>, limit: Option<nat>)
    requires cur <= |data| && data[cur..] == EncodeString(s) + rest
    requires |s| < RANGE32 && (limit.Some? ==> |s| <= limit.value)
    ensures StringAt(data, cur, limit) == (Some(s), cur + |EncodeString(s)|)
    ensures !LengthOverlong(data, cur)
  {
    var head := Encode(|s|);
    Associate(head, s, rest);
    LengthReadsBack(data, cur, |s|, s + rest);
    Behind(data, cur, head, s, rest);
  }

  lemma LengthReadsBack(data: seq<byte>, cur: nat, n: nat, rest: seq<byte>)
    requires n < RANGE32 && cur <= |data| && data[cur..] == Encode(n) + rest
    ensures LengthAt(data, cur) == Some((|Encode(n)|, n)) && !LengthOverlong(data, cur)
  {
    Width64WriterFeedsWidth32Reader(n as uint32, rest);
    var k := |Encode(n)| - 1;
    assert data[cur + k] == data[cur..][k] == Encode(n)[k] < 128;
  }

  /** A length reads back if and only if it is below 2^32: the writer encodes 64 bits, the reader
      decodes 32. */
  lemma LengthReadsBackIff(data: seq<byte>, cur: nat, n: nat, rest: seq<byte>)
    requires cur <= |data| && data[cur..] == Encode(n) + rest
    ensures LengthAt(data, cur) == Some((|Encode(n)|, n)) <==> n < RANGE32
    ensures LengthAt(data, cur).Some? ==> LengthAt(data, cur).value.1 < RANGE32
  {
    if n < RANGE32 {
      LengthReadsBack(data, cur, n, rest);
    }
  }

  /** So does a string. */
  lemma StringReadsBackIff(data: seq<byte>, cur: nat, s: seq<byte>, rest: seq<byte>)
    requires cur <= |data| && data[cur..] == EncodeString(s) + rest
    ensures StringAt(data, cur, None).0 == Some(s) <==> |s| < RANGE32
  {
    Associate(Encode(|s|), s, rest);
    if |s| < RANGE32 {
      StringReadsBack(data, cur, s, rest, None);
    } else {
      LengthReadsBackIff(data, cur, |s|, s + rest);
      ReadStringIsShort(data, cur);
    }
  }

  lemma ReadStringIsShort(data: seq<byte>, cur: nat)
    ensures var r := StringAt(data, cur, None).0; r.Some? ==> |r.value| < RANGE32
  {
  }

  /** From 2^32 up to 2^35 the five bytes are read, and wrap around: 2^32 itself reads as zero. */
  lemma LongLengthWraps(data: seq<byte>, cur: nat, n: nat, rest: seq<byte>)
    requires RANGE32 <= n < 0x8_0000_0000 && cur <= |data| && data[cur..] == Encode(n) + rest
    ensures LengthAt(data, cur).Some? && LengthAt(data, cur).value.0 == 5
    ensures LengthAt(data, cur).value.1 == n % RANGE32
  {
    FiveBytes(n);
    RoundTrip(n, rest);
  }

  lemma Behind(data: seq<byte>, cur: nat, head: seq<byte>, s: seq<byte>, rest: seq<byte>)
    requires cur <= |data| && data[cur..] == head + (s + rest)
    ensures cur + |head| + |s| <= |data| && data[cur + |head|..cur + |head| + |s|] == s
  {
    assert |data[cur..]| == |head| + |s| + |rest|;
    forall j | 0 <= j < |s| ensures data[cur + |head| + j] == s[j] {
      assert data[cur..][|head| + j] == (head + (s + rest))[|head| + j];
    }
  }

  lemma FixedReadsBack(data: seq<byte>, cur: nat, f: Field, e: seq<byte>, rest: seq<byte>)
    requires f.Ok() && (f.Int32? || f.Short? || f.Char?) && e == EncodeField(f)
    requires cur <= |data| && data[cur..] == e + rest
    ensures FieldAt(data, cur, f.KindOf()) == (Some(f), cur + |e|)
  {
    assert data[cur..cur + |e|] == data[cur..][..|e|] == e;
    match f {
      case Int32(i) => IntRoundTrip(i, 4);
      case Short(i) => IntRoundTrip(i, 2);
      case Char(_) =>
    }
  }

  lemma Int64ReadsBack(data: seq<byte>, cur: nat, i: int, e: seq<byte>, rest: seq<byte>)
    requires Int64(i).Ok() && e == EncodeField(Int64(i)) && cur <= |data| && data[cur..] == e + rest
    ensures FieldAt(data, cur, KInt64) == (Some(Int64(i)), cur + |e|)
    ensures !LengthOverlong(data, cur)
  {
    DecimalTextLength(i);
    DecimalTextRoundTrip(i);
    TextReadsBack(data, cur, SignedDecimal(i), i, e, rest);
  }

  lemma TextReadsBack(data: seq<byte>, cur: nat, t: Text, i: int, e: seq<byte>, rest: seq<byte>)
    requires |t| <= INT64_TEXT && Atoll(t) == i && e == EncodeString(t) && cur <= |data| && data[cur..] == e + rest
    ensures FieldAt(data, cur, KInt64) == (Some(Int64(i)), cur + |e|)
    ensures !LengthOverlong(data, cur)
  {
    StringReadsBack(data, cur, t, rest, Some(INT64_TEXT));
  }

  /** A text is taken for a number if and only if it has at most 128 bytes. */
  lemma NumberTextLimitIff(data: seq<byte>, cur: nat, t: Text, rest: seq<byte>)
    requires |t| < RANGE32 && cur <= |data| && data[cur..] == EncodeString(t) + rest
    ensures FieldAt(data, cur, KInt64).0.Some? <==> |t| <= 128
  {
    if |t| <= INT64_TEXT {
      StringReadsBack(data, cur, t, rest, Some(INT64_TEXT));
    } else {
      Associate(Encode(|t|), t, rest);
      LengthReadsBack(data, cur, |t|, t + rest);
    }
  }

  /** Any field reads back as written, wherever it stands, and the cursor ends right behind it. */
  lemma FieldReadsBack(data: seq<byte>, cur: nat, f: Field, e: seq<byte>, rest: seq<byte>)
    requires f.Ok() && e == EncodeField(f) && cur <= |data| && data[cur..] == e + rest
    ensures FieldAt(data, cur, f.KindOf()) == (Some(f), cur + |e|)
    ensures f.String? || f.Int64? ==> !LengthOverlong(data, cur)
  {
    match f {
      case String(s) => StringReadsBack(data, cur, s, rest, None);
      case Int64(i) => Int64ReadsBack(data, cur, i, e, rest);
      case _ => FixedReadsBack(data, cur, f, e, rest);
    }
  }

  lemma SmallPowers()
    ensures Pow256(2) == 0x1_0000 && Pow256(4) == RANGE32
  {
    assert Pow256(1) == 256 && Pow256(3) == 0x100_0000;
  }

  /** What is on the wire: integers in two's complement over their width, a character as itself, and
      text behind its length as a varint, 64-bit numbers as text. */
  lemma WireFormat(f: Field)
    requires f.Ok()
    ensures match f
            case Int32(i) => |EncodeField(f)| == 4 && FromBigEndian(EncodeField(f)) == (if i < 0 then i + RANGE32 else i)
            case Short(i) => |EncodeField(f)| == 2 && FromBigEndian(EncodeField(f)) == (if i < 0 then i + 0x1_0000 else i)
            case Char(c) => EncodeField(f) == [c]
            case String(s) => IsText(EncodeField(f), s)
            case Int64(i) => IsText(EncodeField(f), SignedDecimal(i))
  {
    SmallPowers();
    match f {
      case Int32(i) => EncodedIsTwosComplement(i, 4);
      case Short(i) => EncodedIsTwosComplement(i, 2);
      case Char(_) =>
      case String(s) => TextFormat(s);
      case Int64(i) => TextFormat(SignedDecimal(i));
    }
  }

  /** A varint that says how many bytes follow it, and these bytes. */
  predicate IsText(e: seq<byte>, s: seq<byte>) {
    Terminated(e) && Value(e) == |s| && CodeLength(e) + |s| == |e| && e[|e| - |s|..] == s
  }

  lemma TextFormat(s: seq<byte>)
    ensures IsText(EncodeString(s), s)
  {
    RoundTrip(|s|, s);
  }

  /** Reading never leaves the data: the cursor moves forward and ends within it, and a field of
      fixed width that does not fit is refused in place. */
  lemma CursorStaysInside(data: seq<byte>, cur: nat, kind: Kind)
    requires cur <= |data|
    ensures var (f, next) := FieldAt(data, cur, kind);
            && cur <= next <= |data| && (f.Some? ==> f.value.KindOf() == kind)
            && (kind == KInt32 ==> (f.None? <==> cur + 4 > |data|) && next == if f.None? then cur else cur + 4)
            && (kind == KShort ==> (f.None? <==> cur + 2 > |data|) && next == if f.None? then cur else cur + 2)
            && (kind == KChar ==> (f.None? <==> cur == |data|) && next == if f.None? then cur else cur + 1)
  {
  }

  /** What was read from the data is what stands there: writing a field of fixed width again gives
      the very bytes read, and a string is the last of them. */
  lemma ReadIsThere(data: seq<byte>, cur: nat, kind: Kind)
    requires cur <= |data| && FieldAt(data, cur, kind).0.Some?
    ensures var (f, next) := FieldAt(data, cur, kind);
            && cur <= next <= |data|
            && (kind != KString && kind != KInt64 ==> f.value.Ok() && EncodeField(f.value) == data[cur..next])
            && (kind == KString ==> |f.value.s| <= next - cur && f.value.s == data[next - |f.value.s|..next])
  {
    CursorStaysInside(data, cur, kind);
    match kind {
      case KInt32 => IntRoundTripBack(data[cur..cur + 4]);
      case KShort => IntRoundTripBack(data[cur..cur + 2]);
      case _ =>
    }
  }

  // ----- messages ----------------------------------------------------------

  ghost predicate AllOk(fs: seq<Field>) {
    forall i :: 0 <= i < |fs| ==> fs[i].Ok()
  }

  function EncodeAll(fs: seq<Field>): seq<byte>
    requires AllOk(fs)
  {
    if |fs| == 0 then [] else EncodeField(fs[0]) + EncodeAll(fs[1..])
  }

  function Kinds(fs: seq<Field>): seq<Kind> {
    if |fs| == 0 then [] else [fs[0].KindOf()] + Kinds(fs[1..])
  }

  /** Reading fields of the given kinds one after the other, stopping at the first failure. */
  function FieldsAt(data: seq<byte>, cur: nat, kinds: seq<Kind>): (Option<seq<Field>>, nat)
    decreases |kinds|
  {
    if |kinds| == 0 then (Some([]), cur)
    else
      var (f, next) := FieldAt(data, cur, kinds[0]);
      if f.None? then (None, next)
      else
        var (fs, end) := FieldsAt(data, next, kinds[1..]);
        (if fs.None? then None else Some([f.value] + fs.value), end)
  }

  lemma FieldsAtStep(data: seq<byte>, cur: nat, fs: seq<Field>, next: nat, end: nat)
    requires |fs| > 0 && FieldAt(data, cur, fs[0].KindOf()) == (Some(fs[0]), next)
    requires FieldsAt(data, next, Kinds(fs[1..])) == (Some(fs[1..]), end)
    ensures FieldsAt(data, cur, Kinds(fs)) == (Some(fs), end)
  {
    assert Kinds(fs)[0] == fs[0].KindOf() && Kinds(fs)[1..] == Kinds(fs[1..]);
    assert [fs[0]] + fs[1..] == fs;
  }

  lemma {:induction false} FieldsReadBack(data: seq<byte>, cur: nat, fs: seq<Field>)
    requires AllOk(fs) && cur <= |data| && data[cur..] == EncodeAll(fs)
    ensures FieldsAt(data, cur, Kinds(fs)) == (Some(fs), |data|)
    decreases |fs|
  {
    if |fs| > 0 {
      var e, rest := EncodeField(fs[0]), EncodeAll(fs[1..]);
      DropField(data, cur, e, rest);
      FieldReadsBack(data, cur, fs[0], e, rest);
      FieldsReadBack(data, cur + |e|, fs[1..]);
      FieldsAtStep(data, cur, fs, cur + |e|, |data|);
    }
  }

  lemma DropField(data: seq<byte>, cur: nat, e: seq<byte>, rest: seq<byte>)
    requires cur <= |data| && data[cur..] == e + rest
    ensures cur + |e| <= |data| && data[cur + |e|..] == rest
  {
    assert |data[cur..]| == |e| + |rest|;
    assert data[cur + |e|..] == data[cur..][|e|..];
  }

  /** BinaryStreamWriter::Flush: the length, in network order, over the first four bytes. */
  function Flushed(data: seq<byte>): (r: seq<byte>)
    requires |data| >= 4
    ensures |r| == |data|
  {
    BigEndian(|data| % RANGE32, 4) + data[4..]
  }

  /** Whatever fields are written after the (uninitialised) header, flushing leaves the payload
      alone, puts the total length in front, and reading the same kinds returns the same values
      and stops exactly at the end of the message. */
  lemma MessageRoundTrip(junk: seq<byte>, fs: seq<Field>)
    requires |junk| == HEADER && AllOk(fs)
    ensures var d := Flushed(junk + EncodeAll(fs));
            && FromBigEndian(d[..4]) == |d| % RANGE32
            && d[HEADER..] == EncodeAll(fs) && d[4..HEADER] == junk[4..]
            && FieldsAt(d, HEADER, Kinds(fs)) == (Some(fs), |d|)
  {
    var data := junk + EncodeAll(fs);
    var d := Flushed(data);
    FlushSetsLength(data);
    assert data[HEADER..] == EncodeAll(fs) && data[4..HEADER] == junk[4..];
    FieldsReadBack(d, HEADER, fs);
  }

  /** Flushing puts the length in front and changes nothing else. */
  lemma FlushSetsLength(data: seq<byte>)
    requires |data| >= HEADER
    ensures var d := Flushed(data);
            && FromBigEndian(d[..4]) == |d| % RANGE32
            && d[4..HEADER] == data[4..HEADER] && d[HEADER..] == data[HEADER..]
  {
    var d := Flushed(data);
    SmallPowers();
    BigEndianRoundTrip(|d| % RANGE32, 4);
    assert d[..4] == BigEndian(|d| % RANGE32, 4);
  }

  // ----- the classes -------------------------------------------------------

  class BinaryStreamWriter {
    var data: seq<byte>

    /** The header is left uninitialised: any six bytes. */
    constructor (junk: seq<byte>)
      requires |junk| == HEADER
      ensures data == junk
    {
      data := junk;
    }

    method WriteCString(str: seq<byte>)
      requires |str| < RANGE64
      modifies this
      ensures data == old(data) + EncodeString(str)
    {
      var buf := Write7BitEncoded64(|str| as uint64, []);
      data := data + buf;
      data := data + str;
      assert data == old(data) + EncodeString(str);
    }

    method WriteInt32(i: int)
      requires Int32(i).Ok()
      modifies this
      ensures data == old(data) + EncodeField(Int32(i))
    {
      data := data + EncodeInt(i, 4);
    }

    method WriteShort(i: int)
      requires Short(i).Ok()
      modifies this
      ensures data == old(data) + EncodeField(Short(i))
    {
      data := data + EncodeInt(i, 2);
    }

    method WriteChar(c: byte)
      modifies this
      ensures data == old(data) + EncodeField(Char(c))
    {
      data := data + [c];
    }

    method WriteInt64(i: int)
      requires Int64(i).Ok()
      modifies this
      ensures data == old(data) + EncodeField(Int64(i))
    {
      DecimalTextLength(i);
      WriteCString(SignedDecimal(i));
    }

    method Flush()
      requires |data| >= HEADER
      modifies this
      ensures data == Flushed(old(data))
    {
      var ulen := BigEndian(|data| % RANGE32, 4);
      data := ulen + data[4..];
    }
  }

  class BinaryStreamReader {
    const data: seq<byte>
    var cur: nat

    /** The cursor is put behind the header even when the data is shorter than that. */
    constructor (data: seq<byte>)
      ensures this.data == data && cur == HEADER
    {
      this.data := data;
      cur := HEADER;
    }

    /** The scan may look at bytes beyond the data; what it finds there never matters. */
    method ReadLengthWithoutOffset() returns (ok: bool, headlen: nat, outlen: nat)
      requires !LengthOverlong(data, cur)
      ensures (if ok then Some((headlen, outlen)) else None) == LengthAt(data, cur)
    {
      headlen := 0;
      outlen := 0;
      var buf: seq<byte> := [];
      var done := false;
      while headlen < 5 && !done
        invariant |buf| == headlen <= 5
        invariant forall i :: 0 <= i < headlen && cur + i < |data| ==> buf[i] == data[cur + i]
        invariant forall i :: 0 <= i < headlen - 1 ==> buf[i] >= 128
        invariant done <==> headlen > 0 && buf[headlen - 1] < 128
      {
        var b: byte := *;
        if cur + headlen < |data| {
          b := data[cur + headlen];
        }
        buf := buf + [b];
        headlen := headlen + 1;
        done := b < 128;
      }
      if cur + headlen > |data| {
        if cur <= |data| {
          assert forall i :: 0 <= i < |data| - cur ==> data[cur..][i] == buf[i] >= 128;
          OpenEnded(data[cur..], |data| - cur);
        }
        return false, headlen, 0;
      }
      assert buf == data[cur..cur + headlen];
      assert done by {
        assert forall j :: cur <= j < cur + headlen ==> data[j] == buf[j - cur];
      }
      Closed(buf, data[cur..], headlen);
      outlen := Read7BitEncoded(buf, RANGE32);
      ok := true;
    }

    /** ReadString with maxlen 0 has no limit; ReadCString always has one. */
    method ReadString(limit: Option<nat>) returns (s: Option<seq<byte>>)
      requires !LengthOverlong(data, cur)
      modifies this
      ensures (s, cur) == StringAt(data, old(cur), limit)
    {
      var ok, headlen, fieldlen := ReadLengthWithoutOffset();
      if !ok {
        return None;
      }
      if limit.Some? && fieldlen > limit.value {
        return None;
      }
      cur := cur + headlen;
      if cur + fieldlen > |data| {
        return None;
      }
      s := Some(data[cur..cur + fieldlen]);
      cur := cur + fieldlen;
    }

    method ReadInt32() returns (i: Option<int>)
      modifies this
      ensures (if i.Some? then Some(Int32(i.value)) else None, cur) == FieldAt(data, old(cur), KInt32)
    {
      if cur + 4 > |data| {
        return None;
      }
      i := Some(DecodeInt(data[cur..cur + 4]));
      cur := cur + 4;
    }

    method ReadShort() returns (i: Option<int>)
      modifies this
      ensures (if i.Some? then Some(Short(i.value)) else None, cur) == FieldAt(data, old(cur), KShort)
    {
      if cur + 2 > |data| {
        return None;
      }
      i := Some(DecodeInt(data[cur..cur + 2]));
      cur := cur + 2;
    }

    method ReadChar() returns (c: Option<byte>)
      modifies this
      ensures (if c.Some? then Some(Char(c.value)) else None, cur) == FieldAt(data, old(cur), KChar)
    {
      if cur + 1 > |data| {
        return None;
      }
      c := Some(data[cur]);
      cur := cur + 1;
    }

    method ReadInt64() returns (i: Option<int>)
      requires !LengthOverlong(data, cur)
      modifies this
      ensures (if i.Some? then Some(Int64(i.value)) else None, cur) == FieldAt(data, old(cur), KInt64)
    {
      var s := ReadString(Some(INT64_TEXT));
      if s.None? {
        return None;
      }
      i := Some(Atoll(s.value));
    }

    method IsEnd() returns (b: bool)
      requires cur <= |data|
      ensures b <==> data[cur..] == []
    {
      b := cur == |data|;
    }
  }

  /** If the first n bytes are all there is and all continue, no code ends within the data. */
  lemma {:induction false} OpenEnded(s: seq<byte>, n: nat)
    requires |s| == n && forall i :: 0 <= i < n ==> s[i] >= 128
    ensures !Terminated(s)
  {
    if n > 0 {
      OpenEnded(s[1..], n - 1);
    }
  }

  /** A code decodes the same whether or not more data follows. */
  lemma {:induction false} Closed(buf: seq<byte>, s: seq<byte>, n: nat)
    requires 1 <= n == |buf| <= |s| && buf == s[..n]
    requires buf[n - 1] < 128 && forall i :: 0 <= i < n - 1 ==> buf[i] >= 128
    ensures Terminated(buf) && Terminated(s)
    ensures CodeLength(buf) == CodeLength(s) == n && Value(buf) == Value(s)
  {
    if n > 1 {
      assert buf[1..] == s[1..][..n - 1];
      Closed(buf[1..], s[1..], n - 1);
    }
  }
}
