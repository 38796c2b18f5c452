/** server/src/log/whisp_log.cpp, log_output_binary and form_log: a hex dump built chunk by chunk
    in a fixed buffer of 1544 bytes.

    `Form` is the text of one chunk; `Decode` is an independent reader that strips line headers
    and blanks. The theorems say that the buffer is always large enough and that decoding a
    dump gives back the dumped bytes under consecutive line numbers. */
module BinaryDumps {
  import opened Common
  import opened Bytes

  const SPACE: byte := 32
  const NEWLINE: byte := 10
  const PRINT_SIZE: nat := 512
  const BUF_SIZE: nat := 1544        // PRINT_SIZE * 3 + 8

  // ----- the text ----------------------------------------------------------

  /** The counter is 32 bits wide. */
  function U32(i: nat): (r: nat)
    ensures r < 0x1_0000_0000
  {
    if i < 0x1_0000_0000 then i else U32(i - 0x1_0000_0000)
  }

  /** printf's "%06u" of the counter. */
  function LineNumber(i: nat): Text {
    Padded(Decimal(U32(i)))
  }

  /** Zeros in front up to six characters. */
  function Padded(s: Text): (r: Text)
    ensures |r| == if |s| < 6 then 6 else |s|
    decreases 6 - |s|
  {
    if |s| < 6 then Padded([ZERO] + s) else s
  }

  function Head(i: nat): Text {
    LineNumber(i) + [SPACE]
  }

  function HexDigit(n: nat): byte
    requires n < 16
  {
    if n < 10 then ZERO + n else 97 + (n - 10)
  }

  lemma HexDigitIs(n: nat)
    requires n < 16
    ensures HexDigit(n) as char == "0123456789abcdef"[n]
  {
  }

  function Hex(b: byte): Text {
    [HexDigit(b / 16), HexDigit(b % 16)]
  }

  /** What precedes the n-th byte of a chunk whose first line has number `index`: lines hold 32
      bytes, and a blank precedes each half. */
  function Separator(n: nat, index: nat): Text {
    if n > 32 then Separator(n - 32, index + 1)
    else if n == 32 then [NEWLINE] + Head(index + 1) + [SPACE]
    else if n == 0 then Head(index) + [SPACE]
    else if n == 16 then [SPACE]
    else []
  }

  /** The text of a chunk, without its final newline. */
  function Form(bs: seq<byte>, index: nat): Text {
    if bs == [] then []
    else var n := |bs| - 1; Form(bs[..n], index) + Separator(n, index) + Hex(bs[n])
  }

  function LinesOf(n: nat): nat {
    (n + 31) / 32
  }

  /** Bytes printed by the next chunk. */
  function ChunkSize(n: nat): (k: nat)
    ensures k <= n && (n > 0 ==> k > 0)
  {
    if n > PRINT_SIZE then PRINT_SIZE else n
  }

  /** The whole dump: chunks of 512 bytes, numbered on. */
  function DumpText(bs: seq<byte>, index: nat): Text {
    if bs == [] then []
    else
      var k := ChunkSize(|bs|);
      Form(bs[..k], index) + [NEWLINE] + DumpText(bs[k..], index + LinesOf(k))
  }

  predicate NoZero(s: Text) {
    forall i :: 0 <= i < |s| ==> s[i] != 0
  }

  lemma HeadLength(i: nat)
    ensures 7 <= |Head(i)| <= 11 && NoZero(Head(i))
  {
    PowersOfTen();
    DecimalLength(U32(i), 10);
    PaddingKeepsValue(Decimal(U32(i)));
  }

  /** The same in terms of remainders. */
  lemma {:induction false} SeparatorShape(n: nat, index: nat)
    ensures Separator(n, index) ==
              if n % 32 == 0 then (if n > 0 then [NEWLINE] else []) + Head(index + n / 32) + [SPACE]
              else if n % 16 == 0 then [SPACE]
              else []
  {
    if n > 32 {
      SeparatorShape(n - 32, index + 1);
      assert (n - 32) % 32 == n % 32 && (n - 32) / 32 == n / 32 - 1 && (n - 32) % 16 == n % 16;
    }
  }

  lemma SeparatorLength(n: nat, index: nat)
    ensures |Separator(n, index)| <= (if n % 32 == 0 then 12 else 0) + (if n % 16 == 0 then 1 else 0)
    ensures NoZero(Separator(n, index))
  {
    SeparatorShape(n, index);
    HeadLength(index + n / 32);
  }

  lemma LinesStep(n: nat)
    ensures LinesOf(n + 1) == LinesOf(n) + (if n % 32 == 0 then 1 else 0)
    ensures n % 32 == 0 ==> LinesOf(n) == n / 32
  {
  }

  /** A bound on the characters a chunk of n bytes takes: two a byte, a blank every 16 and at
      most twelve a line. */
  function Budget(n: nat): nat {
    2 * n + (n + 15) / 16 + 12 * LinesOf(n)
  }

  lemma BudgetStep(n: nat)
    ensures Budget(n + 1) == Budget(n) + 2 + (if n % 32 == 0 then 12 else 0) + (if n % 16 == 0 then 1 else 0)
    ensures n <= PRINT_SIZE ==> Budget(n) <= 1248
  {
    LinesStep(n);
  }

  lemma {:induction false} FormLength(bs: seq<byte>, index: nat)
    ensures |Form(bs, index)| <= Budget(|bs|) && NoZero(Form(bs, index))
  {
    if bs != [] {
      var n := |bs| - 1;
      FormLength(bs[..n], index);
      SeparatorLength(n, index);
      BudgetStep(n);
    }
  }

  // ----- the reader --------------------------------------------------------

  /** Reader state: in a line header with the number read so far, or in the line's body with
      perhaps one hex digit pending; the line numbers and bytes read so far. */
  datatype Reader = Reader(inHead: bool, number: int, pending: int, lines: seq<int>, out: seq<int>)

  function HexValue(c: byte): int {
    if IsDigit(c) then c - ZERO else c - 97 + 10
  }

  function Feed(r: Reader, c: byte): Reader {
    if r.inHead then
      if c == SPACE then r.(inHead := false, lines := r.lines + [r.number]) else r.(number := 10 * r.number + (c - ZERO))
    else if c == SPACE then r
    else if c == NEWLINE then r.(inHead := true, number := 0)
    else if r.pending < 0 then r.(pending := HexValue(c))
    else r.(pending := -1, out := r.out + [16 * r.pending + HexValue(c)])
  }

  function FeedTo(r: Reader, s: Text, k: nat): Reader
    requires k <= |s|
  {
    if k == 0 then r else Feed(FeedTo(r, s, k - 1), s[k - 1])
  }

  function FeedAll(r: Reader, s: Text): Reader {
    FeedTo(r, s, |s|)
  }

  /** The reader at the start of a line, having read these lines and bytes. */
  function AtLineStart(lines: seq<int>, out: seq<int>): Reader {
    Reader(true, 0, -1, lines, out)
  }

  function Decode(s: Text): Reader {
    FeedAll(AtLineStart([], []), s)
  }

  /** n consecutive counter values from `index` on. */
  function Numbers(index: nat, n: nat): (r: seq<int>)
    ensures |r| == n
  {
    if n == 0 then [] else Numbers(index, n - 1) + [U32(index + (n - 1))]
  }

  lemma {:induction false} FeedPrefix(r: Reader, a: Text, b: Text, k: nat)
    requires k <= |a|
    ensures FeedTo(r, a + b, k) == FeedTo(r, a, k)
  {
    if k > 0 {
      FeedPrefix(r, a, b, k - 1);
    }
  }

  lemma {:induction false} FeedConcatTo(r: Reader, a: Text, b: Text, k: nat)
    requires k <= |b|
    ensures FeedTo(r, a + b, |a| + k) == FeedTo(FeedAll(r, a), b, k)
  {
    if k > 0 {
      FeedConcatTo(r, a, b, k - 1);
    } else {
      FeedPrefix(r, a, b, |a|);
    }
  }

  lemma FeedConcat(r: Reader, a: Text, b: Text)
    ensures FeedAll(r, a + b) == FeedAll(FeedAll(r, a), b)
  {
    FeedConcatTo(r, a, b, |b|);
  }

  lemma FeedTwo(r: Reader, a: Text, b: Text, s: Reader, t: Reader)
    requires FeedAll(r, a) == s && FeedAll(s, b) == t
    ensures FeedAll(r, a + b) == t
  {
    FeedConcat(r, a, b);
  }

  lemma FeedThree(r: Reader, a: Text, b: Text, c: Text, s: Reader, t: Reader, u: Reader)
    requires FeedAll(r, a) == s && FeedAll(s, b) == t && FeedAll(t, c) == u
    ensures FeedAll(r, a + b + c) == u
  {
    FeedTwo(r, a, b, s, t);
    FeedTwo(r, a + b, c, t, u);
  }

  lemma FeedOne(r: Reader, c: byte)
    ensures FeedAll(r, [c]) == Feed(r, c)
  {
    assert FeedTo(r, [c], 0) == r;
  }

  lemma {:induction false} FeedDigits(r: Reader, s: Text, k: nat)
    requires k <= |s| && r.inHead && r.number == 0 && forall i :: 0 <= i < |s| ==> IsDigit(s[i])
    ensures FeedTo(r, s, k) == r.(number := DecimalValue(s[..k]))
  {
    if k > 0 {
      FeedDigits(r, s, k - 1);
      assert s[..k][..k - 1] == s[..k - 1];
    }
  }

  lemma {:induction false} LeadingZero(s: Text)
    ensures DecimalValue([ZERO] + s) == DecimalValue(s)
  {
    if s != [] {
      LeadingZero(s[..|s| - 1]);
      assert ([ZERO] + s)[..|s|] == [ZERO] + s[..|s| - 1];
    } else {
      assert ([ZERO] + s)[..0] == [];
    }
  }

  lemma {:induction false} PaddingKeepsValue(s: Text)
    requires forall i :: 0 <= i < |s| ==> IsDigit(s[i])
    ensures DecimalValue(Padded(s)) == DecimalValue(s)
    ensures forall i :: 0 <= i < |Padded(s)| ==> IsDigit(Padded(s)[i])
    decreases 6 - |s|
  {
    if |s| < 6 {
      LeadingZero(s);
      PaddingKeepsValue([ZERO] + s);
    }
  }

  lemma HeadDecodes(lines: seq<int>, out: seq<int>, i: nat)
    ensures FeedAll(AtLineStart(lines, out), Head(i))
            == Reader(false, U32(i), -1, lines + [U32(i)], out)
  {
    var r := AtLineStart(lines, out);
    PaddingKeepsValue(Decimal(U32(i)));
    DecimalRoundTrip(U32(i));
    FeedDigits(r, LineNumber(i), |LineNumber(i)|);
    assert LineNumber(i)[..|LineNumber(i)|] == LineNumber(i);
    FeedConcat(r, LineNumber(i), [SPACE]);
    FeedOne(r.(number := U32(i)), SPACE);
  }

  lemma HexDecodes(r: Reader, b: byte)
    requires !r.inHead && r.pending == -1
    ensures FeedAll(r, Hex(b)) == r.(out := r.out + [b])
  {
    assert FeedTo(r, Hex(b), 1) == Feed(FeedTo(r, Hex(b), 0), Hex(b)[0]);
    assert 16 * (b / 16) + b % 16 == b;
  }

  /** The reader inside a line, between two bytes. */
  predicate Between(r: Reader) {
    !r.inHead && r.pending == -1
  }

  lemma NewlineDecodes(r: Reader)
    requires Between(r)
    ensures FeedAll(r, [NEWLINE]) == AtLineStart(r.lines, r.out)
  {
    FeedOne(r, NEWLINE);
  }

  lemma SpaceDecodes(r: Reader)
    requires Between(r)
    ensures FeedAll(r, [SPACE]) == r
  {
    FeedOne(r, SPACE);
  }

  /** A separator that starts a line reads as that line's number; any other reads as nothing. */
  lemma SeparatorDecodes(r: Reader, n: nat, index: nat)
    requires if n == 0 then r == AtLineStart(r.lines, r.out) else Between(r)
    ensures var t := FeedAll(r, Separator(n, index));
            && Between(t) && t.out == r.out
            && t.lines == if n % 32 == 0 then r.lines + [U32(index + n / 32)] else r.lines
  {
    SeparatorShape(n, index);
    if n % 32 == 0 {
      LineStartDecodes(r, n > 0, index + n / 32);
    } else if n % 16 == 0 {
      SpaceDecodes(r);
    }
  }

  lemma LineStartDecodes(r: Reader, later: bool, i: nat)
    requires if later then Between(r) else r == AtLineStart(r.lines, r.out)
    ensures FeedAll(r, (if later then [NEWLINE] else []) + Head(i) + [SPACE])
            == Reader(false, U32(i), -1, r.lines + [U32(i)], r.out)
  {
    var nl: Text := if later then [NEWLINE] else [];
    var start := AtLineStart(r.lines, r.out);
    var body := Reader(false, U32(i), -1, r.lines + [U32(i)], r.out);
    if later { NewlineDecodes(r); }
    HeadDecodes(r.lines, r.out, i);
    SpaceDecodes(body);
    FeedThree(r, nl, Head(i), [SPACE], start, body, body);
  }

  /** From r on, the text has read as the bytes bs in lines numbered from `index` on. */
  predicate HasRead(r: Reader, t: Reader, index: nat, bs: seq<int>) {
    && (if |bs| == 0 then t == AtLineStart(t.lines, t.out) else Between(t))
    && t.lines == r.lines + Numbers(index, LinesOf(|bs|)) && t.out == r.out + bs
  }

  lemma {:induction false} FormDecodes(r: Reader, bs: seq<byte>, index: nat, form: Text)
    requires r == AtLineStart(r.lines, r.out) && form == Form(bs, index)
    ensures HasRead(r, FeedAll(r, form), index, bs)
  {
    if |bs| == 0 {
      NothingRead(r, index, form, bs);
    } else {
      var n := |bs| - 1;
      var front, b := bs[..n], bs[n];
      assert bs == front + [b];
      FormSnocOf(front, b, index, bs);
      FormDecodes(r, front, index, Form(front, index));
      FormNext(r, Form(front, index), form, front, bs, index, b);
    }
  }

  lemma NothingRead(r: Reader, index: nat, form: Text, bs: seq<byte>)
    requires r == AtLineStart(r.lines, r.out) && |form| == |bs| == 0
    ensures HasRead(r, FeedAll(r, form), index, bs)
  {
  }

  lemma FormNext(r: Reader, text: Text, form: Text, front: seq<byte>, bs: seq<byte>, index: nat, b: byte)
    requires bs == front + [b] && form == text + Separator(|front|, index) + Hex(b)
    requires HasRead(r, FeedAll(r, text), index, front)
    ensures HasRead(r, FeedAll(r, form), index, bs)
  {
    ByteDecodes(FeedAll(r, text), |front|, index, b);
    FormStep(r, text, Separator(|front|, index), Hex(b), form, front, bs, index, b);
  }

  lemma FormStep(r: Reader, text: Text, sep: Text, hex: Text, form: Text, front: seq<byte>, bs: seq<byte>, index: nat, b: byte)
    requires bs == front + [b] && form == text + sep + hex && HasRead(r, FeedAll(r, text), index, front)
    requires ByteRead(FeedAll(r, text), FeedAll(FeedAll(FeedAll(r, text), sep), hex), |front|, index, b)
    ensures HasRead(r, FeedAll(r, form), index, bs)
  {
    var s := FeedAll(r, text);
    var t := FeedAll(s, sep);
    FeedThree(r, text, sep, hex, s, t, FeedAll(t, hex));
    OneMoreRead(r, s, FeedAll(t, hex), index, front, b, bs);
  }

  lemma OneMoreRead(r: Reader, s: Reader, t: Reader, index: nat, front: seq<byte>, b: byte, bs: seq<byte>)
    requires bs == front + [b] && HasRead(r, s, index, front) && ByteRead(s, t, |front|, index, b)
    ensures HasRead(r, t, index, bs)
  {
    NumbersGrow(r.lines, index, |front|);
    Associate(r.out, front, [b]);
  }

  lemma NumbersGrow(lines: seq<int>, index: nat, n: nat)
    ensures lines + Numbers(index, LinesOf(n + 1))
            == if n % 32 == 0 then lines + Numbers(index, LinesOf(n)) + [U32(index + n / 32)]
               else lines + Numbers(index, LinesOf(n))
  {
    LinesStep(n);
  }

  /** From r to t, the n-th byte of a chunk has been read. */
  predicate ByteRead(r: Reader, t: Reader, n: nat, index: nat, b: int) {
    && Between(t) && t.out == r.out + [b]
    && t.lines == if n % 32 == 0 then r.lines + [U32(index + n / 32)] else r.lines
  }

  lemma ByteDecodes(r: Reader, n: nat, index: nat, b: byte)
    requires if n == 0 then r == AtLineStart(r.lines, r.out) else Between(r)
    ensures ByteRead(r, FeedAll(FeedAll(r, Separator(n, index)), Hex(b)), n, index, b)
  {
    SeparatorDecodes(r, n, index);
    HexDecodes(FeedAll(r, Separator(n, index)), b);
  }

  lemma {:induction false} NumbersAt(index: nat, n: nat, i: nat)
    requires i < n
    ensures Numbers(index, n)[i] == U32(index + i)
  {
    if i < n - 1 {
      NumbersAt(index, n - 1, i);
    }
  }

  // ----- the whole dump ----------------------------------------------------

  /** Behind whole lines, a separator is that of a chunk of its own, after a newline. */
  lemma {:induction false} ShiftedSeparator(lines: nat, m: nat, index: nat)
    requires lines > 0
    ensures m > 0 ==> Separator(32 * lines + m, index) == Separator(m, index + lines)
    ensures m == 0 ==> Separator(32 * lines, index) == [NEWLINE] + Separator(0, index + lines)
  {
    if lines > 1 {
      ShiftedSeparator(lines - 1, m, index + 1);
    }
  }

  lemma FormSnocOf(front: seq<byte>, b: byte, index: nat, bs: seq<byte>)
    requires bs == front + [b]
    ensures Form(bs, index) == Form(front, index) + Separator(|front|, index) + Hex(b)
  {
    assert bs[..|front|] == front;
  }

  lemma GlueFirst(whole: Text, text: Text, between: Text, sep: Text, hex: Text, part: Text)
    requires whole == text + between + hex && between == [NEWLINE] + sep && part == sep + hex
    ensures whole == text + [NEWLINE] + part
  {
  }

  lemma GlueNext(whole: Text, front: Text, text: Text, more: Text, sep: Text, hex: Text, part: Text)
    requires whole == front + sep + hex && front == text + [NEWLINE] + more && part == more + sep + hex
    ensures whole == text + [NEWLINE] + part
  {
  }

  lemma FormConcatFirst(a: seq<byte>, x: byte, index: nat, lines: nat, bs: seq<byte>)
    requires |a| == 32 * lines > 0 && bs == a + [x]
    ensures Form(bs, index) == Form(a, index) + [NEWLINE] + Form([x], index + lines)
  {
    FormSnocOf(a, x, index, bs);
    ShiftedSeparator(lines, 0, index);
    OneByte(x, index + lines);
    GlueFirst(Form(bs, index), Form(a, index), Separator(|a|, index), Separator(0, index + lines), Hex(x),
              Form([x], index + lines));
  }

  lemma OneByte(x: byte, index: nat)
    ensures Form([x], index) == Separator(0, index) + Hex(x)
  {
    assert [x][..0] == [];
    assert Form([], index) + Separator(0, index) == Separator(0, index);
  }

  lemma FormConcatNext(front: seq<byte>, b: seq<byte>, x: byte, index: nat, lines: nat, text: Text,
                       front': seq<byte>, b': seq<byte>)
    requires b != [] && |front| == 32 * lines + |b| && lines > 0 && front' == front + [x] && b' == b + [x]
    requires Form(front, index) == text + [NEWLINE] + Form(b, index + lines)
    ensures Form(front', index) == text + [NEWLINE] + Form(b', index + lines)
  {
    FormSnocOf(front, x, index, front');
    FormSnocOf(b, x, index + lines, b');
    ShiftedSeparator(lines, |b|, index);
    GlueNext(Form(front', index), Form(front, index), text, Form(b, index + lines),
             Separator(|b|, index + lines), Hex(x), Form(b', index + lines));
  }

  /** The text of whole lines followed by more is the two texts, a newline between them. */
  lemma {:induction false} FormConcat(a: seq<byte>, b: seq<byte>, index: nat, lines: nat, bs: seq<byte>)
    requires |a| == 32 * lines > 0 && b != [] && bs == a + b
    ensures Form(bs, index) == Form(a, index) + [NEWLINE] + Form(b, index + lines)
    decreases |b|
  {
    var m := |b| - 1;
    var b0, x, front := b[..m], b[m], bs[..|a| + m];
    assert bs == front + [x] && b == b0 + [x] && front == a + b0;
    if m == 0 {
      assert b == [x];
      FormConcatFirst(a, x, index, lines, bs);
    } else {
      FormConcat(a, b0, index, lines, front);
      FormConcatNext(front, b0, x, index, lines, Form(a, index), bs, b);
    }
  }

  /** Chunks do not show: the dump is the text of the whole buffer. */
  lemma {:induction false} DumpIsForm(bs: seq<byte>, index: nat)
    requires bs != []
    ensures DumpText(bs, index) == Form(bs, index) + [NEWLINE]
    decreases |bs|
  {
    if |bs| <= PRINT_SIZE {
      assert bs[..|bs|] == bs && bs[|bs|..] == [];
    } else {
      var front, back := bs[..PRINT_SIZE], bs[PRINT_SIZE..];
      assert bs == front + back;
      DumpIsForm(back, index + 16);
      FormConcat(front, back, index, 16, bs);
      Associate(Form(front, index) + [NEWLINE], Form(back, index + 16), [NEWLINE]);
    }
  }

  /** Whatever is dumped, stripping headers and blanks gives it back, and the lines are numbered
      consecutively across chunk boundaries. */
  lemma DumpDecodes(bs: seq<byte>)
    ensures var r := Decode(DumpText(bs, 0));
            r.out == bs && r.inHead && r.pending == -1 && r.lines == Numbers(0, LinesOf(|bs|))
  {
    if bs != [] {
      var start, text := AtLineStart([], []), Form(bs, 0);
      DumpIsForm(bs, 0);
      FormDecodes(start, bs, 0, text);
      FeedConcat(start, text, [NEWLINE]);
      NewlineDecodes(FeedAll(start, text));
      assert [] + bs == bs && [] + Numbers(0, LinesOf(|bs|)) == Numbers(0, LinesOf(|bs|));
    }
  }

  // ----- the buffer --------------------------------------------------------

  /** strlen. */
  method Strlen(buf: array<byte>) returns (n: nat)
    requires exists i :: 0 <= i < buf.Length && buf[i] == 0
    ensures n < buf.Length && buf[n] == 0 && forall i :: 0 <= i < n ==> buf[i] != 0
  {
    n := 0;
    while buf[n] != 0
      invariant 0 <= n < buf.Length
      invariant forall i :: 0 <= i < n ==> buf[i] != 0
      invariant exists i :: n <= i < buf.Length && buf[i] == 0
      decreases buf.Length - n
    {
      n := n + 1;
    }
  }

  /** The first len bytes are a C string and the rest of the buffer is still zero. */
  ghost predicate Filled(buf: array<byte>, len: nat)
    reads buf
  {
    len <= buf.Length && NoZero(buf[..len]) && forall i :: len <= i < buf.Length ==> buf[i] == 0
  }

  /** strcat: the text goes wherever the string in buf ends, which is at len. */
  method Strcat(buf: array<byte>, s: Text, ghost len: nat)
    requires Filled(buf, len) && len + |s| < buf.Length && NoZero(s)
    modifies buf
    ensures Filled(buf, len + |s|) && buf[..len + |s|] == old(buf[..len]) + s
  {
    assert forall i :: 0 <= i < len ==> buf[i] == buf[..len][i];
    assert buf[len] == 0;
    var end := Strlen(buf);
    assert end == len;
    var j := 0;
    while j < |s|
      invariant 0 <= j <= |s|
      invariant buf[..len + j] == old(buf[..len]) + s[..j]
      invariant forall i :: len + j <= i < buf.Length ==> buf[i] == 0
    {
      buf[end + j] := s[j];
      j := j + 1;
      assert buf[..len + j] == buf[..len + (j - 1)] + [s[j - 1]];
    }
    assert s[..j] == s;
    NoZeroConcat(old(buf[..len]), s);
  }

  lemma NoZeroConcat(a: Text, b: Text)
    requires NoZero(a) && NoZero(b)
    ensures NoZero(a + b)
  {
  }

  method Put(buf: array<byte>, len: nat, c: byte) returns (len': nat)
    requires Filled(buf, len) && len < buf.Length && c != 0
    modifies buf
    ensures len' == len + 1 && Filled(buf, len') && buf[..len'] == old(buf[..len]) + [c]
  {
    buf[len] := c;
    len' := len + 1;
    assert buf[..len'] == buf[..len] + [c];
    NoZeroConcat(old(buf[..len]), [c]);
  }

  /** The separator before byte n of a chunk, with headLen zero only at the very first. */
  method PutSeparator(buf: array<byte>, len: nat, n: nat, number: nat, headLen: nat, ghost index: nat)
    returns (len': nat, number': nat, headLen': nat)
    requires Filled(buf, len) && len + 14 < buf.Length
    requires (headLen == 0 <==> n == 0) && number == index + LinesOf(n)
    modifies buf
    ensures Filled(buf, len') && buf[..len'] == old(buf[..len]) + Separator(n, index)
    ensures number' == index + LinesOf(n + 1) && headLen' != 0
  {
    len', number', headLen' := len, number, headLen;
    ghost var before: Text := buf[..len];
    ghost var head: Text := if n % 32 == 0 then (if n > 0 then [NEWLINE] else []) + Head(number) else [];
    LinesStep(n);
    SeparatorParts(n, index, number, head);
    if n % 32 == 0 {
      len', headLen' := PutHead(buf, len', number, headLen);
      number' := number + 1;
    }
    EndsWith(buf[..len'], before, head);
    if n % 16 == 0 && headLen' != 0 {
      len' := Put(buf, len', SPACE);
    }
    Associate(before, head, if n % 16 == 0 then [SPACE] else []);
  }

  lemma EndsWith(text: Text, before: Text, head: Text)
    requires text == before + head || (head == [] && text == before)
    ensures text == before + head && text + [] == text
  {
  }

  lemma SeparatorParts(n: nat, index: nat, number: nat, head: Text)
    requires n % 32 == 0 ==> number == index + n / 32
    requires head == if n % 32 == 0 then (if n > 0 then [NEWLINE] else []) + Head(number) else []
    ensures Separator(n, index) == head + (if n % 16 == 0 then [SPACE] else [])
  {
    SeparatorShape(n, index);
    if n % 32 == 0 {
      assert n == 16 * (2 * (n / 32));
    }
  }

  /** A line's header, after a newline unless it is the first. */
  method PutHead(buf: array<byte>, len: nat, number: nat, headLen: nat) returns (len': nat, headLen': nat)
    requires Filled(buf, len) && len + 13 < buf.Length
    modifies buf
    ensures Filled(buf, len') && len' <= len + 12 && headLen' != 0
    ensures buf[..len'] == old(buf[..len]) + ((if headLen != 0 then [NEWLINE] else []) + Head(number))
  {
    HeadLength(number);
    len' := len;
    if headLen != 0 {
      len' := Put(buf, len', NEWLINE);
    }
    var head := Head(number);
    headLen' := |head|;
    Strcat(buf, head, len');
    len' := len' + headLen';
  }

  method PutHex(buf: array<byte>, len: nat, b: byte) returns (len': nat)
    requires Filled(buf, len) && len + 2 < buf.Length
    modifies buf
    ensures len' == len + 2 && Filled(buf, len') && buf[..len'] == old(buf[..len]) + Hex(b)
  {
    len' := Put(buf, len, HexDigit(b / 16));
    len' := Put(buf, len', HexDigit(b % 16));
  }

  lemma FormSnoc(bytes: seq<byte>, n: nat, index: nat)
    requires n < |bytes| <= PRINT_SIZE
    ensures Form(bytes[..n + 1], index) == Form(bytes[..n], index) + Separator(n, index) + Hex(bytes[n])
    ensures |Form(bytes[..n + 1], index)| <= 1248
  {
    assert bytes[..n + 1][..n] == bytes[..n];
    FormLength(bytes[..n + 1], index);
    BudgetStep(n + 1);
  }

  /** form_log on a zeroed buffer: the guard on the remaining room never cuts a chunk short, every
      write stays within the buffer, and the C string left behind is the chunk's whole text. */
  method FormLog(index: nat, buf: array<byte>, bytes: seq<byte>) returns (index': nat, len: nat)
    requires buf.Length == BUF_SIZE && |bytes| <= PRINT_SIZE && Filled(buf, 0)
    modifies buf
    ensures index' == index + LinesOf(|bytes|)
    ensures len < buf.Length && Filled(buf, len) && buf[..len] == Form(bytes, index) + [NEWLINE]
  {
    index' := index;
    len := 0;
    var lsize := 0;
    var headLen := 0;
    while |bytes| > lsize && len + 10 < buf.Length
      invariant 0 <= lsize <= |bytes| && len <= 1248
      invariant headLen == 0 <==> lsize == 0
      invariant index' == index + LinesOf(lsize)
      invariant Filled(buf, len) && buf[..len] == Form(bytes[..lsize], index)
    {
      len, index', headLen := PutSeparator(buf, len, lsize, index', headLen, index);
      FormSnoc(bytes, lsize, index);
      len := PutHex(buf, len, bytes[lsize]);
      lsize := lsize + 1;
    }
    assert bytes[..lsize] == bytes;
    len := Put(buf, len, NEWLINE);
  }

  /** log_output_binary, after its "address[..] size[..]" line, for a buffer of any size. */
  method LogOutputBinary(buffer: seq<byte>) returns (os: Text)
    ensures os == DumpText(buffer, 0)
  {
    os := [];
    var lsize, index := 0, 0;
    ghost var whole := DumpText(buffer, 0);
    assert buffer[0..] == buffer;
    while |buffer| > lsize
      invariant 0 <= lsize <= |buffer|
      invariant os + DumpText(buffer[lsize..], index) == whole
    {
      var size := ChunkSize(|buffer| - lsize);
      var text, next := DumpChunk(buffer[lsize..lsize + size], index);
      DumpStep(os, text, buffer, lsize, index, next);
      os := os + text;
      index := next;
      lsize := lsize + size;
    }
  }

  /** One round: a fresh zeroed buffer, filled and then read as a C string. */
  method DumpChunk(bytes: seq<byte>, index: nat) returns (text: Text, index': nat)
    requires |bytes| <= PRINT_SIZE
    ensures text == Form(bytes, index) + [NEWLINE] && index' == index + LinesOf(|bytes|)
  {
    var tmpbuf := new byte[BUF_SIZE](_ => 0);
    var len: nat;
    index', len := FormLog(index, tmpbuf, bytes);
    text := tmpbuf[..len];
  }

  lemma DumpStep(os: Text, text: Text, buffer: seq<byte>, lsize: nat, index: nat, next: nat)
    requires lsize < |buffer|
    requires var size := ChunkSize(|buffer| - lsize);
             text == Form(buffer[lsize..lsize + size], index) + [NEWLINE] && next == index + LinesOf(size)
    ensures os + DumpText(buffer[lsize..], index)
            == os + text + DumpText(buffer[lsize + ChunkSize(|buffer| - lsize)..], next)
  {
    var size, rest := ChunkSize(|buffer| - lsize), buffer[lsize..];
    SliceOfSlice(buffer, lsize, size);
    DumpUnfold(rest, index, size);
    Associate(os, text, DumpText(rest[size..], next));
  }

  lemma SliceOfSlice(s: seq<byte>, from: nat, k: nat)
    requires from + k <= |s|
    ensures s[from..][..k] == s[from..from + k] && s[from..][k..] == s[from + k..]
  {
  }

  lemma DumpUnfold(bs: seq<byte>, index: nat, k: nat)
    requires bs != [] && k == ChunkSize(|bs|)
    ensures DumpText(bs, index) == Form(bs[..k], index) + [NEWLINE] + DumpText(bs[k..], index + LinesOf(k))
  {
  }
}
