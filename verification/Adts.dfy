/**
 * ADTS framing and its RTP form (pkg/aac/adts.go, pkg/aac/rtp.go): frames wrapped, concatenated, packed
 * into one RTP payload and taken out again come back unchanged (section 3.2.1 of RFC 3640).
 */
module Adts {
  import opened Wrappers
  import opened Avcc
  import opened Bytes
  import opened BitReader
  import opened BitWriter
  import opened Aac

  const HEADER := 7
  const AU_TIME := 1024
  const TS := 0x1_00_00_00_00

  // ---------------------------------------------------------------- the header

  predicate IsADTS(b: Buf): (r: bool)
    ensures r ==> |b| >= HEADER
  {
    |b| >= HEADER && b[0] == 0xFF && b[1] / 16 == 0xF && b[1] / 2 % 4 == 0
  }

  /** Bit by bit: sync word, no CRC, the three fields, a zero frame length, and full fullness. */
  ghost predicate HeaderBits(b: Buf, profile: nat, freqIndex: nat, channels: nat) {
    && |b| == HEADER
    && AllBits(b, 0, 12, 1) && AllBits(b, 12, 3, 0) && AllBits(b, 15, 1, 1)
    && Holds(b, 16, profile, 2) && Holds(b, 18, freqIndex, 4) && AllBits(b, 22, 1, 0) && Holds(b, 23, channels, 3)
    && AllBits(b, 26, 17, 0) && AllBits(b, 43, 11, 1) && AllBits(b, 54, 2, 0)
  }

  /** What the other functions need of a header whose length is still zero. */
  predicate HeaderBytes(b: Buf) {
    |b| == HEADER && b[0] == 0xFF && b[1] == 0xF1 && b[3] % 4 == 0 && b[4] == 0 && b[5] == 0x1F && b[6] == 0xFC
  }

  lemma BitOfHeader(b: Buf, i: nat, j: nat)
    requires i < |b| && j < 8
    ensures BitOf(b[i], j) == BitAt(b, 8 * i + j)
  {
  }

  lemma HeaderByte(b: Buf, i: nat)
    requires i < |b|
    ensures b[i] == 128 * BitAt(b, 8 * i) + 64 * BitAt(b, 8 * i + 1) + 32 * BitAt(b, 8 * i + 2)
                    + 16 * BitAt(b, 8 * i + 3) + 8 * BitAt(b, 8 * i + 4) + 4 * BitAt(b, 8 * i + 5)
                    + 2 * BitAt(b, 8 * i + 6) + BitAt(b, 8 * i + 7)
  {
    hide BitOf, BitAt;
    EightBits(b[i]);
    BitOfHeader(b, i, 0);
    BitOfHeader(b, i, 1);
    BitOfHeader(b, i, 2);
    BitOfHeader(b, i, 3);
    BitOfHeader(b, i, 4);
    BitOfHeader(b, i, 5);
    BitOfHeader(b, i, 6);
    BitOfHeader(b, i, 7);
  }

  lemma HeaderBitsToBytes(b: Buf, profile: nat, freqIndex: nat, channels: nat)
    requires HeaderBits(b, profile, freqIndex, channels)
    ensures HeaderBytes(b)
  {
    hide BitAt, Holds;
    HeaderByte(b, 0);
    HeaderByte(b, 1);
    HeaderByte(b, 3);
    HeaderByte(b, 4);
    HeaderByte(b, 5);
    HeaderByte(b, 6);
  }

  lemma BitsStay(b: Buf, c: Buf, limit: nat, start: nat, n: nat, bit: nat)
    requires Agree(b, c, limit) && start + n <= limit && AllBits(b, start, n, bit)
    ensures AllBits(c, start, n, bit)
  {
    hide BitAt;
    assert forall p: nat :: p < limit ==> BitAt(c, p) == BitAt(b, p);
  }

  lemma AgreeTrans(b: Buf, c: Buf, d: Buf, m: nat, n: nat)
    requires Agree(b, c, m) && Agree(c, d, n) && m <= n
    ensures Agree(b, d, m)
  {
    hide BitAt;
  }

  method WriteSync(wr: Writer)
    requires wr.Valid() && wr.Cursor() == 0
    modifies wr
    ensures wr.Valid() && wr.Cursor() == 16
    ensures AllBits(wr.buf, 0, 12, 1) && AllBits(wr.buf, 12, 3, 0) && AllBits(wr.buf, 15, 1, 1)
  {
    hide BitAt, Shift, Writer.Valid;
    wr.WriteAllBits(1, 12);
    ghost var b1 := wr.buf;
    wr.WriteBit(0);
    ghost var b2 := wr.buf;
    wr.WriteAllBits(0, 2);
    ghost var b3 := wr.buf;
    wr.WriteBit(1);
  }

  method WriteFields(wr: Writer, profile: nat, freqIndex: nat, channels: nat)
    requires wr.Valid() && wr.Cursor() == 16
    modifies wr
    ensures wr.Valid() && wr.Cursor() == 26 && Agree(old(wr.buf), wr.buf, 16)
    ensures Holds(wr.buf, 16, profile, 2) && Holds(wr.buf, 18, freqIndex, 4)
    ensures AllBits(wr.buf, 22, 1, 0) && Holds(wr.buf, 23, channels, 3)
  {
    hide BitAt, Shift, Writer.Valid;
    wr.WriteBits(profile, 2);
    wr.WriteBits(freqIndex, 4);
    wr.WriteBit(0);
    wr.WriteBits(channels, 3);
  }

  method WriteRest(wr: Writer)
    requires wr.Valid() && wr.Cursor() == 26
    modifies wr
    ensures wr.Valid() && wr.Cursor() == 56 && Agree(old(wr.buf), wr.buf, 26)
    ensures AllBits(wr.buf, 26, 17, 0) && AllBits(wr.buf, 43, 11, 1) && AllBits(wr.buf, 54, 2, 0)
  {
    hide BitAt, Shift, Writer.Valid;
    wr.WriteBit(0);
    wr.WriteBit(0);
    wr.WriteBit(0);
    wr.WriteBit(0);
    wr.WriteAllBits(0, 13);
    wr.WriteAllBits(1, 11);
    wr.WriteAllBits(0, 2);
  }

  /** `conf` is the decoded config= field; None stands for a hex error. */
  method CodecToADTS(conf: Option<Buf>) returns (b: Buf)
    ensures conf.None? ==> b == []
    ensures conf.Some? ==> HeaderBytes(b)
    ensures conf.Some? ==> var c := Decoded(conf.value);
              HeaderBits(b, (c.objType - 1) % 256, c.freqIndex, c.channels)
  {
    if conf == None {
      return [];
    }
    var c := DecodeConfig(conf.value);
    var wr := new Writer();
    WriteSync(wr);
    ghost var b1 := wr.buf;
    WriteFields(wr, (c.objType - 1) % 256, c.freqIndex, c.channels);
    ghost var b2 := wr.buf;
    WriteRest(wr);
    b := wr.buf;
    HeaderKept(b1, b2, b, (c.objType - 1) % 256, c.freqIndex, c.channels);
    HeaderBitsToBytes(b, (c.objType - 1) % 256, c.freqIndex, c.channels);
  }

  lemma HeaderKept(b1: Buf, b2: Buf, b: Buf, profile: nat, freqIndex: nat, channels: nat)
    requires |b| == HEADER && Agree(b1, b2, 16) && Agree(b2, b, 26)
    requires AllBits(b1, 0, 12, 1) && AllBits(b1, 12, 3, 0) && AllBits(b1, 15, 1, 1)
    requires Holds(b2, 16, profile, 2) && Holds(b2, 18, freqIndex, 4) && AllBits(b2, 22, 1, 0) && Holds(b2, 23, channels, 3)
    requires AllBits(b, 26, 17, 0) && AllBits(b, 43, 11, 1) && AllBits(b, 54, 2, 0)
    ensures HeaderBits(b, profile, freqIndex, channels)
  {
    AgreeTrans(b1, b2, b, 16, 26);
    hide BitAt, Shift, Agree, AllBits, Holds;
    BitsStay(b1, b, 16, 0, 12, 1);
    BitsStay(b1, b, 16, 12, 3, 0);
    BitsStay(b1, b, 16, 15, 1, 1);
    HoldsStays(b2, b, 26, 16, profile, 2);
    HoldsStays(b2, b, 26, 18, freqIndex, 4);
    BitsStay(b2, b, 26, 22, 1, 0);
    HoldsStays(b2, b, 26, 23, channels, 3);
  }

  // ---------------------------------------------------------------- the frame length

  /** Bitwise or of two numbers of `k` bits. */
  function Or(x: nat, y: nat, k: nat): nat {
    if k == 0 then 0 else (if x % 2 == 1 || y % 2 == 1 then 1 else 0) + 2 * Or(x / 2, y / 2, k - 1)
  }

  lemma {:induction false} OrBound(x: nat, y: nat, k: nat)
    ensures Or(x, y, k) < Pow2(k)
  {
    if k > 0 {
      OrBound(x / 2, y / 2, k - 1);
    }
  }

  lemma {:induction false} OrCommutes(x: nat, y: nat, k: nat)
    ensures Or(x, y, k) == Or(y, x, k)
  {
    if k > 0 {
      OrCommutes(x / 2, y / 2, k - 1);
    }
  }

  lemma {:induction false} OrZero(x: nat, k: nat)
    requires x < Pow2(k)
    ensures Or(x, 0, k) == x
  {
    if k > 0 {
      OrZero(x / 2, k - 1);
    }
  }

  /** Or of numbers that share no bit is their sum. */
  lemma {:induction false} OrDisjoint(h: nat, y: nat, k: nat, d: nat)
    requires d <= k && y < Pow2(d) && h < Pow2(k - d)
    ensures Or(h * Pow2(d) + y, 0, k) == Or(h * Pow2(d), y, k) == h * Pow2(d) + y
    decreases d
  {
    if d == 0 {
      assert Pow2(0) == 1;
      assert h * Pow2(0) == h;
      OrZero(h, k);
    } else {
      assert Pow2(d) == 2 * Pow2(d - 1);
      hide Pow2;
      OrDisjoint(h, y / 2, k - 1, d - 1);
      Halves(h, Pow2(d - 1), y);
    }
  }

  lemma Halves(h: nat, m: nat, y: nat)
    ensures var x := h * (2 * m);
            x % 2 == 0 && x / 2 == h * m && (x + y) / 2 == h * m + y / 2 && (x + y) % 2 == y % 2
  {
    assert h * (2 * m) == 2 * (h * m);
  }

  function ReadADTSSize(b: Buf): (r: nat)
    requires |b| >= 6
    ensures r < 8192
  {
    (b[3] as int) % 4 * 2048 + b[4] as int * 8 + b[5] as int / 32
  }

  lemma TwoBits(b: Buf, p: nat)
    ensures U(b, p, 2) == 2 * BitAt(b, p) + BitAt(b, p + 1)
    ensures U(b, p, 3) == 4 * BitAt(b, p) + 2 * BitAt(b, p + 1) + BitAt(b, p + 2)
    ensures U(b, p, 4) == 8 * BitAt(b, p) + 4 * BitAt(b, p + 1) + 2 * BitAt(b, p + 2) + BitAt(b, p + 3)
  {
    hide BitAt;
    assert U(b, p, 0) == 0 && U(b, p, 1) == BitAt(b, p);
  }

  /** The parts of a byte that the header splits. */
  lemma PartsOfByte(b: Buf, i: nat)
    requires i < |b|
    ensures b[i] % 4 == U(b, 8 * i + 6, 2) && b[i] / 32 == U(b, 8 * i, 3)
    ensures b[i] / 16 == U(b, 8 * i, 4) && b[i] / 2 % 4 == U(b, 8 * i + 5, 2)
  {
    hide U, BitAt;
    HeaderByte(b, i);
    TwoBits(b, 8 * i);
    TwoBits(b, 8 * i + 5);
    TwoBits(b, 8 * i + 6);
    OfBits(b[i], BitAt(b, 8 * i), BitAt(b, 8 * i + 1), BitAt(b, 8 * i + 2), BitAt(b, 8 * i + 3),
           BitAt(b, 8 * i + 4), BitAt(b, 8 * i + 5), BitAt(b, 8 * i + 6), BitAt(b, 8 * i + 7));
  }

  lemma OfBits(x: nat, b0: nat, b1: nat, b2: nat, b3: nat, b4: nat, b5: nat, b6: nat, b7: nat)
    requires b0 <= 1 && b1 <= 1 && b2 <= 1 && b3 <= 1 && b4 <= 1 && b5 <= 1 && b6 <= 1 && b7 <= 1
    requires x == 128 * b0 + 64 * b1 + 32 * b2 + 16 * b3 + 8 * b4 + 4 * b5 + 2 * b6 + b7
    ensures x % 4 == 2 * b6 + b7 && x / 32 == 4 * b0 + 2 * b1 + b2
    ensures x / 16 == 8 * b0 + 4 * b1 + 2 * b2 + b3 && x / 2 % 4 == 2 * b5 + b6
  {
  }

  /** The length is aac_frame_length: the 13 bits from bit 30 on (section 1.A.2.2 of ISO/IEC 14496-3). */
  lemma SizeIsField(b: Buf)
    requires |b| >= 6
    ensures ReadADTSSize(b) == U(b, 30, 13)
  {
    hide U, BitAt;
    PartsOfByte(b, 3);
    PartsOfByte(b, 5);
    UByte(b, 32);
    AppendByte(b, 30, 2);
    AppendThree(b, 30, 10);
  }

  lemma AppendThree(b: Buf, p: nat, m: nat)
    ensures U(b, p, m + 3) == U(b, p, m) * 8 + U(b, p + m, 3)
  {
    hide U;
    UConcat(b, p, m, 3);
    Powers();
  }

  /** A length written into a fresh header stands in that field, and every other field is as it was. */
  lemma SizeInField(h: Buf, rest: Buf, size: nat)
    requires HeaderBytes(h) && size < 8192
    ensures var b := WithSize(h + rest, size);
            && U(b, 30, 13) == size
            && b[..3] == h[..3] && b[3] / 4 == h[3] / 4 && b[5] % 32 == h[5] % 32 && b[6..] == h[6..] + rest
  {
    SizeRoundTrip(h, rest, size);
    SizeIsField(WithSize(h + rest, size));
    hide OrByte, U, ReadADTSSize, IsADTS;
    OrSums(h[3], size);
    SizeBits(size);
  }

  /** A frame begins with the twelve bits of the sync word, and its layer field is zero. */
  lemma IsADTSIff(b: Buf)
    ensures IsADTS(b) <==> |b| >= 7 && U(b, 0, 12) == 0xFFF && U(b, 13, 2) == 0
  {
    hide U, BitAt;
    if |b| >= 7 {
      PartsOfByte(b, 1);
      UByte(b, 0);
      Powers();
      UConcat(b, 0, 8, 4);
    }
  }

  function OrByte(x: Byte, y: Byte): Byte {
    OrBound(x, y, 8);
    Powers();
    Or(x, y, 8)
  }

  function WithSize(b: Buf, size: nat): (r: Buf)
    requires |b| >= 6
    ensures |r| == |b|
  {
    b[3 := OrByte(b[3], size / 2048 % 256)][4 := size / 8 % 256][5 := OrByte(b[5], size * 32 % 256)]
  }

  method WriteADTSSize(b: array<Byte>, size: nat)
    requires b.Length >= 6
    modifies b
    ensures b[..] == WithSize(old(b[..]), size)
  {
    b[3] := OrByte(b[3], size / 2048 % 256);
    b[4] := size / 8 % 256;
    b[5] := OrByte(b[5], size * 32 % 256);
  }

  lemma SizeBits(size: nat)
    requires size < 8192
    ensures size / 2048 < 4 && size / 2048 % 256 == size / 2048 && size * 32 % 256 == size % 8 * 32
    ensures size / 2048 * 2048 + size / 8 % 256 * 8 + size % 8 == size
  {
    assert size == size / 8 * 8 + size % 8;
    assert size / 8 == size / 8 / 256 * 256 + size / 8 % 256;
    assert size * 32 == size / 8 * 256 + size % 8 * 32;
  }

  lemma OrSums(b3: Byte, size: nat)
    requires b3 % 4 == 0 && size < 8192
    ensures OrByte(b3, size / 2048 % 256) == b3 + size / 2048
    ensures OrByte(31, size * 32 % 256) == size % 8 * 32 + 31
  {
    SizeBits(size);
    Powers();
    var high, low := b3 / 4, size % 8;
    assert b3 == high * Pow2(2);
    hide Or, Pow2;
    OrDisjoint(high, size / 2048, 8, 2);
    OrDisjoint(low, 31, 8, 5);
    OrCommutes(31, low * 32, 8);
  }

  /** Writing a size into a fresh header and reading it back. */
  lemma SizeRoundTrip(h: Buf, rest: Buf, size: nat)
    requires HeaderBytes(h) && size < 8192
    ensures var b := WithSize(h + rest, size);
            && ReadADTSSize(b) == size && IsADTS(b) && b[HEADER..] == rest && b == WithSize(h, size) + rest
  {
    hide OrByte;
    OrSums(h[3], size);
    SizeBits(size);
    var b := WithSize(h + rest, size);
    assert b[3] == h[3] + size / 2048 && b[4] == size / 8 % 256 && b[5] == size % 8 * 32 + 31;
  }

  // ---------------------------------------------------------------- wrapping

  /** A zeroed header when the config was unreadable. */
  function Header(adts: Buf): (r: Buf)
    requires |adts| <= HEADER
    ensures |r| == HEADER
  {
    adts + seq(HEADER - |adts|, _ => 0)
  }

  function Wrap(adts: Buf, payload: Buf): Buf
    requires |adts| <= HEADER
  {
    if IsADTS(payload) then payload
    else WithSize(Header(adts) + payload, (HEADER + |payload|) % 0x1_00_00)
  }

  method EncodeToADTS(adts: Buf, payload: Buf) returns (out: Buf)
    requires |adts| <= HEADER
    ensures out == Wrap(adts, payload)
  {
    hide WithSize;
    if IsADTS(payload) {
      return payload;
    }
    var b := new Byte[HEADER + |payload|](_ => 0);
    Copy(b, 0, adts);
    Copy(b, HEADER, payload);
    assert b[..] == Header(adts) + payload;
    WriteADTSSize(b, b.Length % 0x1_00_00);
    out := b[..];
  }

  /** A frame that states its own length and is longer than its header. */
  predicate IsFrame(f: Buf): (r: bool)
    ensures r ==> |f| > HEADER
  {
    IsADTS(f) && |f| > HEADER && ReadADTSSize(f) == |f|
  }

  predicate Wrappable(raw: Buf) {
    raw != [] && !IsADTS(raw) && HEADER + |raw| < 8192
  }

  lemma WrapFrames(adts: Buf, raw: Buf)
    requires HeaderBytes(adts) && Wrappable(raw)
    ensures IsFrame(Wrap(adts, raw)) && Wrap(adts, raw)[HEADER..] == raw
    ensures Wrap(adts, raw) == WithSize(adts, HEADER + |raw|) + raw
  {
    hide IsADTS, WithSize, ReadADTSSize;
    assert Header(adts) == adts;
    SizeRoundTrip(adts, raw, HEADER + |raw|);
  }
}
