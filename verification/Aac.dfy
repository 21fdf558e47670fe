/**
 * The AAC audio configuration (pkg/aac/aac.go): what EncodeConfig writes, DecodeConfig reads back
 * (section 1.6.2.1 of ISO/IEC 14496-3).
 */
module Aac {
  import opened Arithmetic
  import opened Bytes
  import opened BitReader
  import opened BitWriter

  const TYPE_LD := 23
  const TYPE_ESCAPE := 31
  const TYPE_ELD := 39
  const MAX24 := 0x1_00_00_00

  const SAMPLE_RATES: seq<nat> :=
    [96000, 88200, 64000, 48000, 44100, 32000, 24000, 22050, 16000, 12000, 11025, 8000, 7350, 0, 0, 0]

  datatype Config = Config(objType: nat, freqIndex: nat, channels: nat, sampleRate: nat)

  // ---------------------------------------------------------------- DecodeConfig on the simple reader

  function TypeEnd(b: Buf): nat {
    if U(b, 0, 5) == TYPE_ESCAPE then 11 else 5
  }

  function RateEnd(b: Buf): nat {
    if U(b, TypeEnd(b), 4) == 15 then TypeEnd(b) + 28 else TypeEnd(b) + 4
  }

  function Decoded(b: Buf): Config {
    var p := TypeEnd(b);
    var index := U(b, p, 4);
    UBound(b, p, 4);
    Powers();
    Config(if U(b, 0, 5) == TYPE_ESCAPE then 32 + U(b, 5, 6) else U(b, 0, 5),
           index,
           U(b, RateEnd(b), 4),
           if index == 15 then U(b, p + 4, 24) else SAMPLE_RATES[index])
  }

  method DecodeConfig(b: Buf) returns (c: Config)
    ensures c == Decoded(b)
  {
    hide U, Pow2, BitAt, Reader.Valid;
    var rd := new Reader(b);
    var objType := rd.ReadBits(5);
    if objType == 31 {
      var extended := rd.ReadBits(6);
      objType := 32 + extended;
    }
    var index := rd.ReadBits(4);
    Powers();
    var rate: nat;
    if index == 15 {
      rate := rd.ReadBits(24);
    } else {
      rate := SAMPLE_RATES[index];
    }
    var channels := rd.ReadBits(4);
    c := Config(objType, index, channels, rate);
  }

  // ---------------------------------------------------------------- EncodeConfig

  predicate IsIndexOf(i: int, s: seq<nat>, v: nat) {
    && (forall j :: 0 <= j < |s| && (i == -1 || j < i) ==> s[j] != v)
    && (i != -1 ==> 0 <= i < |s| && s[i] == v)
  }

  method IndexUint32(s: seq<nat>, v: nat) returns (i: int)
    ensures IsIndexOf(i, s, v)
  {
    for k := 0 to |s|
      invariant forall j :: 0 <= j < k ==> s[j] != v
    {
      if v == s[k] {
        return k;
      }
    }
    return -1;
  }

  /**
   * The layout of a configuration: five bits of object type, or the escape and six bits (wrapping like a
   * byte subtraction); four bits of frequency index, or 15 and 24 bits of rate; four bits of channels; for
   * the two low-delay types the frame flag and zero bits; then zero bits up to a whole byte.
   */
  ghost predicate Encodes(b: Buf, objType: nat, sampleRate: nat, channels: nat, shortFrame: bool) {
    exists i :: IsIndexOf(i, SAMPLE_RATES, sampleRate) && EncodesAt(b, objType, sampleRate, channels, shortFrame, i)
  }

  ghost predicate EncodesAt(b: Buf, objType: nat, sampleRate: nat, channels: nat, shortFrame: bool, i: int) {
    var p := if objType < TYPE_ESCAPE then 5 else 11;
    var q := if i >= 0 then p + 4 else p + 28;
    && (if objType < TYPE_ESCAPE then Holds(b, 0, objType, 5)
        else Holds(b, 0, TYPE_ESCAPE, 5) && Holds(b, 5, (objType - 32) % 256, 6))
    && (if i >= 0 then Holds(b, p, i, 4) else Holds(b, p, 15, 4) && Holds(b, p + 4, sampleRate, 24))
    && Holds(b, q, channels, 4)
    && LowDelayAt(b, q + 4, objType, shortFrame) && |b| == (q + 4 + LowDelayBits(objType) + 7) / 8
  }

  function LowDelayBits(objType: nat): nat {
    if objType == TYPE_LD then 5 else if objType == TYPE_ELD then 11 else 0
  }

  ghost predicate LowDelayAt(b: Buf, p: nat, objType: nat, shortFrame: bool) {
    LowDelayBits(objType) > 0 ==>
      && BitAt(b, p) == (if shortFrame then 1 else 0)
      && AllBits(b, p + 1, LowDelayBits(objType) - 1, 0)
  }

  lemma ZeroField(b: Buf, start: nat, n: nat)
    requires Holds(b, start, 0, n)
    ensures AllBits(b, start, n, 0)
  {
    hide BitAt, Shift;
    forall p: nat | start <= p < start + n
      ensures BitAt(b, p) == 0
    {
      ShiftZero(start + n - 1 - p);
    }
  }

  lemma HoldsStays(b: Buf, c: Buf, limit: nat, start: nat, v: nat, n: nat)
    requires Agree(b, c, limit) && start + n <= limit && Holds(b, start, v, n)
    ensures Holds(c, start, v, n)
  {
    hide BitAt, Shift;
    assert forall p: nat :: p < limit ==> BitAt(c, p) == BitAt(b, p);
  }

  method WriteType(wr: Writer, objType: nat)
    requires wr.Valid() && wr.Cursor() == 0 && objType < 256
    modifies wr
    ensures wr.Valid() && wr.Cursor() == if objType < TYPE_ESCAPE then 5 else 11
    ensures if objType < TYPE_ESCAPE then Holds(wr.buf, 0, objType, 5)
            else Holds(wr.buf, 0, TYPE_ESCAPE, 5) && Holds(wr.buf, 5, (objType - 32) % 256, 6)
  {
    hide Holds, Agree, Writer.Valid;
    if objType < TYPE_ESCAPE {
      wr.WriteBits(objType, 5);
    } else {
      wr.WriteBits(TYPE_ESCAPE, 5);
      ghost var before := wr.buf;
      wr.WriteBits((objType - 32) % 256, 6);
      HoldsStays(before, wr.buf, 5, 0, TYPE_ESCAPE, 5);
    }
  }

  method WriteRate(wr: Writer, sampleRate: nat) returns (i: int)
    requires wr.Valid()
    modifies wr
    ensures wr.Valid() && wr.Cursor() == old(wr.Cursor()) + (if i >= 0 then 4 else 28)
    ensures IsIndexOf(i, SAMPLE_RATES, sampleRate) && Agree(old(wr.buf), wr.buf, old(wr.Cursor()))
    ensures var p := old(wr.Cursor());
            if i >= 0 then Holds(wr.buf, p, i, 4) else Holds(wr.buf, p, 15, 4) && Holds(wr.buf, p + 4, sampleRate, 24)
  {
    i := IndexUint32(SAMPLE_RATES, sampleRate);
    ghost var p := wr.Cursor();
    if i >= 0 {
      wr.WriteBits(i, 4);
    } else {
      wr.WriteBits(15, 4);
      ghost var before := wr.buf;
      wr.WriteBits(sampleRate, 24);
      HoldsStays(before, wr.buf, p + 4, p, 15, 4);
    }
  }

  /** One more zero field behind the flag and the zeros already there. */
  method WriteZeros(wr: Writer, n: nat, ghost p: nat, ghost flag: nat)
    requires wr.Valid() && n < 256 && p < wr.Cursor() && BitAt(wr.buf, p) == flag
    requires AllBits(wr.buf, p + 1, wr.Cursor() - p - 1, 0)
    modifies wr
    ensures wr.Valid() && wr.Cursor() == old(wr.Cursor()) + n && Agree(old(wr.buf), wr.buf, old(wr.Cursor()))
    ensures BitAt(wr.buf, p) == flag && AllBits(wr.buf, p + 1, wr.Cursor() - p - 1, 0)
  {
    hide BitAt, Shift, Writer.Valid;
    ghost var before, c := wr.buf, wr.Cursor();
    wr.WriteBits(0, n);
    ZeroField(wr.buf, c, n);
    assert forall k: nat :: k < c ==> BitAt(wr.buf, k) == BitAt(before, k);
  }

  /** The flags behind the channels for the two low-delay types. */
  method WriteLowDelay(wr: Writer, objType: nat, shortFrame: bool)
    requires wr.Valid() && wr.Cursor() >= 0
    modifies wr
    ensures wr.Valid() && wr.Cursor() == old(wr.Cursor()) + LowDelayBits(objType)
    ensures Agree(old(wr.buf), wr.buf, old(wr.Cursor()))
    ensures LowDelayAt(wr.buf, old(wr.Cursor()), objType, shortFrame)
  {
    hide BitAt, Shift, Writer.Valid;
    ghost var p, flag: nat := wr.Cursor(), if shortFrame then 1 else 0;
    if objType == TYPE_LD {
      wr.WriteBool(shortFrame);
      WriteZeros(wr, 1, p, flag);
      WriteZeros(wr, 1, p, flag);
      WriteZeros(wr, 2, p, flag);
    } else if objType == TYPE_ELD {
      wr.WriteBool(shortFrame);
      WriteZeros(wr, 3, p, flag);
      WriteZeros(wr, 1, p, flag);
      WriteZeros(wr, 4, p, flag);
      WriteZeros(wr, 2, p, flag);
    }
  }

  method EncodeConfig(objType: nat, sampleRate: nat, channels: nat, shortFrame: bool) returns (b: Buf)
    requires objType < 256
    ensures Encodes(b, objType, sampleRate, channels, shortFrame)
  {
    var wr := new Writer();
    WriteType(wr, objType);
    ghost var p, b1 := wr.Cursor(), wr.buf;
    var i := WriteRate(wr, sampleRate);
    ghost var q, b2 := wr.Cursor(), wr.buf;
    wr.WriteBits(channels, 4);
    ghost var r, b3 := wr.Cursor(), wr.buf;
    WriteLowDelay(wr, objType, shortFrame);
    b := wr.buf;
    KeepAll(b1, b2, b3, b, p, q, r, objType, sampleRate, channels, shortFrame, i);
  }

  lemma KeepAll(b1: Buf, b2: Buf, b3: Buf, b: Buf, p: nat, q: nat, r: nat,
                objType: nat, sampleRate: nat, channels: nat, shortFrame: bool, i: int)
    requires p == (if objType < TYPE_ESCAPE then 5 else 11) && q == p + (if i >= 0 then 4 else 28) && r == q + 4
    requires Agree(b1, b2, p) && Agree(b2, b3, q) && Agree(b3, b, r)
    requires if objType < TYPE_ESCAPE then Holds(b1, 0, objType, 5)
             else Holds(b1, 0, TYPE_ESCAPE, 5) && Holds(b1, 5, (objType - 32) % 256, 6)
    requires if i >= 0 then Holds(b2, p, i, 4) else Holds(b2, p, 15, 4) && Holds(b2, p + 4, sampleRate, 24)
    requires Holds(b3, q, channels, 4)
    requires LowDelayAt(b, r, objType, shortFrame) && |b| == (r + LowDelayBits(objType) + 7) / 8
    ensures EncodesAt(b, objType, sampleRate, channels, shortFrame, i)
  {
    assert Agree(b1, b, p) && Agree(b2, b, q) by {
      hide BitAt;
    }
    hide BitAt, Shift, Holds, Agree, LowDelayAt;
    if objType < TYPE_ESCAPE {
      HoldsStays(b1, b, p, 0, objType, 5);
    } else {
      HoldsStays(b1, b, p, 0, TYPE_ESCAPE, 5);
      HoldsStays(b1, b, p, 5, (objType - 32) % 256, 6);
    }
    if i >= 0 {
      HoldsStays(b2, b, q, p, i, 4);
    } else {
      HoldsStays(b2, b, q, p, 15, 4);
      HoldsStays(b2, b, q, p + 4, sampleRate, 24);
    }
    HoldsStays(b3, b, r, q, channels, 4);
  }

  // ---------------------------------------------------------------- round trip

  /**
   * What an encoded configuration decodes to: the object type modulo the escape's six bits, the rate
   * modulo 2^24 and the channels modulo 16.
   */
  lemma DecodeOfEncode(b: Buf, objType: nat, sampleRate: nat, channels: nat, shortFrame: bool)
    requires objType < 256 && Encodes(b, objType, sampleRate, channels, shortFrame)
    ensures var c := Decoded(b);
            && c.objType == (if objType < TYPE_ESCAPE then objType else 32 + (objType - 32) % 64)
            && c.sampleRate == sampleRate % MAX24 && c.channels == channels % 16
            && IsIndexOf(if c.freqIndex == 15 then -1 else c.freqIndex, SAMPLE_RATES, sampleRate)
  {
    var i :| IsIndexOf(i, SAMPLE_RATES, sampleRate) && EncodesAt(b, objType, sampleRate, channels, shortFrame, i);
    hide *;
    ChannelsReadBack(b, objType, sampleRate, channels, shortFrame, i);
  }

  lemma ChannelsReadBack(b: Buf, objType: nat, sampleRate: nat, channels: nat, shortFrame: bool, i: int)
    requires objType < 256 && IsIndexOf(i, SAMPLE_RATES, sampleRate) && EncodesAt(b, objType, sampleRate, channels, shortFrame, i)
    ensures var c := Decoded(b);
            && c.objType == (if objType < TYPE_ESCAPE then objType else 32 + (objType - 32) % 64)
            && c.sampleRate == sampleRate % MAX24 && c.channels == channels % 16
            && IsIndexOf(if c.freqIndex == 15 then -1 else c.freqIndex, SAMPLE_RATES, sampleRate)
  {
    hide U, Pow2, Holds, LowDelayAt, AllBits, IsIndexOf;
    TypeReadBack(b, objType, sampleRate, channels, shortFrame, i);
    RateReadBack(b, objType, sampleRate, channels, shortFrame, i);
    RateIndexes(i, sampleRate);
    Powers();
    FieldReadBack(b, RateEnd(b), channels, 4);
  }

  lemma TypeReadBack(b: Buf, objType: nat, sampleRate: nat, channels: nat, shortFrame: bool, i: int)
    requires objType < 256 && EncodesAt(b, objType, sampleRate, channels, shortFrame, i)
    ensures Decoded(b).objType == if objType < TYPE_ESCAPE then objType else 32 + (objType - 32) % 64
    ensures TypeEnd(b) == if objType < TYPE_ESCAPE then 5 else 11
  {
    hide U, Pow2, Holds, LowDelayAt, AllBits, IsIndexOf;
    Powers();
    if objType < TYPE_ESCAPE {
      FieldReadBack(b, 0, objType, 5);
    } else {
      FieldReadBack(b, 0, TYPE_ESCAPE, 5);
      FieldReadBack(b, 5, (objType - 32) % 256, 6);
    }
  }

  lemma RateReadBack(b: Buf, objType: nat, sampleRate: nat, channels: nat, shortFrame: bool, i: int)
    requires objType < 256 && IsIndexOf(i, SAMPLE_RATES, sampleRate) && EncodesAt(b, objType, sampleRate, channels, shortFrame, i)
    ensures U(b, TypeEnd(b), 4) == if i >= 0 then i else 15
    ensures i < 0 ==> U(b, TypeEnd(b) + 4, 24) == sampleRate % MAX24
  {
    hide U, Pow2, Holds, LowDelayAt, AllBits, IsIndexOf;
    Powers();
    TypeReadBack(b, objType, sampleRate, channels, shortFrame, i);
    RateIndexes(i, sampleRate);
    hide Decoded;
    if i >= 0 {
      FieldReadBack(b, TypeEnd(b), i, 4);
    } else {
      FieldReadBack(b, TypeEnd(b), 15, 4);
      FieldReadBack(b, TypeEnd(b) + 4, sampleRate, 24);
      assert Pow2(24) == MAX24;
    }
  }

  /** Zero is found before the table's last entries, so no rate is given the escape index. */
  lemma RateIndexes(i: int, rate: nat)
    requires IsIndexOf(i, SAMPLE_RATES, rate)
    ensures -1 <= i < 14 && (i >= 0 ==> rate == SAMPLE_RATES[i] < MAX24)
  {
    assert SAMPLE_RATES[13] == 0;
  }

  /** The configuration round-trips exactly for these inputs. */
  lemma ConfigRoundTripsIff(b: Buf, objType: nat, sampleRate: nat, channels: nat, shortFrame: bool)
    requires objType < 256 && Encodes(b, objType, sampleRate, channels, shortFrame)
    ensures (Decoded(b).objType == objType && Decoded(b).sampleRate == sampleRate && Decoded(b).channels == channels)
            <==> (objType <= 30 || 32 <= objType <= 95) && sampleRate < MAX24 && channels < 16
  {
    hide Encodes, Decoded;
    DecodeOfEncode(b, objType, sampleRate, channels, shortFrame);
  }
}
