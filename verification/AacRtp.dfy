/**
 * AAC units in RTP (pkg/aac/rtp.go, section 3.2.1 of RFC 3640): a 16-bit count of header bits, one 16-bit
 * header with the size in bits per unit, then the units. A stream of ADTS frames packed this way comes out
 * of the depayloader frame by frame, and out of RTPToADTS byte for byte.
 */
module AacRtp {
  import opened Arithmetic
  import opened Bytes
  import opened BitReader
  import opened Adts

  // ---------------------------------------------------------------- ADTS to RTP

  /** A zero frame size would keep ADTStoRTP on the same byte for ever. */
  predicate Walkable(src: Buf) {
    |src| > HEADER ==> var n := ReadADTSSize(src); n > 0 && (n < |src| ==> Walkable(src[n..]))
  }

  function AuHeaders(src: Buf): Buf
    requires Walkable(src)
  {
    if |src| <= HEADER then []
    else
      var n := ReadADTSSize(src);
      U16Bytes(8 * n) + if n < |src| then AuHeaders(src[n..]) else []
  }

  function Packed(src: Buf): (r: Buf)
    requires Walkable(src)
    ensures |r| >= 2
  {
    var headers := AuHeaders(src);
    U16Bytes(|headers| % 0x1_00_00 * 8) + headers + src
  }

  /** The headers from position `i` on: one for the frame there, then those behind it. */
  lemma HeadersFrom(src: Buf, i: nat)
    requires i <= |src| && Walkable(src[i..])
    ensures i >= |src| - HEADER ==> AuHeaders(src[i..]) == []
    ensures i < |src| - HEADER ==>
              var n := ReadADTSSize(src[i..]);
              && n > 0 && (i + n < |src| - HEADER ==> Walkable(src[i + n..]))
              && AuHeaders(src[i..]) ==
                 U16Bytes(8 * n) + if i + n < |src| - HEADER then AuHeaders(src[i + n..]) else []
  {
    hide ReadADTSSize, U16Bytes;
    if i < |src| - HEADER {
      var n := ReadADTSSize(src[i..]);
      if i + n < |src| {
        assert src[i..][n..] == src[i + n..];
      }
    }
  }

  lemma Regroup(dst: Buf, size: Buf, rest: Buf)
    requires |dst| >= 2
    ensures (dst + size)[2..] + rest == dst[2..] + (size + rest)
  {
  }

  method ADTStoRTP(src: Buf) returns (dst: Buf)
    requires Walkable(src)
    ensures dst == Packed(src)
  {
    hide ReadADTSSize, U16Bytes, Walkable, AuHeaders;
    dst := [0, 0];
    var i, n := 0, |src| - HEADER;
    assert src[0..] == src;
    HeadersFrom(src, 0);
    while i < n
      invariant 0 <= i && |dst| >= 2
      invariant i < n ==> Walkable(src[i..])
      invariant dst[2..] + (if i < n then AuHeaders(src[i..]) else []) == AuHeaders(src)
      decreases n - i
    {
      var auSize := ReadADTSSize(src[i..]);
      HeadersFrom(src, i);
      Regroup(dst, U16Bytes(8 * auSize), if i + auSize < n then AuHeaders(src[i + auSize..]) else []);
      dst := dst + U16Bytes(8 * auSize);
      i := i + auSize;
    }
    dst := U16Bytes((|dst| - 2) % 0x1_00_00 * 8) + dst[2..];
    dst := dst + src;
  }

  lemma ThreeBits(b: Buf, p: nat)
    ensures U(b, p, 3) < 8
  {
    UBound(b, p, 3);
    Powers();
  }

  lemma SizeThenIndex(n: nat, rest: Buf)
    requires n < 8192
    ensures U(U16Bytes(8 * n) + rest, 0, 13) == n && U(U16Bytes(8 * n) + rest, 13, 3) == 0
  {
    hide U, U16, U16Bytes;
    var b := U16Bytes(8 * n) + rest;
    U16RoundTrip(8 * n, rest);
    FieldsAreBits(b);
    AppendThree(b, 0, 13);
    ThreeBits(b, 13);
  }

  /** The size stands in the 13 bits of AU-size, and AU-Index is zero (section 3.3.6 of RFC 3640). */
  lemma AuHeaderFields(src: Buf)
    requires Walkable(src) && |src| > HEADER
    ensures var headers := AuHeaders(src);
            && |headers| >= 2 && U(headers, 0, 13) == ReadADTSSize(src) && U(headers, 13, 3) == 0
  {
    hide ReadADTSSize, U, U16, U16Bytes;
    var n := ReadADTSSize(src);
    SizeThenIndex(n, if n < |src| then AuHeaders(src[n..]) else []);
  }

  /** AU-headers-length counts the bits of the headers, which follow it; the frames follow those. */
  lemma PackedFields(src: Buf)
    requires Walkable(src) && |AuHeaders(src)| < 0x20_00
    ensures var headers := AuHeaders(src);
            && U(Packed(src), 0, 16) == 8 * |headers| && |Packed(src)| == 2 + |headers| + |src|
            && Packed(src)[2..2 + |headers|] == headers && Packed(src)[2 + |headers|..] == src
  {
    hide AuHeaders, U, U16, U16Bytes, Walkable;
    var headers := AuHeaders(src);
    U16RoundTrip(8 * |headers|, headers + src);
    assert Packed(src) == U16Bytes(8 * |headers|) + (headers + src);
    FieldsAreBits(Packed(src));
  }

  // ---------------------------------------------------------------- RTP to units

  datatype Delivery = Delivery(timestamp: nat, payload: Buf)

  function Later(timestamp: nat): (r: nat)
    ensures r < TS
  {
    (timestamp + AU_TIME) % TS
  }

  function Strip(unit: Buf): Buf {
    if IsADTS(unit) then unit[HEADER..] else unit
  }

  /** One delivery per header, up to the first unit that is cut short. */
  function Units(headers: Buf, units: Buf, timestamp: nat): seq<Delivery> {
    if |headers| < 2 || |units| < U16(headers) / 8 then []
    else
      var n := U16(headers) / 8;
      [Delivery(Later(timestamp), Strip(units[..n]))] + Units(headers[2..], units[n..], Later(timestamp))
  }

  function Deliveries(payload: Buf, timestamp: nat): seq<Delivery>
    requires |payload| >= 2
  {
    var size := U16(payload) / 8;
    if |payload| >= 2 + size then Units(payload[2..2 + size], payload[2 + size..], timestamp)
    else if IsADTS(payload) then [Delivery(timestamp, payload[HEADER..])]
    else []
  }

  class RTPDepay {
    var timestamp: nat

    constructor ()
      ensures timestamp == 0
    {
      timestamp := 0;
    }

    method Handle(payload: Buf) returns (out: seq<Delivery>)
      requires |payload| >= 2
      modifies this
      ensures out == Deliveries(payload, old(timestamp))
      ensures timestamp == if out == [] then old(timestamp) else out[|out| - 1].timestamp
    {
      hide IsADTS, Later, U16, Units;
      var headersSize := U16(payload) / 8;
      out := [];
      if |payload| < 2 + headersSize {
        if IsADTS(payload) {
          out := [Delivery(timestamp, payload[HEADER..])];
        }
        return;
      }
      var headers, units := payload[2..2 + headersSize], payload[2 + headersSize..];
      ghost var all := Units(headers, units, timestamp);
      assert all == Deliveries(payload, old(timestamp));
      hide Deliveries;
      while |headers| >= 2
        invariant out + Units(headers, units, timestamp) == all
        invariant timestamp == if out == [] then old(timestamp) else out[|out| - 1].timestamp
        decreases |headers|
      {
        UnitsStep(out, headers, units, timestamp);
        var unitSize := U16(headers) / 8;
        if |units| < unitSize {
          return;
        }
        var unit := units[..unitSize];
        headers := headers[2..];
        units := units[unitSize..];
        timestamp := Later(timestamp);
        out := out + [Delivery(timestamp, if IsADTS(unit) then unit[HEADER..] else unit)];
      }
      UnitsStep(out, headers, units, timestamp);
    }
  }

  lemma UnitsStep(out: seq<Delivery>, headers: Buf, units: Buf, timestamp: nat)
    ensures |headers| < 2 || |units| < U16(headers) / 8 ==> Units(headers, units, timestamp) == []
    ensures |headers| >= 2 && |units| >= U16(headers) / 8 ==>
              var n, t := U16(headers) / 8, Later(timestamp);
              out + Units(headers, units, timestamp) ==
              out + [Delivery(t, Strip(units[..n]))] + Units(headers[2..], units[n..], t)
  {
    hide Strip, Later, U16;
  }

  // ---------------------------------------------------------------- RTP to ADTS

  /**
   * What RTPToADTS takes without looking: whole headers, all their units present, and a header to put in front
   * of every unit that is not ADTS yet (an unreadable configuration gives none).
   */
  predicate Complete(adts: Buf, headers: Buf, units: Buf)
    decreases |headers|
  {
    headers != [] ==>
      && |headers| >= 2 && U16(headers) / 8 <= |units|
      && (|adts| == HEADER || IsADTS(units[..U16(headers) / 8]))
      && Complete(adts, headers[2..], units[U16(headers) / 8..])
  }

  function Rewrapped(adts: Buf, headers: Buf, units: Buf): Buf
    requires |adts| <= HEADER && Complete(adts, headers, units)
  {
    if headers == [] then []
    else
      var n := U16(headers) / 8;
      Wrap(adts, units[..n]) + Rewrapped(adts, headers[2..], units[n..])
  }

  predicate CompletePacket(adts: Buf, src: Buf) {
    |src| >= 2 && |src| >= 2 + U16(src) / 8 && Complete(adts, src[2..2 + U16(src) / 8], src[2 + U16(src) / 8..])
  }

  function Unpacked(adts: Buf, src: Buf): Buf
    requires |adts| <= HEADER && CompletePacket(adts, src)
  {
    Rewrapped(adts, src[2..2 + U16(src) / 8], src[2 + U16(src) / 8..])
  }

  method RTPToADTS(adts: Buf, src: Buf) returns (dst: Buf)
    requires |adts| <= HEADER && CompletePacket(adts, src)
    ensures dst == Unpacked(adts, src)
  {
    hide IsADTS, U16, WithSize, Wrap, Rewrapped, Complete;
    dst := [];
    var headersSize := U16(src) / 8;
    var headers, units := src[2..2 + headersSize], src[2 + headersSize..];
    ghost var whole := Rewrapped(adts, headers, units);
    assert [] + whole == whole;
    while |headers| > 0
      invariant Complete(adts, headers, units)
      invariant dst + Rewrapped(adts, headers, units) == whole
      decreases |headers|
    {
      RewrappedStep(adts, headers, units);
      ghost var wrapped := Wrap(adts, units[..U16(headers) / 8]);
      Assoc(dst, wrapped, Rewrapped(adts, headers[2..], units[U16(headers) / 8..]));
      var unitSize := U16(headers) / 8;
      headers := headers[2..];
      var unit := units[..unitSize];
      units := units[unitSize..];
      AppendWrapped(adts, dst, unit);
      if !IsADTS(unit) {
        var i := |dst|;
        dst := dst + adts;
        dst := dst[..i] + WithSize(dst[i..], HEADER + |unit|);
      }
      dst := dst + unit;
    }
    RewrappedStep(adts, headers, units);
  }

  lemma RewrappedStep(adts: Buf, headers: Buf, units: Buf)
    requires |adts| <= HEADER && Complete(adts, headers, units)
    ensures headers == [] ==> Rewrapped(adts, headers, units) == []
    ensures headers != [] ==>
              var n := U16(headers) / 8;
              && |headers| >= 2 && n <= |units| && (|adts| == HEADER || IsADTS(units[..n]))
              && Complete(adts, headers[2..], units[n..])
              && Rewrapped(adts, headers, units) == Wrap(adts, units[..n]) + Rewrapped(adts, headers[2..], units[n..])
  {
    hide Wrap, U16, IsADTS;
  }

  lemma Assoc(a: Buf, b: Buf, c: Buf)
    ensures (a + b) + c == a + (b + c)
  {
  }

  /** The length goes into the header alone. */
  lemma AppendWrapped(adts: Buf, dst: Buf, unit: Buf)
    requires |unit| < 8192 && (|adts| == HEADER || (|adts| <= HEADER && IsADTS(unit)))
    ensures IsADTS(unit) ==> dst + Wrap(adts, unit) == dst + unit
    ensures !IsADTS(unit) ==>
              |adts| == HEADER &&
              var d := dst + adts;
              d[..|dst|] + WithSize(d[|dst|..], HEADER + |unit|) + unit == dst + Wrap(adts, unit)
  {
    hide IsADTS, OrByte, WithSize;
    var d := dst + adts;
    assert d[..|dst|] == dst && d[|dst|..] == adts;
    if !IsADTS(unit) {
      assert Header(adts) == adts;
      SizeInFront(adts, unit, HEADER + |unit|);
      Assoc(dst, WithSize(adts, HEADER + |unit|), unit);
    }
  }

  lemma SizeInFront(header: Buf, payload: Buf, size: nat)
    requires |header| >= 6
    ensures WithSize(header + payload, size) == WithSize(header, size) + payload
  {
    hide OrByte;
  }

  // ---------------------------------------------------------------- the chain

  function SizeHeaders(frames: seq<Buf>): (r: Buf)
    ensures |r| == 2 * |frames|
  {
    if frames == [] then [] else U16Bytes(8 * |frames[0]|) + SizeHeaders(frames[1..])
  }

  ghost predicate AllFrames(frames: seq<Buf>) {
    forall k: nat :: k < |frames| ==> IsFrame(frames[k])
  }

  /** The size is read out of the first bytes, whatever follows. */
  lemma FirstFrame(f: Buf, tail: Buf)
    requires IsFrame(f)
    ensures var b := f + tail; |b| > HEADER && ReadADTSSize(b) == |f| && b[..|f|] == f && b[|f|..] == tail
  {
    var b := f + tail;
    assert b[3] == f[3] && b[4] == f[4] && b[5] == f[5];
  }

  lemma {:induction false} FramesWalk(frames: seq<Buf>)
    requires AllFrames(frames)
    ensures Walkable(Concat(frames)) && AuHeaders(Concat(frames)) == SizeHeaders(frames)
  {
    hide IsFrame, ReadADTSSize, U16Bytes;
    if frames != [] {
      FirstFrame(frames[0], Concat(frames[1..]));
      FramesWalk(frames[1..]);
    }
  }

  lemma UnitHeader(n: nat, tail: Buf)
    requires n < 8192
    ensures U16(U16Bytes(8 * n) + tail) / 8 == n
  {
    U16RoundTrip(8 * n, tail);
  }

  lemma Halved(headers: Buf, src: Buf)
    requires |headers| < 8192
    ensures var p := U16Bytes(|headers| % 0x1_00_00 * 8) + headers + src;
            && U16(p) / 8 == |headers| && |p| >= 2 + |headers|
            && p[2..2 + |headers|] == headers && p[2 + |headers|..] == src
  {
    hide U16, U16Bytes;
    var field := U16Bytes(8 * |headers|);
    assert |headers| % 0x1_00_00 * 8 == 8 * |headers|;
    assert field + headers + src == field + (headers + src);
    UnitHeader(|headers|, headers + src);
  }

  /** The two halves of a packed stream of frames. */
  lemma PackedFrames(frames: seq<Buf>)
    requires AllFrames(frames) && |frames| < 4096
    ensures Walkable(Concat(frames))
    ensures var p := Packed(Concat(frames));
            && U16(p) / 8 == 2 * |frames| && |p| >= 2 + 2 * |frames|
            && p[2..2 + 2 * |frames|] == SizeHeaders(frames) && p[2 + 2 * |frames|..] == Concat(frames)
  {
    FramesWalk(frames);
    hide IsFrame, U16, U16Bytes, Walkable, AuHeaders, SizeHeaders, Concat;
    Halved(SizeHeaders(frames), Concat(frames));
  }

  /** One header and one unit at a time, whatever follows. */
  lemma UnitStep(units: seq<Buf>, headers: Buf, rest: Buf)
    requires units != [] && |units[0]| < 8192
    ensures var hs, us, n := SizeHeaders(units) + headers, Concat(units) + rest, |units[0]|;
            && |hs| >= 2 && U16(hs) / 8 == n <= |us| && hs[2..] == SizeHeaders(units[1..]) + headers
            && us[..n] == units[0] && us[n..] == Concat(units[1..]) + rest
  {
    hide U16, U16Bytes;
    var more := SizeHeaders(units[1..]) + headers;
    assert SizeHeaders(units) + headers == U16Bytes(8 * |units[0]|) + more;
    assert Concat(units) + rest == units[0] + (Concat(units[1..]) + rest);
    UnitHeader(|units[0]|, more);
  }

  lemma FrameStep(frames: seq<Buf>)
    requires frames != [] && |frames[0]| < 8192
    ensures var headers, units := SizeHeaders(frames), Concat(frames);
            && |headers| >= 2 && U16(headers) / 8 == |frames[0]| <= |units|
            && headers[2..] == SizeHeaders(frames[1..]) && units[|frames[0]|..] == Concat(frames[1..])
            && units[..|frames[0]|] == frames[0]
  {
    UnitStep(frames, [], []);
    hide U16, U16Bytes, SizeHeaders, Concat;
    assert SizeHeaders(frames) + [] == SizeHeaders(frames) && Concat(frames) + [] == Concat(frames);
    assert SizeHeaders(frames[1..]) + [] == SizeHeaders(frames[1..]) && Concat(frames[1..]) + [] == Concat(frames[1..]);
  }

  lemma TimeAdds(timestamp: nat, k: nat)
    ensures (Later(timestamp) + 1024 * k) % TS == (timestamp + 1024 * (k + 1)) % 0x1_00_00_00_00
  {
    var t := timestamp + AU_TIME;
    assert t == t / TS * TS + t % TS;
    ModShift(t % TS + 1024 * k, t / TS, TS);
  }

  /** What is handed on of a unit: an ADTS frame loses its header. */
  function Inside(unit: Buf): Buf {
    if |unit| >= 7 && U(unit, 0, 12) == 0xFFF && U(unit, 13, 2) == 0 then unit[7..] else unit
  }

  lemma StripIsInside(unit: Buf)
    ensures Strip(unit) == Inside(unit)
  {
    hide U, IsADTS;
    IsADTSIff(unit);
  }

  lemma DeliverFirst(units: seq<Buf>, headers: Buf, rest: Buf, timestamp: nat)
    requires units != [] && |units[0]| < 8192
    ensures Units(SizeHeaders(units) + headers, Concat(units) + rest, timestamp) ==
            [Delivery(Later(timestamp), Inside(units[0]))] +
            Units(SizeHeaders(units[1..]) + headers, Concat(units[1..]) + rest, Later(timestamp))
  {
    UnitStep(units, headers, rest);
    StripIsInside(units[0]);
    hide IsADTS, U16, SizeHeaders, Concat, Later, Strip, Inside;
  }

  lemma NothingDelivered(headers: Buf, rest: Buf, timestamp: nat)
    requires |headers| < 2 || |rest| < U16(headers) / 8
    ensures Units(SizeHeaders([]) + headers, Concat([]) + rest, timestamp) == []
  {
    assert SizeHeaders([]) + headers == headers && Concat([]) + rest == rest;
  }

  /** The units in front of one that is cut short, in order, 1024 ticks apart. */
  lemma {:induction false} UnitsDelivered(units: seq<Buf>, headers: Buf, rest: Buf, timestamp: nat)
    requires (forall u <- units :: |u| < 8192) && (|headers| < 2 || |rest| < U16(headers) / 8)
    ensures var out := Units(SizeHeaders(units) + headers, Concat(units) + rest, timestamp);
            && |out| == |units|
            && forall k: nat :: k < |units| ==>
                 out[k] == Delivery((timestamp + 1024 * (k + 1)) % 0x1_00_00_00_00, Inside(units[k]))
    decreases |units|
  {
    hide Later, SizeHeaders, Concat, Units, U16, Inside;
    if units != [] {
      var t := Later(timestamp);
      DeliverFirst(units, headers, rest, timestamp);
      UnitsDelivered(units[1..], headers, rest, t);
      TimeIs(timestamp);
      forall k: nat | 0 < k < |units|
        ensures (t + 1024 * k) % TS == (timestamp + 1024 * (k + 1)) % 0x1_00_00_00_00
      {
        TimeAdds(timestamp, k);
      }
    } else {
      NothingDelivered(headers, rest, timestamp);
    }
  }

  lemma UnitsOfFrames(frames: seq<Buf>, timestamp: nat)
    requires AllFrames(frames)
    ensures var out := Units(SizeHeaders(frames), Concat(frames), timestamp);
            && |out| == |frames|
            && forall k: nat :: k < |frames| ==>
                 out[k] == Delivery((timestamp + 1024 * (k + 1)) % 0x1_00_00_00_00, frames[k][HEADER..])
  {
    forall k: nat | k < |frames|
      ensures |frames[k]| < 8192 && Inside(frames[k]) == frames[k][HEADER..]
    {
      IsADTSIff(frames[k]);
      hide U;
    }
    hide U, U16, IsFrame, Inside, SizeHeaders, Concat, Units;
    UnitsDelivered(frames, [], [], timestamp);
    assert SizeHeaders(frames) + [] == SizeHeaders(frames) && Concat(frames) + [] == Concat(frames);
  }

  lemma TimeIs(timestamp: nat)
    ensures Later(timestamp) == (timestamp + 1024) % 0x1_00_00_00_00
  {
  }

  /** Every frame of a packed ADTS stream is delivered, in order, 1024 ticks apart. */
  lemma DepayDeliversFrames(frames: seq<Buf>, timestamp: nat)
    requires AllFrames(frames) && |frames| < 4096
    ensures Walkable(Concat(frames))
    ensures var out := Deliveries(Packed(Concat(frames)), timestamp);
            && |out| == |frames|
            && forall k: nat :: k < |frames| ==>
                 out[k] == Delivery((timestamp + 1024 * (k + 1)) % 0x1_00_00_00_00, frames[k][HEADER..])
  {
    hide IsFrame, IsADTS, U16, Packed, Walkable, Units;
    PackedFrames(frames);
    UnitsOfFrames(frames, timestamp);
  }

  function WrapAll(adts: Buf, raws: seq<Buf>): (r: seq<Buf>)
    requires |adts| <= HEADER
    ensures |r| == |raws|
    ensures forall k: nat :: k < |raws| ==> r[k] == Wrap(adts, raws[k])
  {
    if raws == [] then [] else [Wrap(adts, raws[0])] + WrapAll(adts, raws[1..])
  }

  lemma WrapAllFrames(adts: Buf, raws: seq<Buf>)
    requires HeaderBytes(adts) && forall r <- raws :: Wrappable(r)
    ensures AllFrames(WrapAll(adts, raws))
    ensures forall k: nat :: k < |raws| ==> WrapAll(adts, raws)[k][HEADER..] == raws[k]
  {
    forall k: nat | k < |raws|
      ensures IsFrame(WrapAll(adts, raws)[k]) && WrapAll(adts, raws)[k][HEADER..] == raws[k]
    {
      hide *;
      WrapFrames(adts, raws[k]);
    }
  }

  /** The whole chain: wrap, concatenate, pack, depayload gives the raw frames back. */
  lemma AacChain(adts: Buf, raws: seq<Buf>, timestamp: nat)
    requires HeaderBytes(adts) && |raws| < 4096 && forall r <- raws :: Wrappable(r)
    ensures Walkable(Concat(WrapAll(adts, raws)))
    ensures var out := Deliveries(Packed(Concat(WrapAll(adts, raws))), timestamp);
            && |out| == |raws|
            && forall k: nat :: k < |raws| ==> out[k] == Delivery((timestamp + 1024 * (k + 1)) % 0x1_00_00_00_00, raws[k])
  {
    hide IsFrame, Wrap, Wrappable, Walkable, Packed, Deliveries;
    var frames := WrapAll(adts, raws);
    WrapAllFrames(adts, raws);
    DepayDeliversFrames(frames, timestamp);
  }

  lemma {:induction false} RewrapFrames(adts: Buf, frames: seq<Buf>)
    requires |adts| <= HEADER && AllFrames(frames)
    ensures Complete(adts, SizeHeaders(frames), Concat(frames))
    ensures Rewrapped(adts, SizeHeaders(frames), Concat(frames)) == Concat(frames)
  {
    if frames != [] {
      FrameStep(frames);
      RewrapFrames(adts, frames[1..]);
      hide IsADTS, U16, U16Bytes, ReadADTSSize;
    }
  }

  /** RTPToADTS undoes ADTStoRTP, whatever header it would have used itself. */
  lemma RtpToAdtsInverts(adts: Buf, frames: seq<Buf>)
    requires |adts| <= HEADER && AllFrames(frames) && |frames| < 4096
    ensures Walkable(Concat(frames)) && CompletePacket(adts, Packed(Concat(frames)))
    ensures Unpacked(adts, Packed(Concat(frames))) == Concat(frames)
  {
    hide IsFrame, IsADTS, U16, Packed, Walkable, Complete, Rewrapped;
    PackedFrames(frames);
    RewrapFrames(adts, frames);
  }

  /** Units of any kind behind their sizes: each comes out, in a header of its own unless it is ADTS already. */
  lemma {:induction false} RewrapUnits(adts: Buf, units: seq<Buf>)
    requires |adts| == HEADER && forall u <- units :: |u| < 8192
    ensures Complete(adts, SizeHeaders(units), Concat(units))
    ensures Rewrapped(adts, SizeHeaders(units), Concat(units)) == Concat(WrapAll(adts, units))
  {
    hide IsADTS, U16, U16Bytes, Wrap;
    if units != [] {
      FrameStep(units);
      RewrapUnits(adts, units[1..]);
    }
  }

  /** An ADTS frame that arrives bare is delivered without its header, at the clock as it stands. */
  lemma BareFrameDelivered(payload: Buf, timestamp: nat)
    requires IsADTS(payload) && |payload| < 8192
    ensures Deliveries(payload, timestamp) == [Delivery(timestamp, payload[7..])]
  {
  }
}
