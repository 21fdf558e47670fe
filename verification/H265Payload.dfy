/**
 * H.265 payloading without DONL (pkg/h265/payloader.go), proved against a receiver written from
 * sections 4.4.1 to 4.4.3 of RFC 7798: what the receiver reassembles is what was sent.
 */
module H265Payload {
  import opened Wrappers
  import opened Bytes
  import opened Avcc
  import opened Packing

  const AGGREGATION := 48
  const FRAGMENT := 49

  // ---------------------------------------------------------------- the two-byte NAL unit header

  function NalType(hi: Byte): (r: nat)
    ensures r < 64
  {
    hi / 2 % 64
  }

  function LayerID(hi: Byte, lo: Byte): (r: nat)
    ensures r < 64
  {
    hi % 2 * 32 + lo / 8
  }

  function TID(lo: Byte): (r: nat)
    ensures r < 8
  {
    lo % 8
  }

  // ---------------------------------------------------------------- receiver (RFC 7798)

  /** Units delivered so far and the fragmented unit being put back together. */
  datatype Receiver = Receiver(nals: seq<Buf>, partial: Option<Buf>)

  const IDLE := Receiver([], None)

  predicate StartBit(p: Buf)
    requires |p| >= 3
  {
    p[2] / 128 == 1
  }

  predicate EndBit(p: Buf)
    requires |p| >= 3
  {
    p[2] / 64 % 2 == 1
  }

  /** Section 4.4.3: the header of the fragmented unit is that of the packet with the type of the FU header. */
  function RestoredHeader(p: Buf): Buf
    requires |p| >= 3
  {
    [p[0] / 128 * 128 + p[2] % 64 * 2 + p[0] % 2, p[1]]
  }

  function Receive(rx: Receiver, p: Buf): Receiver {
    if |p| < 2 then rx
    else if NalType(p[0]) == AGGREGATION then Receiver(rx.nals + SplitAggregation(p[2..]), None)
    else if NalType(p[0]) == FRAGMENT then
      if |p| < 3 then rx
      else
        var whole := if StartBit(p) then Some(RestoredHeader(p) + p[3..])
                     else if rx.partial.Some? then Some(rx.partial.value + p[3..]) else None;
        if EndBit(p) && whole.Some? then Receiver(rx.nals + [whole.value], None) else Receiver(rx.nals, whole)
    else Receiver(rx.nals + [p], None)
  }

  function ReceiveAll(packets: seq<Buf>): Receiver {
    if packets == [] then IDLE else Receive(ReceiveAll(packets[..|packets| - 1]), packets[|packets| - 1])
  }

  lemma ReceiveNext(packets: seq<Buf>, p: Buf)
    ensures ReceiveAll(packets + [p]) == Receive(ReceiveAll(packets), p)
  {
    assert (packets + [p])[..|packets + [p]| - 1] == packets;
  }

  // ---------------------------------------------------------------- packet shapes

  /** Single and fragment packets fit the mtu; an aggregation packet may exceed it by its own header. */
  predicate Fits(mtu: nat, p: Buf) {
    && |p| >= 2
    && |p| <= (if NalType(p[0]) == AGGREGATION then mtu + 2 else mtu)
    && (NalType(p[0]) == FRAGMENT ==> |p| >= 3 && !(StartBit(p) && EndBit(p)))
  }

  predicate AllFit(mtu: nat, packets: seq<Buf>) {
    forall p <- packets :: Fits(mtu, p)
  }

  predicate Plain(nal: Buf) {
    |nal| >= 2 && NalType(nal[0]) < 48
  }

  function Fragment(hi: Byte, lo: Byte, start: bool, end: bool, part: Buf): Buf {
    [hi / 128 * 128 + FRAGMENT * 2 + hi % 2, lo,
     NalType(hi) + (if start then 128 else 0) + (if end then 64 else 0)] + part
  }

  lemma IndicatorBits(hi: Byte)
    ensures var x := hi / 128 * 128 + FRAGMENT * 2 + hi % 2;
            x < 256 && x / 2 % 64 == FRAGMENT && x / 128 == hi / 128 && x % 2 == hi % 2
    ensures hi == hi / 128 * 128 + hi / 2 % 64 * 2 + hi % 2
  {
  }

  lemma HeaderBits(t: nat, start: bool, end: bool)
    requires t < 64
    ensures var x := t + (if start then 128 else 0) + (if end then 64 else 0);
            x < 256 && x % 64 == t && (x / 128 == 1 <==> start) && (x / 64 % 2 == 1 <==> end)
  {
  }

  lemma FragmentFields(hi: Byte, lo: Byte, start: bool, end: bool, part: Buf)
    ensures var p := Fragment(hi, lo, start, end, part);
            && |p| == 3 + |part| && p[3..] == part && NalType(p[0]) == FRAGMENT
            && (StartBit(p) <==> start) && (EndBit(p) <==> end)
            && RestoredHeader(p) == [hi, lo]
  {
    IndicatorBits(hi);
    HeaderBits(NalType(hi), start, end);
  }

  predicate NoAggregation(packets: seq<Buf>) {
    forall p <- packets :: |p| >= 2 && NalType(p[0]) != AGGREGATION
  }

  // ---------------------------------------------------------------- fragmentation

  lemma ReceiveFragment(rx: Receiver, hi: Byte, lo: Byte, start: bool, end: bool, part: Buf)
    requires !(start && end) && (start || rx.partial.Some?)
    ensures var whole := (if start then [hi, lo] else rx.partial.value) + part;
            Receive(rx, Fragment(hi, lo, start, end, part)) ==
            if end then Receiver(rx.nals + [whole], None) else Receiver(rx.nals, Some(whole))
  {
    FragmentFields(hi, lo, start, end, part);
  }

  /** The packets of one fragmented unit whose payload was cut into `parts`. */
  function FragmentPackets(hi: Byte, lo: Byte, parts: seq<Buf>, start: bool): seq<Buf> {
    if parts == [] then []
    else [Fragment(hi, lo, start, !start && |parts| == 1, parts[0])] + FragmentPackets(hi, lo, parts[1..], false)
  }

  /** What is sent for one unit when nothing is aggregated: `parts` is empty for a single packet. */
  datatype Unit = Unit(nal: Buf, parts: seq<Buf>) {
    predicate Valid() {
      && Plain(nal)
      && (parts != [] ==> |parts| >= 2 && Concat(parts) == nal[2..] && forall p <- parts :: p != [])
    }

    function Packets(): seq<Buf>
      requires Valid()
    {
      if parts == [] then [nal] else FragmentPackets(nal[0], nal[1], parts, true)
    }
  }

  function UnitFor(mtu: nat, nal: Buf): (u: Unit)
    requires mtu >= 4 && Plain(nal)
    ensures u.Valid() && u.nal == nal
  {
    Unit(nal, if |nal| <= mtu then [] else Cut(mtu - 3, nal[2..]))
  }

  function UnitsFor(mtu: nat, nals: seq<Buf>): (us: seq<Unit>)
    requires mtu >= 4 && forall n <- nals :: Plain(n)
    ensures |us| == |nals| && forall i :: 0 <= i < |us| ==> us[i] == UnitFor(mtu, nals[i])
  {
    if nals == [] then [] else [UnitFor(mtu, nals[0])] + UnitsFor(mtu, nals[1..])
  }

  function AllPackets(us: seq<Unit>): seq<Buf>
    requires forall u <- us :: u.Valid()
  {
    if us == [] then [] else AllPackets(us[..|us| - 1]) + us[|us| - 1].Packets()
  }

  /** The receiver puts the fragments back together, whatever the cut. */
  lemma {:induction false} ReceiveFragments(
    before: seq<Buf>, done: seq<Buf>, hi: Byte, lo: Byte, sent: Buf, parts: seq<Buf>, start: bool)
    requires parts != [] && (start ==> |parts| >= 2 && sent == [hi, lo])
    requires ReceiveAll(before) == Receiver(done, if start then None else Some(sent))
    ensures ReceiveAll(before + FragmentPackets(hi, lo, parts, start)) == Receiver(done + [sent + Concat(parts)], None)
    decreases |parts|
  {
    hide Fragment, Receive, ReceiveAll;
    var end := !start && |parts| == 1;
    var p := Fragment(hi, lo, start, end, parts[0]);
    ReceiveFragment(ReceiveAll(before), hi, lo, start, end, parts[0]);
    ReceiveNext(before, p);
    if end {
      assert before + FragmentPackets(hi, lo, parts, start) == before + [p];
      assert sent + Concat(parts) == sent + parts[0];
    } else {
      assert (before + [p]) + FragmentPackets(hi, lo, parts[1..], false) == before + FragmentPackets(hi, lo, parts, start);
      assert (sent + parts[0]) + Concat(parts[1..]) == sent + Concat(parts);
      ReceiveFragments(before + [p], done, hi, lo, sent + parts[0], parts[1..], false);
    }
  }

  lemma {:induction false} FragmentsFit(mtu: nat, hi: Byte, lo: Byte, parts: seq<Buf>, start: bool)
    requires forall p <- parts :: |p| + 3 <= mtu
    ensures AllFit(mtu, FragmentPackets(hi, lo, parts, start)) && NoAggregation(FragmentPackets(hi, lo, parts, start))
    decreases |parts|
  {
    if parts != [] {
      assert parts[0] in parts;
      FragmentFields(hi, lo, start, !start && |parts| == 1, parts[0]);
      FragmentsFit(mtu, hi, lo, parts[1..], false);
    }
  }

  lemma UnitReceived(mtu: nat, nal: Buf, before: seq<Buf>, done: seq<Buf>)
    requires 4 <= mtu && Plain(nal) && ReceiveAll(before) == Receiver(done, None)
    ensures ReceiveAll(before + UnitFor(mtu, nal).Packets()) == Receiver(done + [nal], None)
    ensures AllFit(mtu, UnitFor(mtu, nal).Packets()) && NoAggregation(UnitFor(mtu, nal).Packets())
  {
    if |nal| <= mtu {
      ReceiveNext(before, nal);
    } else {
      var parts := Cut(mtu - 3, nal[2..]);
      assert [nal[0], nal[1]] + nal[2..] == nal;
      ReceiveFragments(before, done, nal[0], nal[1], [nal[0], nal[1]], parts, true);
      FragmentsFit(mtu, nal[0], nal[1], parts, true);
    }
  }

  lemma Reassociate(a: seq<Buf>, x: Buf, b: seq<Buf>)
    ensures a + ([x] + b) == (a + [x]) + b
  {
  }

  /** The packets still to be sent for `rest`: one turn of the loop takes off the first. */
  lemma NextFragment(hi: Byte, lo: Byte, max: nat, rest: Buf, start: bool, size: nat)
    requires 0 < max && rest != [] && (start ==> |rest| > max)
    requires size == if |rest| > max then max else |rest|
    ensures FragmentPackets(hi, lo, Cut(max, rest), start) ==
            [Fragment(hi, lo, start, !start && |rest| - size == 0, rest[..size])]
            + FragmentPackets(hi, lo, Cut(max, rest[size..]), false)
  {
    var parts := Cut(max, rest);
    if |rest| <= max {
      assert parts == [rest] && rest[..size] == rest && rest[size..] == [];
    } else {
      assert parts[0] == rest[..max] && parts[1..] == Cut(max, rest[max..]);
    }
  }

  method AppendFragments(mtu: nat, nalu: Buf, before: seq<Buf>) returns (payloads: seq<Buf>)
    requires 4 <= mtu < |nalu|
    ensures payloads == before + FragmentPackets(nalu[0], nalu[1], Cut(mtu - 3, nalu[2..]), true)
  {
    hide Fragment, FragmentPackets, Cut;
    payloads := before;
    var maxFUPayloadSize := mtu - 3;
    var hi, lo := nalu[0], nalu[1];
    var rest := nalu[2..];
    var fullNALUSize := |rest|;
    while |rest| > 0
      invariant |rest| <= fullNALUSize == |nalu| - 2
      invariant payloads + FragmentPackets(hi, lo, Cut(maxFUPayloadSize, rest), |rest| == fullNALUSize) ==
                before + FragmentPackets(hi, lo, Cut(maxFUPayloadSize, nalu[2..]), true)
    {
      var size := |rest|;
      if size > maxFUPayloadSize {
        size := maxFUPayloadSize;
      }
      var start := |rest| == fullNALUSize;
      var end := !start && |rest| - size == 0;
      var out := Fragment(hi, lo, start, end, rest[..size]);
      NextFragment(hi, lo, maxFUPayloadSize, rest, start, size);
      Reassociate(payloads, out, FragmentPackets(hi, lo, Cut(maxFUPayloadSize, rest[size..]), false));
      payloads := payloads + [out];
      rest := rest[size..];
    }
    NothingLeft(hi, lo, maxFUPayloadSize);
  }

  lemma NothingLeft(hi: Byte, lo: Byte, max: nat)
    requires max > 0
    ensures FragmentPackets(hi, lo, Cut(max, []), false) == []
  {
  }

  // ---------------------------------------------------------------- aggregation

  function MinLayer(nals: seq<Buf>): (r: nat)
    requires forall n <- nals :: |n| >= 2
    ensures r < 256 && (nals != [] ==> r < 64)
  {
    if nals == [] then 255
    else
      var n, rest := nals[|nals| - 1], MinLayer(nals[..|nals| - 1]);
      if LayerID(n[0], n[1]) < rest then LayerID(n[0], n[1]) else rest
  }

  function MinTid(nals: seq<Buf>): (r: nat)
    requires forall n <- nals :: |n| >= 2
    ensures r < 256 && (nals != [] ==> r < 8)
  {
    if nals == [] then 255
    else
      var n, rest := nals[|nals| - 1], MinTid(nals[..|nals| - 1]);
      if TID(n[1]) < rest then TID(n[1]) else rest
  }

  /** Section 4.4.2: the lowest layer and temporal identifiers of the units, then each unit behind its size. */
  function Aggregation(nals: seq<Buf>): Buf
    requires nals != [] && forall n <- nals :: |n| >= 2
  {
    var layerID, tid := MinLayer(nals), MinTid(nals);
    [AGGREGATION * 2 + layerID / 32, layerID % 32 * 8 + tid] + Aggregated(nals)
  }

  lemma NoUnits()
    ensures MinLayer([]) == 255 && MinTid([]) == 255 && Aggregated([]) == []
  {
  }

  lemma MinNext(nals: seq<Buf>, i: nat)
    requires i < |nals| && forall n <- nals :: |n| >= 2
    ensures var n := nals[i];
            && MinLayer(nals[..i + 1])
               == (if LayerID(n[0], n[1]) < MinLayer(nals[..i]) then LayerID(n[0], n[1]) else MinLayer(nals[..i]))
            && MinTid(nals[..i + 1]) == (if TID(n[1]) < MinTid(nals[..i]) then TID(n[1]) else MinTid(nals[..i]))
  {
    hide LayerID, TID;
    assert nals[..i + 1][..i] == nals[..i];
  }

  lemma AggregatedStep(nals: seq<Buf>, i: nat)
    requires i < |nals|
    ensures Aggregated(nals[..i + 1]) == Aggregated(nals[..i]) + U16Bytes(|nals[i]|) + nals[i]
  {
    assert nals[..i + 1][..i] == nals[..i];
  }

  /** The fields of section 1.1.4 of RFC 7798: five bits hold the rest of the layer, three the temporal identifier. */
  function LayerOf(nal: Buf): nat
    requires |nal| >= 2
  {
    (nal[0] as int) % 2 * 32 + nal[1] as int / 8
  }

  function TemporalOf(nal: Buf): nat
    requires |nal| >= 2
  {
    nal[1] as int % 8
  }

  lemma {:induction false} MinLayerIs(nals: seq<Buf>)
    requires nals != [] && forall n <- nals :: |n| >= 2
    ensures (forall n <- nals :: MinLayer(nals) <= LayerOf(n)) && exists n <- nals :: MinLayer(nals) == LayerOf(n)
  {
    var init, last := nals[..|nals| - 1], nals[|nals| - 1];
    assert nals == init + [last] && last in nals;
    if init != [] {
      MinLayerIs(init);
      var m :| m in init && MinLayer(init) == LayerOf(m);
      assert m in nals;
    }
  }

  lemma {:induction false} MinTidIs(nals: seq<Buf>)
    requires nals != [] && forall n <- nals :: |n| >= 2
    ensures (forall n <- nals :: MinTid(nals) <= TemporalOf(n)) && exists n <- nals :: MinTid(nals) == TemporalOf(n)
  {
    var init, last := nals[..|nals| - 1], nals[|nals| - 1];
    assert nals == init + [last] && last in nals;
    if init != [] {
      MinTidIs(init);
      var m :| m in init && MinTid(init) == TemporalOf(m);
      assert m in nals;
    }
  }

  lemma HeaderFields(layerID: nat, tid: nat)
    requires layerID < 64 && tid < 8
    ensures var hi, lo := 96 + layerID / 32, layerID % 32 * 8 + tid;
            && hi < 256 && lo < 256 && hi / 128 == 0 && hi / 2 % 64 == 48
            && hi % 2 * 32 + lo / 8 == layerID && lo % 8 == tid
  {
  }

  /** The header of an aggregation packet: type 48, forbidden bit clear, the least identifiers of its units. */
  lemma AggregationHeader(nals: seq<Buf>)
    requires nals != [] && forall n <- nals :: |n| >= 2
    ensures var p := Aggregation(nals);
            && |p| >= 2 && p[0] / 128 == 0 && p[0] / 2 % 64 == 48
            && (forall n <- nals :: LayerOf(p) <= LayerOf(n)) && (exists n <- nals :: LayerOf(p) == LayerOf(n))
            && (forall n <- nals :: TemporalOf(p) <= TemporalOf(n)) && (exists n <- nals :: TemporalOf(p) == TemporalOf(n))
  {
    hide MinLayer, MinTid, Aggregated;
    MinLayerIs(nals);
    MinTidIs(nals);
    HeaderFields(MinLayer(nals), MinTid(nals));
  }

  method BuildAggregation(buffered: seq<Buf>) returns (buf: Buf)
    requires buffered != [] && forall n <- buffered :: |n| >= 2
    ensures buf == Aggregation(buffered)
  {
    hide LayerID, TID, MinLayer, MinTid, Aggregated;
    NoUnits();
    var layerID, tid := 255, 255;
    for i := 0 to |buffered|
      invariant layerID == MinLayer(buffered[..i]) && tid == MinTid(buffered[..i])
    {
      var nalu := buffered[i];
      MinNext(buffered, i);
      if LayerID(nalu[0], nalu[1]) < layerID {
        layerID := LayerID(nalu[0], nalu[1]);
      }
      if TID(nalu[1]) < tid {
        tid := TID(nalu[1]);
      }
    }
    var body: Buf := [];
    for i := 0 to |buffered|
      invariant body == Aggregated(buffered[..i])
    {
      AggregatedStep(buffered, i);
      body := body + U16Bytes(|buffered[i]|) + buffered[i];
    }
    assert buffered[..|buffered|] == buffered;
    buf := [AGGREGATION * 2 + layerID / 32, layerID % 32 * 8 + tid] + body;
  }

  // ---------------------------------------------------------------- what Payload sends

  /** What the payloader can take: two bytes it indexes without looking, and a fragment size above zero. */
  predicate Payable(mtu: nat, nal: Buf) {
    |nal| >= 2 && (|nal| <= mtu || mtu >= 3 || |nal| == 2)
  }

  predicate AllPayable(mtu: nat, nals: seq<Buf>) {
    forall n <- nals :: Payable(mtu, n)
  }

  /** What flushBufferedNals emits: nothing, the one unit, or an aggregation packet. */
  function Flushed(buffered: seq<Buf>): seq<Buf>
    requires forall n <- buffered :: |n| >= 2
  {
    if buffered == [] then [] else if |buffered| == 1 then buffered else [Aggregation(buffered)]
  }

  /** The buffer after one unit, and what is sent for it. A unit no fragment can carry is dropped. */
  function Offered(mtu: nat, skipAggregation: bool, buffered: seq<Buf>, nal: Buf): (r: (seq<Buf>, seq<Buf>))
    requires AllPayable(mtu, buffered) && Payable(mtu, nal)
    ensures AllPayable(mtu, r.0)
  {
    if |nal| <= mtu then
      var full := AggregatedSize(buffered) + |nal| + 2 > mtu;
      var sent := if full then Flushed(buffered) else [];
      var waiting := if full then [nal] else buffered + [nal];
      if skipAggregation then ([], sent + Flushed(waiting)) else (waiting, sent)
    else if mtu <= 3 then (buffered, [])
    else ([], Flushed(buffered) + FragmentPackets(nal[0], nal[1], Cut(mtu - 3, nal[2..]), true))
  }

  function Sent(mtu: nat, skipAggregation: bool, buffered: seq<Buf>, nals: seq<Buf>): seq<Buf>
    requires AllPayable(mtu, buffered) && AllPayable(mtu, nals)
    decreases |nals|
  {
    if nals == [] then Flushed(buffered)
    else
      var step := Offered(mtu, skipAggregation, buffered, nals[0]);
      step.1 + Sent(mtu, skipAggregation, step.0, nals[1..])
  }

  method Flush(buffered: seq<Buf>) returns (payloads: seq<Buf>)
    requires forall n <- buffered :: |n| >= 2
    ensures payloads == Flushed(buffered)
  {
    if |buffered| == 0 {
      return [];
    }
    if |buffered| == 1 {
      return [buffered[0]];
    }
    var buf := BuildAggregation(buffered);
    payloads := [buf];
  }

  /** One unit handed out by EmitNalus; `size` is aggregationBufferSize. */
  method Offer(mtu: nat, nalu: Buf, skipAggregation: bool, buffered: seq<Buf>, size: nat)
    returns (buffered': seq<Buf>, size': nat, payloads: seq<Buf>)
    requires AllPayable(mtu, buffered) && Payable(mtu, nalu) && size == AggregatedSize(buffered)
    ensures (buffered', payloads) == Offered(mtu, skipAggregation, buffered, nalu)
    ensures size' == AggregatedSize(buffered')
  {
    hide FragmentPackets, Cut, Aggregation, Flushed, AggregatedSize;
    TwoBytes(mtu, buffered);
    NothingBuffered(mtu);
    buffered', size', payloads := buffered, size, [];
    if |nalu| <= mtu {
      var marginalAggregationSize := |nalu| + 2;
      if size' + marginalAggregationSize > mtu {
        payloads := Flush(buffered');
        buffered', size' := [], 0;
      }
      AggregatedNext(buffered', nalu);
      assert [] + [nalu] == [nalu];
      buffered' := buffered' + [nalu];
      size' := size' + marginalAggregationSize;
      if skipAggregation {
        var more := Flush(buffered');
        payloads := payloads + more;
        buffered', size' := [], 0;
      }
    } else {
      var maxFUPayloadSize := mtu - 3;
      if maxFUPayloadSize == 0 || |nalu[2..]| == 0 {
        return;
      }
      payloads := Flush(buffered');
      buffered', size' := [], 0;
      payloads := AppendFragments(mtu, nalu, payloads);
    }
  }

  lemma TwoBytes(mtu: nat, nals: seq<Buf>)
    requires AllPayable(mtu, nals)
    ensures forall n <- nals :: |n| >= 2
  {
  }

  lemma AggregatedNext(buffered: seq<Buf>, nal: Buf)
    ensures AggregatedSize(buffered + [nal]) == AggregatedSize(buffered) + |nal| + 2
    ensures AggregatedSize([]) == 0
  {
    assert (buffered + [nal])[..|buffered|] == buffered;
  }

  lemma SentNext(mtu: nat, skipAggregation: bool, buffered: seq<Buf>, nals: seq<Buf>, i: nat, before: seq<Buf>)
    requires i < |nals| && AllPayable(mtu, buffered) && AllPayable(mtu, nals[i..])
    ensures AllPayable(mtu, nals[i + 1..]) && Payable(mtu, nals[i])
    ensures var step := Offered(mtu, skipAggregation, buffered, nals[i]);
            before + Sent(mtu, skipAggregation, buffered, nals[i..]) ==
            before + step.1 + Sent(mtu, skipAggregation, step.0, nals[i + 1..])
  {
    hide Offered, Payable;
    assert nals[i] == nals[i..][0] && nals[i..][1..] == nals[i + 1..];
    assert forall n <- nals[i + 1..] :: n in nals[i..];
  }

  method Payload(mtu: nat, payload: Buf, skipAggregation: bool) returns (payloads: seq<Buf>)
    requires mtu < 0x1_00_00 && AllPayable(mtu, NonEmpty(Split(payload)))
    ensures payloads == Sent(mtu, skipAggregation, [], NonEmpty(Split(payload)))
  {
    payloads := [];
    hide Offered, Payable, Split, Sent, Flushed;
    if |payload| == 0 {
      NothingSent(mtu, skipAggregation);
      return;
    }
    var nals := EmitAvcNalus(payload);
    NothingBuffered(mtu);
    var bufferedNALUs: seq<Buf> := [];
    var aggregationBufferSize := 0;
    assert nals[0..] == nals;
    for i := 0 to |nals|
      invariant AllPayable(mtu, bufferedNALUs) && aggregationBufferSize == AggregatedSize(bufferedNALUs)
      invariant AllPayable(mtu, NonEmpty(nals[i..]))
      invariant payloads + Sent(mtu, skipAggregation, bufferedNALUs, NonEmpty(nals[i..])) ==
                Sent(mtu, skipAggregation, [], NonEmpty(Split(payload)))
    {
      NonEmptyHead(nals, i);
      if |nals[i]| == 0 {
        continue;
      }
      SentNext(mtu, skipAggregation, bufferedNALUs, NonEmpty(nals[i..]), 0, payloads);
      assert NonEmpty(nals[i..])[0..] == NonEmpty(nals[i..]);
      var packets: seq<Buf>;
      bufferedNALUs, aggregationBufferSize, packets :=
        Offer(mtu, nals[i], skipAggregation, bufferedNALUs, aggregationBufferSize);
      payloads := payloads + packets;
    }
    assert nals[|nals|..] == [];
    SentNothing(mtu, skipAggregation, bufferedNALUs);
    var last := Flush(bufferedNALUs);
    payloads := payloads + last;
  }

  lemma NothingSent(mtu: nat, skipAggregation: bool)
    ensures NonEmpty(Split([])) == [] && AllPayable(mtu, []) && Sent(mtu, skipAggregation, [], []) == []
  {
  }

  lemma NothingBuffered(mtu: nat)
    ensures AllPayable(mtu, []) && AggregatedSize([]) == 0 && Buffered(mtu, [])
  {
  }

  lemma SentNothing(mtu: nat, skipAggregation: bool, buffered: seq<Buf>)
    requires AllPayable(mtu, buffered)
    ensures NonEmpty([]) == [] && (forall n <- buffered :: |n| >= 2)
    ensures Sent(mtu, skipAggregation, buffered, []) == Flushed(buffered)
  {
  }

  lemma NonEmptyHead(nals: seq<Buf>, i: nat)
    requires i < |nals|
    ensures nals[i] == [] ==> NonEmpty(nals[i..]) == NonEmpty(nals[i + 1..])
    ensures nals[i] != [] ==>
              NonEmpty(nals[i..]) != [] && NonEmpty(nals[i..])[0] == nals[i]
              && NonEmpty(nals[i..])[1..] == NonEmpty(nals[i + 1..])
  {
    assert nals[i..][1..] == nals[i + 1..];
    if nals[i] == [] {
      assert [] + NonEmpty(nals[i + 1..]) == NonEmpty(nals[i + 1..]);
    }
  }

  // ---------------------------------------------------------------- what the receiver gets

  predicate AllPlain(nals: seq<Buf>) {
    forall n <- nals :: n != [] ==> Plain(n)
  }

  /** An mtu of 3 or less leaves no room for a fragment, so that longer units are dropped. */
  function Kept(mtu: nat, nals: seq<Buf>): seq<Buf> {
    if nals == [] then [] else (if |nals[0]| <= mtu || mtu >= 4 then [nals[0]] else []) + Kept(mtu, nals[1..])
  }

  /** What waits to be aggregated: units that fit, and together fit unless there is only one. */
  predicate Buffered(mtu: nat, nals: seq<Buf>) {
    (forall n <- nals :: Plain(n) && |n| <= mtu) && (|nals| >= 2 ==> AggregatedSize(nals) <= mtu)
  }

  lemma BufferedIsPayable(mtu: nat, nals: seq<Buf>)
    requires Buffered(mtu, nals)
    ensures AllPayable(mtu, nals)
  {
  }

  lemma AggregationShape(nals: seq<Buf>)
    requires nals != [] && forall n <- nals :: |n| >= 2
    ensures var p := Aggregation(nals);
            |p| == 2 + |Aggregated(nals)| && p[2..] == Aggregated(nals) && NalType(p[0]) == AGGREGATION
  {
    hide Aggregated, MinLayer, MinTid;
  }

  lemma SplitWhole(nals: seq<Buf>)
    requires forall n <- nals :: |n| < 0x1_00_00
    ensures SplitAggregation(Aggregated(nals)) == nals
  {
    SplitAggregated(nals, []);
    assert Aggregated(nals) + [] == Aggregated(nals) && SplitAggregation([]) == [];
  }

  lemma AggregationReceived(mtu: nat, rx: Receiver, nals: seq<Buf>)
    requires Buffered(mtu, nals) && |nals| >= 2 && mtu < 0x1_00_00
    ensures (forall n <- nals :: |n| >= 2)
    ensures Receive(rx, Aggregation(nals)) == Receiver(rx.nals + nals, None) && Fits(mtu, Aggregation(nals))
  {
    hide Aggregated, AggregatedSize, SplitAggregation, Aggregation, NalType;
    AggregationShape(nals);
    AggregatedLength(nals);
    SplitWhole(nals);
  }

  lemma {:induction false} AggregatedLength(nals: seq<Buf>)
    ensures |Aggregated(nals)| == AggregatedSize(nals)
  {
    if nals != [] {
      AggregatedLength(nals[..|nals| - 1]);
    }
  }

  lemma FlushReceived(mtu: nat, buffered: seq<Buf>, before: seq<Buf>, done: seq<Buf>)
    requires Buffered(mtu, buffered) && mtu < 0x1_00_00 && ReceiveAll(before) == Receiver(done, None)
    ensures (forall n <- buffered :: |n| >= 2)
    ensures ReceiveAll(before + Flushed(buffered)) == Receiver(done + buffered, None) && AllFit(mtu, Flushed(buffered))
  {
    BufferedIsPayable(mtu, buffered);
    hide ReceiveAll, Aggregation, Receive;
    if buffered == [] {
      assert before + [] == before && done + [] == done;
    } else if |buffered| == 1 {
      assert buffered == [buffered[0]];
      ReceiveNext(before, buffered[0]);
      SingleReceived(mtu, Receiver(done, None), buffered[0]);
    } else {
      ReceiveNext(before, Aggregation(buffered));
      AggregationReceived(mtu, Receiver(done, None), buffered);
    }
  }

  lemma SingleReceived(mtu: nat, rx: Receiver, nal: Buf)
    requires Plain(nal) && |nal| <= mtu
    ensures Receive(rx, nal) == Receiver(rx.nals + [nal], None) && Fits(mtu, nal)
  {
  }

  lemma FragmentedReceived(mtu: nat, nal: Buf, before: seq<Buf>, done: seq<Buf>)
    requires 4 <= mtu < |nal| && Plain(nal) && ReceiveAll(before) == Receiver(done, None)
    ensures var packets := FragmentPackets(nal[0], nal[1], Cut(mtu - 3, nal[2..]), true);
            ReceiveAll(before + packets) == Receiver(done + [nal], None) && AllFit(mtu, packets)
  {
    UnitReceived(mtu, nal, before, done);
  }

  lemma BufferedNext(mtu: nat, nals: seq<Buf>, n: Buf)
    requires Buffered(mtu, nals) && Plain(n) && |n| <= mtu
    requires nals != [] ==> AggregatedSize(nals) + |n| + 2 <= mtu
    ensures Buffered(mtu, nals + [n])
  {
    AggregatedNext(nals, n);
  }

  lemma AllFitAppend(mtu: nat, a: seq<Buf>, b: seq<Buf>)
    requires AllFit(mtu, a) && AllFit(mtu, b)
    ensures AllFit(mtu, a + b)
  {
    hide Fits;
  }

  /** A unit that fits joins the buffer, perhaps after a flush. */
  lemma OfferJoins(mtu: nat, buffered: seq<Buf>, nal: Buf, before: seq<Buf>, done: seq<Buf>) returns (done': seq<Buf>)
    requires mtu < 0x1_00_00 && Buffered(mtu, buffered) && Plain(nal) && |nal| <= mtu
    requires ReceiveAll(before) == Receiver(done, None)
    ensures AllPayable(mtu, buffered)
    ensures var step := Offered(mtu, false, buffered, nal);
            && Buffered(mtu, step.0) && AllFit(mtu, step.1)
            && ReceiveAll(before + step.1) == Receiver(done', None) && done' + step.0 == done + buffered + [nal]
  {
    hide ReceiveAll, Fits, Flushed, Plain, AggregatedSize;
    BufferedIsPayable(mtu, buffered);
    NothingBuffered(mtu);
    if AggregatedSize(buffered) + |nal| + 2 > mtu {
      FlushReceived(mtu, buffered, before, done);
      BufferedNext(mtu, [], nal);
      assert [] + [nal] == [nal];
      done' := done + buffered;
    } else {
      BufferedNext(mtu, buffered, nal);
      assert before + [] == before;
      done' := done;
      assert done + (buffered + [nal]) == done + buffered + [nal];
    }
  }

  lemma OfferFlushes(mtu: nat, buffered: seq<Buf>, nal: Buf, before: seq<Buf>, done: seq<Buf>)
    requires mtu < 0x1_00_00 && Buffered(mtu, buffered) && Plain(nal) && |nal| <= mtu
    requires ReceiveAll(before) == Receiver(done, None)
    ensures AllPayable(mtu, buffered)
    ensures var step := Offered(mtu, true, buffered, nal);
            && step.0 == [] && AllFit(mtu, step.1)
            && ReceiveAll(before + step.1) == Receiver(done + buffered + [nal], None)
  {
    hide ReceiveAll, Fits, Flushed, Plain, AggregatedSize, Buffered;
    BufferedIsPayable(mtu, buffered);
    var done' := OfferJoins(mtu, buffered, nal, before, done);
    var step := Offered(mtu, false, buffered, nal);
    FlushReceived(mtu, step.0, before + step.1, done');
    assert (before + step.1) + Flushed(step.0) == before + (step.1 + Flushed(step.0));
    AllFitAppend(mtu, step.1, Flushed(step.0));
  }

  lemma OfferFragments(mtu: nat, skipAggregation: bool, buffered: seq<Buf>, nal: Buf, before: seq<Buf>, done: seq<Buf>)
    requires 4 <= mtu < 0x1_00_00 && Buffered(mtu, buffered) && Plain(nal) && |nal| > mtu
    requires ReceiveAll(before) == Receiver(done, None)
    ensures AllPayable(mtu, buffered)
    ensures var step := Offered(mtu, skipAggregation, buffered, nal);
            && step.0 == [] && AllFit(mtu, step.1)
            && ReceiveAll(before + step.1) == Receiver(done + buffered + [nal], None)
  {
    hide ReceiveAll, Fits, Flushed, FragmentPackets, Cut, Plain, AggregatedSize, Buffered;
    BufferedIsPayable(mtu, buffered);
    FlushReceived(mtu, buffered, before, done);
    var packets := FragmentPackets(nal[0], nal[1], Cut(mtu - 3, nal[2..]), true);
    FragmentedReceived(mtu, nal, before + Flushed(buffered), done + buffered);
    assert (before + Flushed(buffered)) + packets == before + (Flushed(buffered) + packets);
    AllFitAppend(mtu, Flushed(buffered), packets);
  }

  lemma OfferDrops(mtu: nat, skipAggregation: bool, buffered: seq<Buf>, nal: Buf)
    requires mtu <= 3 && AllPayable(mtu, buffered) && Payable(mtu, nal) && |nal| > mtu
    ensures Offered(mtu, skipAggregation, buffered, nal) == (buffered, [])
  {
  }

  /** What one unit adds at the receiver and to the buffer. */
  lemma OfferReceived(mtu: nat, skipAggregation: bool, buffered: seq<Buf>, nal: Buf, before: seq<Buf>, done: seq<Buf>)
    returns (done': seq<Buf>)
    requires mtu < 0x1_00_00 && Buffered(mtu, buffered) && Plain(nal) && Payable(mtu, nal)
    requires ReceiveAll(before) == Receiver(done, None)
    ensures AllPayable(mtu, buffered)
    ensures var step := Offered(mtu, skipAggregation, buffered, nal);
            && Buffered(mtu, step.0) && AllFit(mtu, step.1)
            && ReceiveAll(before + step.1) == Receiver(done', None)
            && done' + step.0 == done + buffered + Kept(mtu, [nal])
  {
    hide ReceiveAll, Offered, Fits, Plain, Payable, Buffered, Kept;
    BufferedIsPayable(mtu, buffered);
    KeptOne(mtu, nal);
    NothingBuffered(mtu);
    if |nal| <= mtu && !skipAggregation {
      done' := OfferJoins(mtu, buffered, nal, before, done);
    } else if |nal| <= mtu {
      OfferFlushes(mtu, buffered, nal, before, done);
      done' := done + buffered + [nal];
      assert done' + [] == done';
    } else if mtu <= 3 {
      OfferDrops(mtu, skipAggregation, buffered, nal);
      assert before + [] == before;
      done' := done;
      assert done + buffered == done + buffered + [];
    } else {
      OfferFragments(mtu, skipAggregation, buffered, nal, before, done);
      done' := done + buffered + [nal];
      assert done' + [] == done';
    }
  }

  lemma KeptOne(mtu: nat, nal: Buf)
    ensures Kept(mtu, [nal]) == if |nal| <= mtu || mtu >= 4 then [nal] else []
  {
    assert Kept(mtu, [nal][1..]) == [];
  }

  lemma {:induction false} SentReceived(mtu: nat, skipAggregation: bool, buffered: seq<Buf>, nals: seq<Buf>,
                                        before: seq<Buf>, done: seq<Buf>)
    requires mtu < 0x1_00_00 && Buffered(mtu, buffered) && AllPayable(mtu, nals) && forall n <- nals :: Plain(n)
    requires ReceiveAll(before) == Receiver(done, None)
    ensures AllPayable(mtu, buffered)
    ensures var sent := Sent(mtu, skipAggregation, buffered, nals);
            && ReceiveAll(before + sent) == Receiver(done + buffered + Kept(mtu, nals), None)
            && AllFit(mtu, sent)
    decreases |nals|
  {
    hide ReceiveAll, Fits, Offered, Plain, Payable, Buffered;
    BufferedIsPayable(mtu, buffered);
    if nals == [] {
      FlushReceived(mtu, buffered, before, done);
      assert done + buffered + [] == done + buffered;
    } else {
      var nal, rest := nals[0], nals[1..];
      var done' := OfferReceived(mtu, skipAggregation, buffered, nal, before, done);
      var step := Offered(mtu, skipAggregation, buffered, nal);
      SentReceived(mtu, skipAggregation, step.0, rest, before + step.1, done');
      var more := Sent(mtu, skipAggregation, step.0, rest);
      assert (before + step.1) + more == before + (step.1 + more);
      AllFitAppend(mtu, step.1, more);
      KeptFirst(mtu, nals);
      assert (done + buffered + Kept(mtu, [nal])) + Kept(mtu, rest) == done + buffered + Kept(mtu, nals);
    }
  }

  lemma KeptFirst(mtu: nat, nals: seq<Buf>)
    requires nals != []
    ensures Kept(mtu, nals) == Kept(mtu, [nals[0]]) + Kept(mtu, nals[1..])
  {
    KeptOne(mtu, nals[0]);
  }

  lemma {:induction false} KeptIff(mtu: nat, nals: seq<Buf>)
    ensures |Kept(mtu, nals)| <= |nals|
    ensures mtu >= 4 || (forall n <- nals :: |n| <= mtu) <==> Kept(mtu, nals) == nals
  {
    if nals != [] {
      KeptIff(mtu, nals[1..]);
    }
  }

  /**
   * For units of at least 2 bytes and type below 48, whatever the mtu: packets fit, no fragment has both the
   * start and the end bit, and the receiver recovers the non-empty units in order, all of them exactly if the
   * mtu is at least 4 or no unit exceeds it.
   */
  lemma PayloadReceivedIff(mtu: nat, nals: seq<Buf>, skipAggregation: bool)
    requires mtu < 0x1_00_00 && AllPlain(nals) && AllPayable(mtu, NonEmpty(nals))
    ensures AllPayable(mtu, [])
    ensures var sent := Sent(mtu, skipAggregation, [], NonEmpty(nals));
            && AllFit(mtu, sent)
            && ReceiveAll(sent) == Receiver(Kept(mtu, NonEmpty(nals)), None)
            && (ReceiveAll(sent).nals == NonEmpty(nals) <==> mtu >= 4 || forall n <- NonEmpty(nals) :: |n| <= mtu)
  {
    NothingBuffered(mtu);
    assert ReceiveAll([]) == Receiver([], None);
    hide ReceiveAll, Fits, Plain, Payable, Sent;
    SentReceived(mtu, skipAggregation, [], NonEmpty(nals), [], []);
    KeptIff(mtu, NonEmpty(nals));
    var sent := Sent(mtu, skipAggregation, [], NonEmpty(nals));
    assert [] + sent == sent && [] + [] + Kept(mtu, NonEmpty(nals)) == Kept(mtu, NonEmpty(nals));
  }

  // ---------------------------------------------------------------- with aggregation

  lemma {:induction false} SizeOfMore(a: seq<Buf>, b: seq<Buf>)
    ensures AggregatedSize(a + b) >= AggregatedSize(a)
    decreases |b|
  {
    if b == [] {
      assert a + b == a;
    } else {
      var init, last := b[..|b| - 1], b[|b| - 1];
      assert a + b == (a + init) + [last];
      AggregatedNext(a + init, last);
      SizeOfMore(a, init);
    }
  }

  lemma {:induction false} SentBehind(mtu: nat, buffered: seq<Buf>, nals: seq<Buf>)
    requires AllPayable(mtu, buffered) && AllPayable(mtu, nals) && AggregatedSize(buffered + nals) <= mtu
    ensures AllPayable(mtu, buffered + nals)
    ensures Sent(mtu, false, buffered, nals) == Flushed(buffered + nals)
    decreases |nals|
  {
    hide Flushed, Payable, AggregatedSize;
    if nals == [] {
      assert buffered + nals == buffered;
    } else {
      var rest := nals[1..];
      assert buffered + nals == (buffered + [nals[0]]) + rest;
      SizeOfMore(buffered + [nals[0]], rest);
      AggregatedNext(buffered, nals[0]);
      SentBehind(mtu, buffered + [nals[0]], rest);
      var step := Offered(mtu, false, buffered, nals[0]);
      assert step.1 + Sent(mtu, false, step.0, rest) == Sent(mtu, false, step.0, rest);
    }
  }

  /** Units that fit one packet together are sent in one packet. */
  lemma FittingUnitsShareAPacket(mtu: nat, nals: seq<Buf>)
    requires AllPayable(mtu, nals) && |nals| >= 2 && AggregatedSize(nals) <= mtu
    ensures AllPayable(mtu, []) && (forall n <- nals :: |n| >= 2)
    ensures Sent(mtu, false, [], nals) == [Aggregation(nals)]
  {
    NothingBuffered(mtu);
    TwoBytes(mtu, nals);
    hide Aggregation, AggregatedSize, Sent;
    assert [] + nals == nals;
    SentBehind(mtu, [], nals);
  }

  // ---------------------------------------------------------------- without aggregation

  /** The packets sent for a list of units when nothing is aggregated. */
  function Unaggregated(mtu: nat, nals: seq<Buf>): seq<Buf>
    requires mtu >= 4 && AllPlain(nals)
  {
    AllPackets(UnitsFor(mtu, NonEmpty(nals)))
  }

  lemma AllPacketsLast(us: seq<Unit>)
    requires us != [] && forall u <- us :: u.Valid()
    ensures AllPackets(us) == AllPackets(us[..|us| - 1]) + us[|us| - 1].Packets()
  {
  }

  lemma {:induction false} AllPacketsCons(us: seq<Unit>)
    requires us != [] && forall u <- us :: u.Valid()
    ensures AllPackets(us) == us[0].Packets() + AllPackets(us[1..])
  {
    hide Unit.Packets, Unit.Valid;
    if |us| == 1 {
      NoPackets();
      AllPacketsLast(us);
      assert us[..0] == [] && us[1..] == [];
    } else {
      hide AllPackets;
      var init, last := us[..|us| - 1], us[|us| - 1];
      AllPacketsLast(us);
      AllPacketsLast(us[1..]);
      AllPacketsCons(init);
      assert init[1..] == us[1..][..|us| - 2];
    }
  }

  lemma OfferSkips(mtu: nat, nal: Buf)
    requires mtu >= 4 && Plain(nal)
    ensures Payable(mtu, nal) && AllPayable(mtu, [])
    ensures Offered(mtu, true, [], nal) == ([], UnitFor(mtu, nal).Packets())
  {
    NothingBuffered(mtu);
    hide FragmentPackets, Cut;
    assert [] + [nal] == [nal];
    var packets := UnitFor(mtu, nal).Packets();
    assert [] + packets == packets;
  }

  lemma {:induction false} SentUnaggregated(mtu: nat, nals: seq<Buf>)
    requires mtu >= 4 && forall n <- nals :: Plain(n)
    ensures AllPayable(mtu, nals) && AllPayable(mtu, [])
    ensures Sent(mtu, true, [], nals) == AllPackets(UnitsFor(mtu, nals))
    decreases |nals|
  {
    hide Offered, UnitFor, AllPackets;
    if nals == [] {
      NothingSent(mtu, true);
      NoPackets();
    } else {
      OfferSkips(mtu, nals[0]);
      SentUnaggregated(mtu, nals[1..]);
      AllPacketsCons(UnitsFor(mtu, nals));
    }
  }

  lemma NoPackets()
    ensures AllPackets([]) == []
  {
  }

  /** With aggregation off the packets are those of one unit after another. */
  lemma PayloadUnaggregated(mtu: nat, nals: seq<Buf>)
    requires mtu >= 4 && AllPlain(nals)
    ensures AllPayable(mtu, NonEmpty(nals)) && AllPayable(mtu, [])
    ensures Sent(mtu, true, [], NonEmpty(nals)) == Unaggregated(mtu, nals)
  {
    SentUnaggregated(mtu, NonEmpty(nals));
  }
}
