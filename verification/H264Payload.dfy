/**
 * H.264 payloading (Payload in pkg/h264/payloader.go) over a run of calls: parameter sets wait in stapANalu
 * for the next other unit and go out as one STAP-A, if it fits the mtu. Proved against a receiver written
 * from sections 5.6, 5.7.1 and 5.8 of RFC 6184.
 */
module H264Payload {
  import opened Wrappers
  import opened Bytes
  import opened Avcc
  import opened AnnexB
  import opened Packing

  const STAPA := 24
  const FUA := 28
  const AUD := 9
  const FILLER := 12
  const STAPA_HEADER: Byte := 0x78

  function NalType(b: Byte): (r: nat)
    ensures r < 32
  {
    b % 32
  }

  // ---------------------------------------------------------------- receiver (RFC 6184)

  /** Units delivered so far and the fragmented unit being put back together. */
  datatype Receiver = Receiver(nals: seq<Buf>, partial: Option<Buf>)

  predicate StartBit(p: Buf)
    requires |p| >= 2
  {
    p[1] / 128 == 1
  }

  predicate EndBit(p: Buf)
    requires |p| >= 2
  {
    p[1] / 64 % 2 == 1
  }

  /** Section 5.8: F and NRI of the FU indicator, type of the FU header. */
  function RestoredHeader(p: Buf): Byte
    requires |p| >= 2
  {
    p[0] / 32 * 32 + p[1] % 32
  }

  function Receive(rx: Receiver, p: Buf): Receiver {
    if p == [] then rx
    else if NalType(p[0]) == STAPA then Receiver(rx.nals + SplitAggregation(p[1..]), None)
    else if NalType(p[0]) == FUA then
      if |p| < 2 then rx
      else
        var whole := if StartBit(p) then Some([RestoredHeader(p)] + p[2..])
                     else if rx.partial.Some? then Some(rx.partial.value + p[2..]) else None;
        if EndBit(p) && whole.Some? then Receiver(rx.nals + [whole.value], None) else Receiver(rx.nals, whole)
    else Receiver(rx.nals + [p], None)
  }

  function ReceiveFrom(rx: Receiver, packets: seq<Buf>): Receiver
    decreases |packets|
  {
    if packets == [] then rx else ReceiveFrom(Receive(rx, packets[0]), packets[1..])
  }

  lemma {:induction false} ReceiveAppend(rx: Receiver, a: seq<Buf>, b: seq<Buf>)
    ensures ReceiveFrom(rx, a + b) == ReceiveFrom(ReceiveFrom(rx, a), b)
    decreases |a|
  {
    hide Receive;
    if a == [] {
      assert a + b == b;
    } else {
      assert (a + b)[1..] == a[1..] + b;
      ReceiveAppend(Receive(rx, a[0]), a[1..], b);
    }
  }

  lemma ReceiveOne(rx: Receiver, p: Buf)
    ensures ReceiveFrom(rx, [p]) == Receive(rx, p)
  {
    hide Receive;
    assert ReceiveFrom(Receive(rx, p), []) == Receive(rx, p);
  }

  // ---------------------------------------------------------------- what Payload does with one unit

  predicate Skipped(nal: Buf) {
    nal == [] || NalType(nal[0]) in {AUD, FILLER}
  }

  predicate IsParameter(nal: Buf) {
    nal != [] && NalType(nal[0]) in {SPS, PPS}
  }

  function Fragment(hi: Byte, start: bool, end: bool, part: Buf): Buf {
    [FUA + hi / 32 % 4 * 32, NalType(hi) + (if start then 128 else 0) + (if end then 64 else 0)] + part
  }

  /** The packets of one fragmented unit whose payload was cut into `parts`. */
  function FragmentPackets(hi: Byte, parts: seq<Buf>, start: bool): seq<Buf> {
    if parts == [] then []
    else [Fragment(hi, start, !start && |parts| == 1, parts[0])] + FragmentPackets(hi, parts[1..], false)
  }

  function UnitPackets(mtu: nat, nal: Buf): seq<Buf>
    requires nal != []
  {
    if |nal| <= mtu then [nal] else if mtu <= 2 then [] else FragmentPackets(nal[0], Cut(mtu - 2, nal[1..]), true)
  }

  function FlushPackets(mtu: nat, held: Option<Buf>): seq<Buf> {
    if held.Some? && |held.value| <= mtu then [held.value] else []
  }

  /** What stapANalu becomes, and what is sent. */
  function Offer(mtu: nat, held: Option<Buf>, nal: Buf): (Option<Buf>, seq<Buf>) {
    if Skipped(nal) then (held, [])
    else if IsParameter(nal) then
      (Some((if held.None? then [STAPA_HEADER] else held.value) + U16Bytes(|nal|) + nal), [])
    else (None, FlushPackets(mtu, held) + UnitPackets(mtu, nal))
  }

  /** One unit handed to a call with that mtu; a run of calls is a list of these. */
  datatype Event = Event(mtu: nat, nal: Buf)

  function Tagged(mtu: nat, nals: seq<Buf>): (r: seq<Event>)
    ensures |r| == |nals| && forall k: nat :: k < |r| ==> r[k] == Event(mtu, nals[k])
  {
    if nals == [] then [] else [Event(mtu, nals[0])] + Tagged(mtu, nals[1..])
  }

  function Run(held: Option<Buf>, events: seq<Event>): (Option<Buf>, seq<Buf>)
    decreases |events|
  {
    if events == [] then (held, [])
    else
      var step := Offer(events[0].mtu, held, events[0].nal);
      var rest := Run(step.0, events[1..]);
      (rest.0, step.1 + rest.1)
  }

  /** Calls compose: the next one starts from the stapANalu the last one left. */
  lemma {:induction false} RunAppend(held: Option<Buf>, a: seq<Event>, b: seq<Event>)
    ensures var first := Run(held, a);
            var second := Run(first.0, b);
            Run(held, a + b) == (second.0, first.1 + second.1)
    decreases |a|
  {
    hide Offer;
    if a == [] {
      assert a + b == b;
      var second := Run(held, b);
      assert [] + second.1 == second.1;
    } else {
      assert (a + b)[1..] == a[1..] + b && (a + b)[0] == a[0];
      var step := Offer(a[0].mtu, held, a[0].nal);
      RunAppend(step.0, a[1..], b);
      var rest := Run(step.0, a[1..]);
      var second := Run(rest.0, b);
      assert step.1 + (rest.1 + second.1) == (step.1 + rest.1) + second.1;
    }
  }

  lemma RunNext(held: Option<Buf>, events: seq<Event>, i: nat, sent: seq<Buf>)
    requires i < |events|
    ensures var step := Offer(events[i].mtu, held, events[i].nal);
            var rest := Run(step.0, events[i + 1..]);
            && Run(held, events[i..]).0 == rest.0
            && sent + Run(held, events[i..]).1 == (sent + step.1) + rest.1
  {
    hide Offer;
    assert events[i..][1..] == events[i + 1..];
  }

  // ---------------------------------------------------------------- the class

  function Emit(payload: Buf, isAVC: bool): seq<Buf> {
    if payload == [] then [] else if isAVC then Split(payload) else Emitted(payload)
  }

  class Payloader {
    var isAVC: bool
    var stapANalu: Option<Buf>

    constructor (isAVC: bool)
      ensures this.isAVC == isAVC && stapANalu == None
    {
      this.isAVC := isAVC;
      stapANalu := None;
    }

    method Payload(mtu: nat, payload: Buf) returns (payloads: seq<Buf>)
      requires mtu < 0x1_00_00
      modifies this
      ensures isAVC == old(isAVC)
      ensures (stapANalu, payloads) == Run(old(stapANalu), Tagged(mtu, Emit(payload, isAVC)))
    {
      hide Offer, Split, Emitted;
      payloads := [];
      if |payload| == 0 {
        return;
      }
      var nals := EmitNalus(payload, isAVC);
      ghost var events := Tagged(mtu, nals);
      ghost var total := Run(stapANalu, events);
      assert events[0..] == events && [] + total.1 == total.1;
      for i := 0 to |nals|
        invariant isAVC == old(isAVC)
        invariant var rest := Run(stapANalu, events[i..]);
                  rest.0 == total.0 && payloads + rest.1 == total.1
      {
        RunNext(stapANalu, events, i, payloads);
        var packets := OfferNalu(mtu, nals[i]);
        payloads := payloads + packets;
      }
      assert events[|nals|..] == [];
      assert Run(stapANalu, []) == (stapANalu, []) && payloads + [] == payloads;
    }

    method OfferNalu(mtu: nat, nalu: Buf) returns (payloads: seq<Buf>)
      requires mtu < 0x1_00_00
      modifies this
      ensures isAVC == old(isAVC)
      ensures (stapANalu, payloads) == Offer(mtu, old(stapANalu), nalu)
    {
      payloads := [];
      if |nalu| == 0 {
        return;
      }
      var naluType := nalu[0] % 32;
      if naluType == AUD || naluType == FILLER {
        return;
      }
      if naluType == SPS || naluType == PPS {
        if stapANalu == None {
          stapANalu := Some([STAPA_HEADER]);
        }
        stapANalu := Some(stapANalu.value + [|nalu| / 256 % 256, |nalu| % 256]);
        stapANalu := Some(stapANalu.value + nalu);
        return;
      }
      if stapANalu != None {
        if |stapANalu.value| <= mtu {
          payloads := payloads + [stapANalu.value];
        }
        stapANalu := None;
      }
      assert payloads == FlushPackets(mtu, old(stapANalu));
      if |nalu| <= mtu {
        payloads := payloads + [nalu];
        return;
      }
      var packets := Fragments(mtu, nalu);
      payloads := payloads + packets;
    }
  }

  function Min(a: int, b: int): int {
    if a < b then a else b
  }

  lemma FirstFragment(hi: Byte, max: nat, rest: Buf, start: bool, size: nat)
    requires 0 < max && rest != [] && (start ==> |rest| > max)
    requires size == if |rest| > max then max else |rest|
    ensures FragmentPackets(hi, Cut(max, rest), start) ==
            [Fragment(hi, start, !start && |rest| - size == 0, rest[..size])]
            + FragmentPackets(hi, Cut(max, rest[size..]), false)
  {
    hide Fragment;
    var parts := Cut(max, rest);
    if |rest| <= max {
      assert parts == [rest] && rest[..size] == rest && rest[size..] == [];
    } else {
      assert parts[0] == rest[..max] && parts[1..] == Cut(max, rest[max..]);
    }
  }

  /** The packets still to be sent from `index` on: one turn of the loop takes off the first. */
  lemma NextFragment(hi: Byte, max: nat, nalu: Buf, index: nat, start: bool, size: nat, sent: seq<Buf>)
    requires 0 < max && index < |nalu| && (start ==> |nalu| - index > max)
    requires size == if |nalu| - index > max then max else |nalu| - index
    ensures sent + FragmentPackets(hi, Cut(max, nalu[index..]), start) ==
            sent + [Fragment(hi, start, !start && |nalu| - index - size == 0, nalu[index..index + size])]
            + FragmentPackets(hi, Cut(max, nalu[index + size..]), false)
  {
    hide Fragment, FragmentPackets, Cut;
    var rest := nalu[index..];
    FirstFragment(hi, max, rest, start, size);
    assert nalu[index + size..] == rest[size..] && nalu[index..index + size] == rest[..size];
  }

  lemma NothingLeft(hi: Byte, max: nat)
    requires max > 0
    ensures FragmentPackets(hi, Cut(max, []), false) == []
  {
  }

  method Fragments(mtu: nat, nalu: Buf) returns (payloads: seq<Buf>)
    requires mtu < |nalu|
    ensures payloads == UnitPackets(mtu, nalu)
  {
    hide Fragment, Cut, FragmentPackets;
    payloads := [];
    var maxFragmentSize := mtu - 2;
    var naluDataIndex := 1;
    var naluDataLength := |nalu| - naluDataIndex;
    var naluDataRemaining := naluDataLength;
    if Min(maxFragmentSize, naluDataRemaining) <= 0 {
      return;
    }
    var hi := nalu[0];
    while naluDataRemaining > 0
      invariant naluDataIndex + naluDataRemaining == |nalu| && 1 <= naluDataIndex && 0 <= naluDataRemaining
      invariant payloads + FragmentPackets(hi, Cut(maxFragmentSize, nalu[naluDataIndex..]),
                  naluDataRemaining == naluDataLength) == UnitPackets(mtu, nalu)
    {
      var currentFragmentSize := Min(maxFragmentSize, naluDataRemaining);
      var start := naluDataRemaining == naluDataLength;
      var end := !start && naluDataRemaining - currentFragmentSize == 0;
      var out := Fragment(hi, start, end, nalu[naluDataIndex..naluDataIndex + currentFragmentSize]);
      NextFragment(hi, maxFragmentSize, nalu, naluDataIndex, start, currentFragmentSize, payloads);
      payloads := payloads + [out];
      naluDataRemaining := naluDataRemaining - currentFragmentSize;
      naluDataIndex := naluDataIndex + currentFragmentSize;
    }
    assert nalu[naluDataIndex..] == [];
    NothingLeft(hi, maxFragmentSize);
  }

  // ---------------------------------------------------------------- fragments

  /** Forbidden bit clear, type 1 to 23. */
  predicate Plain(nal: Buf) {
    nal != [] && nal[0] < 128 && 1 <= NalType(nal[0]) < 24
  }

  lemma FragmentBits(hi: Byte, start: bool, end: bool)
    requires hi < 128
    ensures var a, b := FUA + hi / 32 % 4 * 32, NalType(hi) + (if start then 128 else 0) + (if end then 64 else 0);
            && a < 256 && b < 256 && a % 32 == FUA && a / 32 * 32 + b % 32 == hi
            && (b / 128 == 1 <==> start) && (b / 64 % 2 == 1 <==> end)
  {
    assert hi == hi / 32 * 32 + hi % 32 && hi / 32 < 4;
  }

  lemma FragmentFields(hi: Byte, start: bool, end: bool, part: Buf)
    requires hi < 128
    ensures var p := Fragment(hi, start, end, part);
            && |p| == 2 + |part| && p[2..] == part && NalType(p[0]) == FUA
            && (StartBit(p) <==> start) && (EndBit(p) <==> end) && RestoredHeader(p) == hi
  {
    FragmentBits(hi, start, end);
  }

  lemma ReceiveFragment(rx: Receiver, hi: Byte, start: bool, end: bool, part: Buf)
    requires hi < 128 && !(start && end) && (start || rx.partial.Some?)
    ensures var whole := (if start then [hi] else rx.partial.value) + part;
            Receive(rx, Fragment(hi, start, end, part)) ==
            if end then Receiver(rx.nals + [whole], None) else Receiver(rx.nals, Some(whole))
  {
    FragmentFields(hi, start, end, part);
  }

  /** The receiver puts the fragments back together, whatever the cut. */
  lemma {:induction false} ReceiveFragments(done: seq<Buf>, hi: Byte, sent: Buf, parts: seq<Buf>, start: bool)
    requires hi < 128 && parts != [] && (start ==> |parts| >= 2 && sent == [hi])
    ensures ReceiveFrom(Receiver(done, if start then None else Some(sent)), FragmentPackets(hi, parts, start)) ==
            Receiver(done + [sent + Concat(parts)], None)
    decreases |parts|
  {
    hide Fragment, Receive;
    var end := !start && |parts| == 1;
    var rx := Receiver(done, if start then None else Some(sent));
    ReceiveFragment(rx, hi, start, end, parts[0]);
    if end {
      assert FragmentPackets(hi, parts, start) == [Fragment(hi, start, end, parts[0])];
      ReceiveOne(rx, Fragment(hi, start, end, parts[0]));
      assert sent + Concat(parts) == sent + parts[0];
    } else {
      ReceiveFragments(done, hi, sent + parts[0], parts[1..], false);
      assert (sent + parts[0]) + Concat(parts[1..]) == sent + Concat(parts);
    }
  }

  /** Packets fit the mtu, carry a type a receiver knows, and no FU-A has both the start and the end bit. */
  predicate Fits(mtu: nat, p: Buf) {
    && 1 <= |p| <= mtu && 1 <= NalType(p[0]) <= FUA
    && (NalType(p[0]) == FUA ==> |p| >= 3 && !(StartBit(p) && EndBit(p)))
  }

  predicate AllFit(mtu: nat, packets: seq<Buf>) {
    forall p <- packets :: Fits(mtu, p)
  }

  lemma {:induction false} FragmentsFit(mtu: nat, hi: Byte, parts: seq<Buf>, start: bool)
    requires hi < 128 && forall p <- parts :: p != [] && |p| + 2 <= mtu
    ensures AllFit(mtu, FragmentPackets(hi, parts, start))
    decreases |parts|
  {
    if parts != [] {
      assert parts[0] in parts;
      FragmentFields(hi, start, !start && |parts| == 1, parts[0]);
      FragmentsFit(mtu, hi, parts[1..], false);
    }
  }

  /** Single packet or fragments: the receiver gains the unit. */
  lemma UnitReceived(mtu: nat, nal: Buf, done: seq<Buf>)
    requires mtu >= 3 && Plain(nal)
    ensures ReceiveFrom(Receiver(done, None), UnitPackets(mtu, nal)) == Receiver(done + [nal], None)
    ensures AllFit(mtu, UnitPackets(mtu, nal))
  {
    hide FragmentPackets, Fragment;
    if |nal| <= mtu {
      ReceiveOne(Receiver(done, None), nal);
    } else {
      var parts := Cut(mtu - 2, nal[1..]);
      assert [nal[0]] + nal[1..] == nal;
      ReceiveFragments(done, nal[0], [nal[0]], parts, true);
      FragmentsFit(mtu, nal[0], parts, true);
    }
  }

  // ---------------------------------------------------------------- parameter sets

  /** stapANalu, seen as the parameter sets it holds. */
  function HeldOf(group: seq<Buf>): Option<Buf> {
    if group == [] then None else Some([STAPA_HEADER] + Aggregated(group))
  }

  function StapSize(group: seq<Buf>): nat {
    if group == [] then 0 else 1 + AggregatedSize(group)
  }

  lemma {:induction false} HeldSize(group: seq<Buf>)
    ensures |Aggregated(group)| == AggregatedSize(group)
    ensures forall n <- group :: |n| + 2 <= AggregatedSize(group)
    decreases |group|
  {
    if group != [] {
      HeldSize(group[..|group| - 1]);
    }
  }

  lemma HeldNext(group: seq<Buf>, nal: Buf)
    ensures HeldOf(group + [nal]) ==
            Some((if HeldOf(group).None? then [STAPA_HEADER] else HeldOf(group).value) + U16Bytes(|nal|) + nal)
  {
    hide U16Bytes;
    var start, body, size := [STAPA_HEADER], Aggregated(group), U16Bytes(|nal|);
    assert (group + [nal])[..|group|] == group;
    assert Aggregated(group + [nal]) == body + size + nal;
    Assoc(start, body + size, nal);
    Assoc(start, body, size);
    if group == [] {
      assert start + body == start;
    }
  }

  lemma ReceiveStap(rx: Receiver, body: Buf)
    ensures Receive(rx, [STAPA_HEADER] + body) == Receiver(rx.nals + SplitAggregation(body), None)
  {
    hide SplitAggregation;
    var p := [STAPA_HEADER] + body;
    assert p[1..] == body && NalType(p[0]) == STAPA;
  }

  lemma SplitGroup(group: seq<Buf>)
    requires forall n <- group :: |n| < 0x1_00_00
    ensures SplitAggregation(Aggregated(group)) == group
  {
    SplitAggregated(group, []);
    assert Aggregated(group) + [] == Aggregated(group) && SplitAggregation([]) == [];
  }

  lemma StapReceived(group: seq<Buf>, done: seq<Buf>)
    requires group != [] && forall n <- group :: |n| < 0x1_00_00
    ensures ReceiveFrom(Receiver(done, None), [HeldOf(group).value]) == Receiver(done + group, None)
  {
    hide SplitAggregation, Aggregated, Receive, ReceiveFrom;
    ReceiveOne(Receiver(done, None), HeldOf(group).value);
    ReceiveStap(Receiver(done, None), Aggregated(group));
    SplitGroup(group);
  }

  /** A group goes out whole when it fits the mtu, and is lost whole when it does not. */
  lemma GroupReceived(mtu: nat, group: seq<Buf>, done: seq<Buf>)
    requires mtu < 0x1_00_00
    ensures ReceiveFrom(Receiver(done, None), FlushPackets(mtu, HeldOf(group))) ==
            Receiver(if StapSize(group) <= mtu then done + group else done, None)
    ensures AllFit(mtu, FlushPackets(mtu, HeldOf(group)))
  {
    HeldSize(group);
    hide Aggregated, AggregatedSize, Receive;
    if group == [] {
      assert done + group == done;
    } else if StapSize(group) <= mtu {
      StapReceived(group, done);
      assert HeldOf(group).value[0] == STAPA_HEADER;
    }
  }

  // ---------------------------------------------------------------- runs

  /** Access unit delimiters, fillers and empty units. */
  predicate Unwanted(nal: Buf) {
    nal == [] || nal[0] % 32 in {9, 12}
  }

  predicate ParameterSet(nal: Buf) {
    nal != [] && nal[0] % 32 in {7, 8}
  }

  lemma KindsAre(nal: Buf)
    ensures (Skipped(nal) <==> Unwanted(nal)) && (IsParameter(nal) <==> ParameterSet(nal))
  {
  }

  /** The units a run delivers and the parameter sets it still holds, with an oversized group lost. */
  function Accept(done: seq<Buf>, group: seq<Buf>, events: seq<Event>): (seq<Buf>, seq<Buf>)
    decreases |events|
  {
    if events == [] then (done, group)
    else
      var e, rest := events[0], events[1..];
      if Unwanted(e.nal) then Accept(done, group, rest)
      else if ParameterSet(e.nal) then Accept(done, group + [e.nal], rest)
      else Accept((if StapSize(group) <= e.mtu then done + group else done) + [e.nal], [], rest)
  }

  /** Everything a run was given, minus access unit delimiters, fillers and empty units. */
  function Wanted(events: seq<Event>): seq<Buf>
    decreases |events|
  {
    if events == [] then [] else (if Unwanted(events[0].nal) then [] else [events[0].nal]) + Wanted(events[1..])
  }

  /** Every group of parameter sets fits the mtu of the call that sends it. */
  predicate GroupsFit(group: seq<Buf>, events: seq<Event>)
    decreases |events|
  {
    events == [] ||
    var e, rest := events[0], events[1..];
    if Unwanted(e.nal) then GroupsFit(group, rest)
    else if ParameterSet(e.nal) then GroupsFit(group + [e.nal], rest)
    else StapSize(group) <= e.mtu && GroupsFit([], rest)
  }

  ghost predicate ValidRun(events: seq<Event>) {
    forall k: nat :: k < |events| ==>
      3 <= events[k].mtu < 0x1_00_00 && (events[k].nal == [] || Plain(events[k].nal))
  }

  /** What one unit adds at the receiver, and to the held group. */
  lemma OfferReceived(mtu: nat, group: seq<Buf>, nal: Buf, done: seq<Buf>)
    requires 3 <= mtu < 0x1_00_00 && (nal == [] || Plain(nal))
    ensures var step := Offer(mtu, HeldOf(group), nal);
            && AllFit(mtu, step.1)
            && (Unwanted(nal) ==> step == (HeldOf(group), []))
            && (!Unwanted(nal) && ParameterSet(nal) ==> step == (HeldOf(group + [nal]), []))
            && (!Unwanted(nal) && !ParameterSet(nal) ==>
                 && step.0 == HeldOf([])
                 && ReceiveFrom(Receiver(done, None), step.1) ==
                    Receiver((if StapSize(group) <= mtu then done + group else done) + [nal], None))
  {
    KindsAre(nal);
    hide HeldOf, FlushPackets, UnitPackets, StapSize, Fits, ReceiveFrom, U16Bytes;
    if Unwanted(nal) {
    } else if ParameterSet(nal) {
      HeldNext(group, nal);
    } else {
      GroupReceived(mtu, group, done);
      UnitReceived(mtu, nal, if StapSize(group) <= mtu then done + group else done);
      ReceiveAppend(Receiver(done, None), FlushPackets(mtu, HeldOf(group)), UnitPackets(mtu, nal));
      NoneHeld();
    }
  }

  lemma NoneHeld()
    ensures HeldOf([]) == None
  {
  }

  /** Over any run the receiver has exactly the units of Accept, and stapANalu is exactly its group. */
  lemma {:induction false} RunReceived(done: seq<Buf>, group: seq<Buf>, events: seq<Event>)
    requires ValidRun(events)
    ensures var run, accepted := Run(HeldOf(group), events), Accept(done, group, events);
            && ReceiveFrom(Receiver(done, None), run.1) == Receiver(accepted.0, None)
            && run.0 == HeldOf(accepted.1)
    decreases |events|
  {
    hide Offer, HeldOf, Unwanted, ParameterSet, Plain, Receive, StapSize;
    if events != [] {
      var e, rest := events[0], events[1..];
      OfferReceived(e.mtu, group, e.nal, done);
      var step := Offer(e.mtu, HeldOf(group), e.nal);
      if Unwanted(e.nal) {
        RunReceived(done, group, rest);
        assert [] + Run(HeldOf(group), rest).1 == Run(HeldOf(group), rest).1;
      } else if ParameterSet(e.nal) {
        RunReceived(done, group + [e.nal], rest);
        assert [] + Run(step.0, rest).1 == Run(step.0, rest).1;
      } else {
        var done' := (if StapSize(group) <= e.mtu then done + group else done) + [e.nal];
        RunReceived(done', [], rest);
        ReceiveAppend(Receiver(done, None), step.1, Run(step.0, rest).1);
      }
    }
  }

  lemma Shift(done: seq<Buf>, group: seq<Buf>, nal: Buf, wanted: seq<Buf>)
    ensures done + (group + [nal]) + wanted == done + group + ([nal] + wanted)
    ensures (done + group + [nal]) + [] + wanted == done + group + ([nal] + wanted)
  {
  }

  lemma {:induction false} AcceptedIffGroupsFit(done: seq<Buf>, group: seq<Buf>, events: seq<Event>)
    ensures var accepted := Accept(done, group, events);
            && |accepted.0 + accepted.1| <= |done| + |group| + |Wanted(events)|
            && (GroupsFit(group, events) ==> accepted.0 + accepted.1 == done + group + Wanted(events))
            && (!GroupsFit(group, events) ==> |accepted.0 + accepted.1| < |done| + |group| + |Wanted(events)|)
    decreases |events|
  {
    hide Unwanted, ParameterSet, StapSize;
    if events == [] {
      assert done + group + [] == done + group;
    } else {
      var e, rest := events[0], events[1..];
      var wanted := Wanted(rest);
      if Unwanted(e.nal) {
        AcceptedIffGroupsFit(done, group, rest);
        assert [] + wanted == wanted;
      } else if ParameterSet(e.nal) {
        AcceptedIffGroupsFit(done, group + [e.nal], rest);
        Shift(done, group, e.nal, wanted);
      } else {
        var done' := (if StapSize(group) <= e.mtu then done + group else done) + [e.nal];
        AcceptedIffGroupsFit(done', [], rest);
        EmptyGroupFits(group, e.mtu);
        Shift(done, group, e.nal, wanted);
      }
    }
  }

  lemma EmptyGroupFits(group: seq<Buf>, mtu: nat)
    ensures StapSize(group) > mtu ==> |group| > 0
  {
  }

  /**
   * A run from a fresh Payloader: the receiver's units followed by those held in stapANalu are all the units
   * given so far but delimiters and fillers, exactly when every group of parameter sets fitted its mtu.
   */
  lemma RunDeliversIffGroupsFit(events: seq<Event>)
    requires ValidRun(events)
    ensures var run, accepted := Run(None, events), Accept([], [], events);
            && ReceiveFrom(Receiver([], None), run.1) == Receiver(accepted.0, None)
            && run.0 == HeldOf(accepted.1)
            && (accepted.0 + accepted.1 == Wanted(events) <==> GroupsFit([], events))
  {
    hide ReceiveFrom, Run, Accept, Wanted, GroupsFit, ValidRun;
    NoneHeld();
    RunReceived([], [], events);
    AcceptedIffGroupsFit([], [], events);
    assert [] + [] + Wanted(events) == Wanted(events);
  }

  lemma FitsMore(mtu: nat, limit: nat, packets: seq<Buf>)
    requires AllFit(mtu, packets) && mtu <= limit
    ensures AllFit(limit, packets)
  {
  }

  /** No packet of a run exceeds the largest mtu asked for. */
  lemma {:induction false} RunFits(limit: nat, group: seq<Buf>, events: seq<Event>)
    requires ValidRun(events) && forall k: nat :: k < |events| ==> events[k].mtu <= limit
    ensures AllFit(limit, Run(HeldOf(group), events).1)
    decreases |events|
  {
    hide Offer, HeldOf, Unwanted, ParameterSet, Plain, Fits, StapSize, ReceiveFrom;
    if events != [] {
      var e, rest := events[0], events[1..];
      OfferReceived(e.mtu, group, e.nal, []);
      FitsMore(e.mtu, limit, Offer(e.mtu, HeldOf(group), e.nal).1);
      RunFits(limit, if Unwanted(e.nal) then group else if ParameterSet(e.nal) then group + [e.nal] else [], rest);
    }
  }
}
