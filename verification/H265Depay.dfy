/**
 * Reassembly of H.265 access units from RTP packets (RTPDepay in pkg/h265/rtp.go), and what it
 * delivers when packets of an unaggregated sender are lost.
 */
module H265Depay {
  import opened Arithmetic
  import opened Wrappers
  import opened Bytes
  import opened Avcc
  import opened H265Payload

  const VPS := 32
  const SPS := 33
  const PPS := 34
  const PREFIX_SEI := 39
  const SUFFIX_SEI := 40
  const PS_MAX_SIZE := 128
  const SEQ := 0x1_00_00

  datatype Packet = Packet(sequenceNumber: nat, marker: bool, data: Buf)

  /** The variables the closure keeps between packets. */
  datatype State = State(buf: Buf, nuStart: nat, seqNum: nat)

  /** Panic is the out-of-range slice a stale `nuStart` can cause. */
  datatype Outcome = Quiet | Deliver(unit: Buf) | Panic

  // ---------------------------------------------------------------- one packet

  predicate IsParameterSet(t: nat) {
    t == VPS || t == SPS || t == PPS
  }

  predicate IsSEI(t: nat) {
    t == PREFIX_SEI || t == SUFFIX_SEI
  }

  predicate IsKey(t: nat) {
    19 <= t <= 21
  }

  function PutSize(buf: Buf, at: nat): Buf
    requires at + 4 <= |buf|
  {
    buf[..at] + U32Bytes(|buf| - at - 4) + buf[at + 4..]
  }

  function Emit(s: State, marker: bool): (State, Outcome) {
    if marker then (s.(buf := []), Deliver(s.buf)) else (s, Quiet)
  }

  function StepFragment(ps: Buf, s: State, p: Packet): (State, Outcome)
    requires |p.data| >= 3
  {
    var data := p.data;
    match data[2] / 64
    case 2 =>
      var head := if s.buf == [] && IsKey(data[2] % 64) then ps else s.buf;
      (State(head + [0, 0, 0, 0] + RestoredHeader(data) + data[3..], |head|, s.seqNum), Quiet)
    case 0 => (if s.buf == [] then s else s.(buf := s.buf + data[3..]), Quiet)
    case 1 =>
      if s.buf == [] then (s, Quiet)
      else
        var buf := s.buf + data[3..];
        if s.nuStart > |buf| + 4 then (s.(buf := []), Quiet)
        else if s.nuStart + 4 > |buf| then (s.(buf := buf), Panic)
        else Emit(s.(buf := PutSize(buf, s.nuStart)), p.marker)
    case _ =>
      Emit(s.(buf := s.buf + U32Bytes(|data| - 1) + RestoredHeader(data) + data[3..]), p.marker)
  }

  function Step(ps: Buf, s: State, p: Packet): (State, Outcome) {
    var data := p.data;
    if |data| < 3 then (s, Quiet)
    else
      var nuType := NalType(data[0]);
      var small := p.marker && |data| < PS_MAX_SIZE;
      if small && IsSEI(nuType) then (s, Quiet)
      else if s.buf != [] && (p.sequenceNumber - s.seqNum) % SEQ != 1 then (s.(buf := []), Quiet)
      else
        var q := p.(marker := p.marker && !(small && IsParameterSet(nuType)));
        var s1 := s.(seqNum := p.sequenceNumber);
        if nuType == FRAGMENT then StepFragment(ps, s1, q)
        else Emit(s1.(buf := s1.buf + U32Bytes(|data|) + data), q.marker)
  }

  class RTPDepay {
    const ps: Buf
    var buf: Buf
    var nuStart: nat
    var seqNum: nat

    constructor (ps: Buf)
      ensures this.ps == ps && Value() == State([], 0, 0)
    {
      this.ps := ps;
      buf, nuStart, seqNum := [], 0, 0;
    }

    function Value(): State
      reads this
    {
      State(buf, nuStart, seqNum)
    }

    method Handle(packet: Packet) returns (out: Outcome)
      modifies this
      ensures (Value(), out) == Step(ps, old(Value()), packet)
    {
      hide U32Bytes;
      var data := packet.data;
      var marker := packet.marker;
      if |data| < 3 {
        return Quiet;
      }
      var nuType := NalType(data[0]);
      if marker && |data| < PS_MAX_SIZE {
        if IsParameterSet(nuType) {
          marker := false;
        } else if IsSEI(nuType) {
          return Quiet;
        }
      }
      if |buf| > 0 && (packet.sequenceNumber - seqNum) % SEQ != 1 {
        buf := [];
        return Quiet;
      }
      seqNum := packet.sequenceNumber;
      if nuType == FRAGMENT {
        match data[2] / 64 {
          case 2 =>
            nuType := data[2] % 64;
            if |buf| == 0 && IsKey(nuType) {
              buf := buf + ps;
              assert [] + ps == ps;
            }
            nuStart := |buf|;
            buf := buf + [0, 0, 0, 0];
            buf := buf + RestoredHeader(data);
            buf := buf + data[3..];
            return Quiet;
          case 0 =>
            if |buf| == 0 {
              return Quiet;
            }
            buf := buf + data[3..];
            return Quiet;
          case 1 =>
            if |buf| == 0 {
              return Quiet;
            }
            buf := buf + data[3..];
            if nuStart > |buf| + 4 {
              buf := [];
              return Quiet;
            }
            if nuStart + 4 > |buf| {
              return Panic;
            }
            buf := PutSize(buf, nuStart);
          case _ =>
            buf := buf + U32Bytes(|data| - 1);
            buf := buf + RestoredHeader(data);
            buf := buf + data[3..];
        }
      } else {
        buf := buf + U32Bytes(|data|);
        buf := buf + data;
      }
      if !marker {
        return Quiet;
      }
      out := Deliver(buf);
      buf := [];
    }
  }

  // ---------------------------------------------------------------- what is sent

  type AccessUnit = seq<Unit>

  /** Units the receiver can tell apart; the last one is a VCL unit (type below 32). */
  predicate ValidAu(au: AccessUnit) {
    && au != []
    && (forall u <- au :: u.Valid() && |u.nal| >= 3)
    && NalType(au[|au| - 1].nal[0]) < 32
  }

  function Count(u: Unit): (r: nat)
    ensures r > 0
  {
    if u.parts == [] then 1 else |u.parts|
  }

  function Data(u: Unit, f: nat): Buf
    requires u.Valid() && f < Count(u)
  {
    if u.parts == [] then u.nal
    else Fragment(u.nal[0], u.nal[1], f == 0, f > 0 && f == |u.parts| - 1, u.parts[f])
  }

  datatype Raw = Raw(data: Buf, marker: bool)

  predicate IsLast(au: AccessUnit, u: nat, f: nat)
    requires u < |au|
  {
    u == |au| - 1 && f == Count(au[u]) - 1
  }

  /** The packets of an access unit from packet `f` of unit `u` on; the very last carries the marker. */
  function AuPackets(au: AccessUnit, u: nat, f: nat): seq<Raw>
    requires ValidAu(au) && u <= |au| && (u < |au| ==> f < Count(au[u]))
    decreases |au| - u, if u < |au| then Count(au[u]) - f else 0
  {
    if u == |au| then []
    else [Raw(Data(au[u], f), IsLast(au, u, f))]
         + (if f + 1 < Count(au[u]) then AuPackets(au, u, f + 1) else AuPackets(au, u + 1, 0))
  }

  function StreamPackets(aus: seq<AccessUnit>): seq<Raw>
    requires forall au <- aus :: ValidAu(au)
  {
    if aus == [] then [] else AuPackets(aus[0], 0, 0) + StreamPackets(aus[1..])
  }

  // ---------------------------------------------------------------- a lossy run

  /** What leaves the receiver when packet `n + i` of the numbering arrives exactly if `kept[i]`. */
  function Run(ps: Buf, s: State, n: nat, packets: seq<Raw>, kept: seq<bool>): (State, seq<Outcome>)
    requires |packets| == |kept|
    decreases |packets|
  {
    if packets == [] then (s, [])
    else if !kept[0] then Run(ps, s, n + 1, packets[1..], kept[1..])
    else
      var (s1, out) := Step(ps, s, Packet(n % SEQ, packets[0].marker, packets[0].data));
      var (s2, outs) := Run(ps, s1, n + 1, packets[1..], kept[1..]);
      (s2, if out.Quiet? then outs else [out] + outs)
  }

  function LastKept(last: Option<nat>, n: nat, kept: seq<bool>): Option<nat>
    decreases |kept|
  {
    if kept == [] then last else LastKept(if kept[0] then Some(n) else last, n + 1, kept[1..])
  }

  /** A real loss never looks like the next packet in the 16-bit numbering. */
  predicate GapOk(last: Option<nat>, n: nat) {
    last.Some? && last.value < n && (n - last.value) % SEQ == 1 ==> n == last.value + 1
  }

  predicate GapsOk(last: Option<nat>, n: nat, kept: seq<bool>)
    decreases |kept|
  {
    kept == [] ||
    if kept[0] then GapOk(last, n) && GapsOk(Some(n), n + 1, kept[1..]) else GapsOk(last, n + 1, kept[1..])
  }

  lemma SeqGap(n: nat, last: nat)
    requires last < n
    ensures (n % SEQ - last % SEQ) % SEQ == (n - last) % SEQ
  {
    assert n - last == (n / SEQ - last / SEQ) * SEQ + (n % SEQ - last % SEQ);
    ModShift(n % SEQ - last % SEQ, n / SEQ - last / SEQ, SEQ);
  }

  // ---------------------------------------------------------------- what is delivered

  function Head(ps: Buf, u: Unit): Buf
    requires u.Valid()
  {
    if u.parts != [] && 19 <= u.nal[0] / 2 % 64 <= 21 then ps else []
  }

  function Nals(us: seq<Unit>): seq<Buf> {
    if us == [] then [] else Nals(us[..|us| - 1]) + [us[|us| - 1].nal]
  }

  /** The complete units `k..u`, behind the parameter sets if unit `k` is a fragmented key frame. */
  function Collected(ps: Buf, au: AccessUnit, k: nat, u: nat): Buf
    requires ValidAu(au) && k <= u <= |au| && k < |au|
  {
    Head(ps, au[k]) + Join(Nals(au[k..u]))
  }

  function Suffix(ps: Buf, au: AccessUnit, k: nat): Buf
    requires ValidAu(au) && k < |au|
  {
    Collected(ps, au, k, |au|)
  }

  lemma CollectedNext(ps: Buf, au: AccessUnit, k: nat, u: nat)
    requires ValidAu(au) && k <= u < |au|
    ensures Collected(ps, au, k, u + 1) == Collected(ps, au, k, u) + Frame(au[u].nal)
  {
    hide Frame, Head;
    assert au[k..u + 1][..u - k] == au[k..u];
    JoinAppend(Nals(au[k..u]), [au[u].nal]);
    JoinOne(au[u].nal);
  }

  // ---------------------------------------------------------------- one packet of a sent unit

  /**
   * What the receiver knows between packets: nothing; something that a loss already invalidated; or
   * everything sent since the start of unit `k`.
   */
  datatype Knows = Empty | Stale | Have(k: nat)

  function Partial(u: Unit, f: nat): Buf
    requires u.Valid() && f < Count(u)
  {
    if f == 0 then [] else [0, 0, 0, 0] + u.nal[..2] + Concat(u.parts[..f])
  }

  function BufAt(ps: Buf, au: AccessUnit, k: nat, u: nat, f: nat): Buf
    requires ValidAu(au) && k <= u <= |au| && k < |au| && (u < |au| ==> f < Count(au[u])) && (u == |au| ==> f == 0)
  {
    Collected(ps, au, k, u) + (if u < |au| then Partial(au[u], f) else [])
  }

  predicate Position(au: AccessUnit, u: nat, f: nat) {
    ValidAu(au) && u <= |au| && if u < |au| then f < Count(au[u]) else f == 0
  }

  /** The receiver state before packet `f` of unit `u`, number `n`; `last` arrived before. */
  predicate Concrete(ps: Buf, au: AccessUnit, a: Knows, u: nat, f: nat, s: State, last: Option<nat>, n: nat)
    requires Position(au, u, f)
  {
    match a
    case Empty => s.buf == []
    case Stale => s.buf != [] && last.Some? && last.value + 1 < n && s.seqNum == last.value % SEQ
    case Have(k) =>
      && k <= u && k < |au| && (k < u || f > 0)
      && last == Some(n - 1) && n > 0 && s.seqNum == (n - 1) % SEQ
      && s.buf == BufAt(ps, au, k, u, f)
      && (f > 0 ==> s.nuStart == |Collected(ps, au, k, u)|)
  }

  function After(a: Knows, u: nat, f: nat): Knows {
    match a
    case Empty => if f == 0 then Have(u) else Empty
    case Stale => Empty
    case Have(k) => a
  }

  lemma CollectedNonEmpty(ps: Buf, au: AccessUnit, k: nat, u: nat)
    requires ValidAu(au) && k < u <= |au|
    ensures Collected(ps, au, k, u) != []
  {
    CollectedNext(ps, au, k, u - 1);
  }

  lemma NotStale(ps: Buf, au: AccessUnit, a: Knows, u: nat, f: nat, s: State, last: Option<nat>, n: nat)
    requires Position(au, u, f) && u < |au| && Concrete(ps, au, a, u, f, s, last, n) && GapOk(last, n)
    ensures a.Stale? <==> s.buf != [] && (n % SEQ - s.seqNum) % SEQ != 1
    ensures a.Have? ==> s.buf != []
  {
    if a.Stale? {
      SeqGap(n, last.value);
    } else if a.Have? {
      SeqGap(n, n - 1);
      if a.k < u {
        CollectedNonEmpty(ps, au, a.k, u);
      }
    }
  }

  // ---------------------------------------------------------------- the four kinds of packet

  /** The packet is not discarded as out of sequence. */
  predicate InSequence(s: State, n: nat) {
    s.buf == [] || (n % SEQ - s.seqNum) % SEQ == 1
  }

  lemma StepSingle(ps: Buf, s: State, n: nat, marker: bool, nal: Buf)
    requires InSequence(s, n) && Plain(nal) && |nal| >= 3 && (marker ==> NalType(nal[0]) < 32 || |nal| >= 128)
    ensures Step(ps, s, Packet(n % SEQ, marker, nal)) == Emit(State(s.buf + Frame(nal), s.nuStart, n % SEQ), marker)
  {
    hide U32Bytes;
    assert s.buf + U32Bytes(|nal|) + nal == s.buf + Frame(nal);
  }

  /** Servers that end every parameter set with the marker: a small one is collected like any other unit. */
  lemma MarkedParameterSet(ps: Buf, s: State, n: nat, nal: Buf)
    requires 3 <= |nal| < 128 && nal[0] / 2 % 64 in {32, 33, 34}
    ensures Step(ps, s, Packet(n % SEQ, true, nal)) == Step(ps, s, Packet(n % SEQ, false, nal))
    ensures InSequence(s, n) ==>
              Step(ps, s, Packet(n % SEQ, true, nal)) == (State(s.buf + Frame(nal), s.nuStart, n % SEQ), Quiet)
  {
    hide U32Bytes;
    assert s.buf + U32Bytes(|nal|) + nal == s.buf + Frame(nal);
  }

  /** A small SEI with the marker is as good as lost. */
  lemma MarkedSei(ps: Buf, s: State, n: nat, nal: Buf)
    requires 3 <= |nal| < 128 && nal[0] / 2 % 64 in {39, 40}
    ensures Step(ps, s, Packet(n % SEQ, true, nal)) == (s, Quiet)
  {
  }

  lemma FragmentKind(hi: Byte, lo: Byte, start: bool, end: bool, part: Buf)
    requires !(start && end)
    ensures var p := Fragment(hi, lo, start, end, part);
            && |p| >= 3 && NalType(p[0]) == FRAGMENT && p[2] / 64 == (if start then 2 else if end then 1 else 0)
            && p[2] % 64 == NalType(hi) && RestoredHeader(p) == [hi, lo] && p[3..] == part
  {
    FragmentFields(hi, lo, start, end, part);
  }

  lemma StepIsFragment(ps: Buf, s: State, n: nat, marker: bool, u: Unit, f: nat)
    requires InSequence(s, n) && u.Valid() && u.parts != [] && f < Count(u)
    ensures Step(ps, s, Packet(n % SEQ, marker, Data(u, f))) ==
            StepFragment(ps, s.(seqNum := n % SEQ), Packet(n % SEQ, marker, Data(u, f)))
  {
    hide StepFragment, Fragment;
    FragmentKind(u.nal[0], u.nal[1], f == 0, f > 0 && f == |u.parts| - 1, u.parts[f]);
  }

  lemma StepBegin(ps: Buf, s: State, n: nat, u: Unit)
    requires InSequence(s, n) && u.Valid() && u.parts != []
    ensures var head := if s.buf == [] then Head(ps, u) else s.buf;
            Step(ps, s, Packet(n % SEQ, false, Data(u, 0))) ==
            (State(head + Partial(u, 1), |head|, n % SEQ), Quiet)
  {
    hide Step, Fragment;
    StepIsFragment(ps, s, n, false, u, 0);
    FragmentKind(u.nal[0], u.nal[1], true, false, u.parts[0]);
    var head := if s.buf == [] then Head(ps, u) else s.buf;
    assert u.parts[..1] == [u.parts[0]] && Concat([u.parts[0]]) == u.parts[0] + Concat([]);
    assert [u.nal[0], u.nal[1]] == u.nal[..2];
    assert head + [0, 0, 0, 0] + u.nal[..2] + u.parts[0] == head + Partial(u, 1);
  }

  lemma PartialNext(u: Unit, f: nat)
    requires u.Valid() && 0 < f && f + 1 < Count(u)
    ensures Partial(u, f) + u.parts[f] == Partial(u, f + 1)
  {
    assert u.parts[..f + 1] == u.parts[..f] + [u.parts[f]];
    ConcatAppend(u.parts[..f], [u.parts[f]]);
    assert Concat([u.parts[f]]) == u.parts[f] + Concat([]);
  }

  lemma StepContinue(ps: Buf, s: State, n: nat, u: Unit, f: nat)
    requires InSequence(s, n) && u.Valid() && u.parts != [] && 0 < f < Count(u) - 1
    ensures Step(ps, s, Packet(n % SEQ, false, Data(u, f))) ==
            (State(if s.buf == [] then [] else s.buf + u.parts[f], s.nuStart, n % SEQ), Quiet)
  {
    hide Step, Fragment;
    StepIsFragment(ps, s, n, false, u, f);
    FragmentKind(u.nal[0], u.nal[1], false, false, u.parts[f]);
  }

  lemma WholeUnit(u: Unit)
    requires u.Valid() && u.parts != []
    ensures Partial(u, |u.parts| - 1) + u.parts[|u.parts| - 1] == [0, 0, 0, 0] + u.nal
  {
    var f := |u.parts| - 1;
    assert u.parts == u.parts[..f] + [u.parts[f]];
    ConcatAppend(u.parts[..f], [u.parts[f]]);
    assert Concat([u.parts[f]]) == u.parts[f] + Concat([]);
    assert u.nal[..2] + u.nal[2..] == u.nal;
  }

  lemma SizeWritten(before: Buf, nal: Buf, buf: Buf)
    requires buf == before + ([0, 0, 0, 0] + nal)
    ensures PutSize(buf, |before|) == before + Frame(nal)
  {
    hide U32Bytes;
    assert buf[..|before|] == before && buf[|before| + 4..] == nal;
    assert before + U32Bytes(|nal|) + nal == before + Frame(nal);
  }

  lemma StepEnd(ps: Buf, s: State, n: nat, marker: bool, u: Unit, before: Buf)
    requires InSequence(s, n) && u.Valid() && u.parts != []
    requires s.buf != [] ==> s.buf == before + Partial(u, Count(u) - 1) && s.nuStart == |before|
    ensures Step(ps, s, Packet(n % SEQ, marker, Data(u, Count(u) - 1))) ==
            if s.buf == [] then (s.(seqNum := n % SEQ), Quiet)
            else Emit(State(before + Frame(u.nal), s.nuStart, n % SEQ), marker)
  {
    hide Step, Fragment, U32Bytes;
    var f := Count(u) - 1;
    StepIsFragment(ps, s, n, marker, u, f);
    FragmentKind(u.nal[0], u.nal[1], false, true, u.parts[f]);
    if s.buf != [] {
      WholeUnit(u);
      var buf := s.buf + u.parts[f];
      assert buf == before + (Partial(u, f) + u.parts[f]);
      SizeWritten(before, u.nal, buf);
    }
  }

  // ---------------------------------------------------------------- one packet, kept or lost

  predicate Settled(s: State, last: Option<nat>, n: nat) {
    s.buf == [] || (last.Some? && last.value + 1 < n && s.seqNum == last.value % SEQ)
  }

  /** The position behind packet `f` of unit `u`. */
  function Next(au: AccessUnit, u: nat, f: nat): (nat, nat)
    requires u < |au|
  {
    if f + 1 < Count(au[u]) then (u, f + 1) else (u + 1, 0)
  }

  lemma LostPacket(ps: Buf, au: AccessUnit, a: Knows, u: nat, f: nat, s: State, last: Option<nat>, n: nat)
    requires Position(au, u, f) && u < |au| && Concrete(ps, au, a, u, f, s, last, n)
    ensures var (u', f') := Next(au, u, f);
            Concrete(ps, au, if a.Have? then Stale else a, u', f', s, last, n + 1)
  {
    if a.Have? {
      if a.k < u {
        CollectedNonEmpty(ps, au, a.k, u);
      }
    }
  }

  lemma CollectedStart(ps: Buf, au: AccessUnit, u: nat)
    requires ValidAu(au) && u < |au|
    ensures Collected(ps, au, u, u) == Head(ps, au[u])
  {
    assert au[u..u] == [];
  }

  lemma BufAtStart(ps: Buf, au: AccessUnit, k: nat, u: nat)
    requires ValidAu(au) && k <= u <= |au| && k < |au|
    ensures BufAt(ps, au, k, u, 0) == Collected(ps, au, k, u)
  {
  }

  /** The packet is taken silently, and what is known moves on to the position behind it. */
  ghost predicate Taking(ps: Buf, au: AccessUnit, a: Knows, u: nat, f: nat, s: State, n: nat)
    requires Position(au, u, f) && u < |au|
  {
    var (u', f') := Next(au, u, f);
    var (s', out) := Step(ps, s, Packet(n % SEQ, false, Data(au[u], f)));
    out.Quiet? && Concrete(ps, au, After(a, u, f), u', f', s', Some(n), n + 1)
  }

  lemma StaleTaken(ps: Buf, au: AccessUnit, a: Knows, u: nat, f: nat, s: State, last: Option<nat>, n: nat)
    requires Position(au, u, f) && u < |au| && Concrete(ps, au, a, u, f, s, last, n) && GapOk(last, n) && a.Stale?
    ensures Taking(ps, au, a, u, f, s, n)
  {
    hide Step, Partial, Collected, Data, Head;
    NotStale(ps, au, a, u, f, s, last, n);
    StepStale(ps, s, n, false, au[u], f);
  }

  lemma EndTaken(ps: Buf, au: AccessUnit, a: Knows, u: nat, f: nat, s: State, last: Option<nat>, n: nat)
    requires Position(au, u, f) && u < |au| && Concrete(ps, au, a, u, f, s, last, n) && GapOk(last, n) && !a.Stale?
    requires f + 1 == Count(au[u])
    ensures Taking(ps, au, a, u, f, s, n)
  {
    hide Step, Partial, Collected, Data, Head, BufAt, GapOk;
    UnitCompleted(ps, au, a, u, f, s, last, n, false);
    if After(a, u, f).Have? {
      BufAtStart(ps, au, After(a, u, f).k, u + 1);
    }
  }

  lemma BeginTaken(ps: Buf, au: AccessUnit, a: Knows, u: nat, s: State, last: Option<nat>, n: nat)
    requires Position(au, u, 0) && u < |au| && Concrete(ps, au, a, u, 0, s, last, n) && GapOk(last, n) && !a.Stale?
    requires 1 < Count(au[u])
    ensures Taking(ps, au, a, u, 0, s, n)
  {
    hide Step, Partial, Collected, Data, Head, GapOk;
    NotStale(ps, au, a, u, 0, s, last, n);
    StepBegin(ps, s, n, au[u]);
    CollectedStart(ps, au, u);
    if a.Have? {
      BufAtStart(ps, au, a.k, u);
    }
  }

  lemma MiddleTaken(ps: Buf, au: AccessUnit, a: Knows, u: nat, f: nat, s: State, last: Option<nat>, n: nat)
    requires Position(au, u, f) && u < |au| && Concrete(ps, au, a, u, f, s, last, n) && GapOk(last, n) && !a.Stale?
    requires 0 < f < Count(au[u]) - 1
    ensures Taking(ps, au, a, u, f, s, n)
  {
    hide Step, Partial, Collected, Data, Head, GapOk;
    NotStale(ps, au, a, u, f, s, last, n);
    StepContinue(ps, s, n, au[u], f);
    PartialNext(au[u], f);
  }

  /** A packet that arrives and does not end the access unit. */
  lemma KeptPacket(ps: Buf, au: AccessUnit, a: Knows, u: nat, f: nat, s: State, last: Option<nat>, n: nat)
    requires Position(au, u, f) && u < |au| && !IsLast(au, u, f)
    requires Concrete(ps, au, a, u, f, s, last, n) && GapOk(last, n)
    ensures var (u', f') := Next(au, u, f);
            var (s', out) := Step(ps, s, Packet(n % SEQ, false, Data(au[u], f)));
            out.Quiet? && Concrete(ps, au, After(a, u, f), u', f', s', Some(n), n + 1)
  {
    assert Taking(ps, au, a, u, f, s, n) by {
      hide Step, Concrete, Data, GapOk, Taking;
      if a.Stale? {
        StaleTaken(ps, au, a, u, f, s, last, n);
      } else if f + 1 == Count(au[u]) {
        EndTaken(ps, au, a, u, f, s, last, n);
      } else if f == 0 {
        BeginTaken(ps, au, a, u, s, last, n);
      } else {
        MiddleTaken(ps, au, a, u, f, s, last, n);
      }
    }
    hide Step, Concrete, Data;
  }

  /** The packet that completes a unit: everything from unit `k` on is now collected. */
  lemma UnitCompleted(ps: Buf, au: AccessUnit, a: Knows, u: nat, f: nat, s: State, last: Option<nat>, n: nat, marker: bool)
    requires Position(au, u, f) && u < |au| && f + 1 == Count(au[u]) && !a.Stale?
    requires Concrete(ps, au, a, u, f, s, last, n) && GapOk(last, n)
    requires marker ==> NalType(au[u].nal[0]) < 32
    ensures var r := Step(ps, s, Packet(n % SEQ, marker, Data(au[u], f)));
            var a' := After(a, u, f);
            if a'.Have? then r == Emit(State(Collected(ps, au, a'.k, u + 1), r.0.nuStart, n % SEQ), marker)
            else r == (s.(seqNum := n % SEQ), Quiet)
  {
    hide Step, Partial, Collected, Data;
    NotStale(ps, au, a, u, f, s, last, n);
    var unit := au[u];
    CollectedStart(ps, au, u);
    CollectedNext(ps, au, if a.Have? then a.k else u, u);
    if unit.parts == [] {
      StepSingleAt(ps, s, n, marker, unit);
      if a.Have? {
        BufAtStart(ps, au, a.k, u);
      } else {
        assert Collected(ps, au, u, u) == [];
      }
    } else {
      StepEnd(ps, s, n, marker, unit, if a.Have? then Collected(ps, au, a.k, u) else []);
    }
  }

  lemma StepStale(ps: Buf, s: State, n: nat, marker: bool, u: Unit, f: nat)
    requires !InSequence(s, n) && u.Valid() && |u.nal| >= 3 && f < Count(u) && (marker ==> NalType(u.nal[0]) < 32)
    ensures Step(ps, s, Packet(n % SEQ, marker, Data(u, f))) == (s.(buf := []), Quiet)
  {
    if u.parts != [] {
      FragmentKind(u.nal[0], u.nal[1], f == 0, f > 0 && f == |u.parts| - 1, u.parts[f]);
    }
  }

  lemma StepSingleAt(ps: Buf, s: State, n: nat, marker: bool, u: Unit)
    requires u.Valid() && u.parts == [] && |u.nal| >= 3 && InSequence(s, n) && (marker ==> NalType(u.nal[0]) < 32)
    ensures Step(ps, s, Packet(n % SEQ, marker, Data(u, 0))) ==
            Emit(State(s.buf + Frame(u.nal), s.nuStart, n % SEQ), marker)
  {
    hide Step;
    StepSingle(ps, s, n, marker, u.nal);
  }

  /** The last packet of an access unit arrives: what was collected is delivered, if anything. */
  lemma KeptMarker(ps: Buf, au: AccessUnit, a: Knows, u: nat, f: nat, s: State, last: Option<nat>, n: nat)
    requires Position(au, u, f) && u < |au| && IsLast(au, u, f)
    requires Concrete(ps, au, a, u, f, s, last, n) && GapOk(last, n)
    ensures var (s', out) := Step(ps, s, Packet(n % SEQ, true, Data(au[u], f)));
            && s'.buf == [] && (After(a, u, f).Have? ==> After(a, u, f).k < |au|)
            && out == if After(a, u, f).Have? then Deliver(Suffix(ps, au, After(a, u, f).k)) else Quiet
  {
    hide Step, Collected, Data;
    if a.Stale? {
      NotStale(ps, au, a, u, f, s, last, n);
      StepStale(ps, s, n, true, au[u], f);
    } else {
      UnitCompleted(ps, au, a, u, f, s, last, n, true);
    }
  }

  // ---------------------------------------------------------------- one access unit

  predicate AllKept(kept: seq<bool>) {
    forall i :: 0 <= i < |kept| ==> kept[i]
  }

  lemma AllKeptCons(kept: seq<bool>)
    ensures AllKept([])
    ensures kept != [] ==> (AllKept(kept) <==> kept[0] && AllKept(kept[1..]))
  {
    assert forall i :: 0 <= i < |kept| - 1 ==> kept[1..][i] == kept[i + 1];
  }

  lemma RunCons(ps: Buf, s: State, n: nat, packets: seq<Raw>, kept: seq<bool>)
    requires |packets| == |kept| > 0
    ensures var (s1, out) := Step(ps, s, Packet(n % SEQ, packets[0].marker, packets[0].data));
            Run(ps, s, n, packets, kept) ==
            if !kept[0] then Run(ps, s, n + 1, packets[1..], kept[1..])
            else
              var (s2, outs) := Run(ps, s1, n + 1, packets[1..], kept[1..]);
              (s2, if out.Quiet? then outs else [out] + outs)
  {
    hide Step;
  }

  lemma AuCons(au: AccessUnit, u: nat, f: nat)
    requires Position(au, u, f) && u < |au|
    ensures var packets := AuPackets(au, u, f);
            && |packets| > 0 && packets[0] == Raw(Data(au[u], f), IsLast(au, u, f))
            && packets[1..] == if IsLast(au, u, f) then [] else AuPackets(au, Next(au, u, f).0, Next(au, u, f).1)
  {
    hide Data, ValidAu, Count;
  }

  /** The result of the rest of an access unit, from what is known before it. */
  ghost predicate Yields(ps: Buf, au: AccessUnit, a: Knows, u: nat, f: nat, r: (State, seq<Outcome>),
                         last: Option<nat>, n: nat, kept: seq<bool>, k: Option<nat>)
    requires Position(au, u, f)
  {
    && Settled(r.0, LastKept(last, n, kept), n + |kept|)
    && (k.Some? ==> k.value < |au|)
    && r.1 == (if k.Some? then [Deliver(Suffix(ps, au, k.value))] else [])
    && (a.Have? || (a.Empty? && f == 0) ==> (k == Some(if a.Have? then a.k else u) <==> AllKept(kept)))
    && (AllKept(kept) && (a.Have? || (a.Empty? && f == 0)) ==> r.0.buf == [])
    && (k.Some? ==> if a.Have? then k.value >= a.k else k.value >= u && (f > 0 ==> k.value > u))
  }

  lemma HaveBefore(ps: Buf, au: AccessUnit, a: Knows, u: nat, f: nat, s: State, last: Option<nat>, n: nat)
    requires Position(au, u, f) && Concrete(ps, au, a, u, f, s, last, n) && a.Have?
    ensures a.k <= u && (a.k < u || f > 0)
  {
  }

  /** What the rest of an access unit yields: at most one delivery, a suffix of the unit's NAL units. */
  lemma {:induction false} RunAu(ps: Buf, au: AccessUnit, a: Knows, u: nat, f: nat, s: State,
                                 last: Option<nat>, n: nat, kept: seq<bool>) returns (k: Option<nat>)
    requires Position(au, u, f) && u < |au| && Concrete(ps, au, a, u, f, s, last, n)
    requires |kept| == |AuPackets(au, u, f)| && GapsOk(last, n, kept)
    ensures Yields(ps, au, a, u, f, Run(ps, s, n, AuPackets(au, u, f), kept), last, n, kept, k)
    decreases |kept|
  {
    hide Step, Concrete, Suffix, Data, Run, AuPackets, Settled;
    var packets := AuPackets(au, u, f);
    AuCons(au, u, f);
    RunCons(ps, s, n, packets, kept);
    var r := Step(ps, s, Packet(n % SEQ, packets[0].marker, packets[0].data));
    var (u', f') := Next(au, u, f);
    AllKeptCons(kept);
    hide AllKept;
    if a.Have? {
      HaveBefore(ps, au, a, u, f, s, last, n);
    }
    if kept[0] && IsLast(au, u, f) {
      KeptMarker(ps, au, a, u, f, s, last, n);
      RunNothing(ps, r.0, n + 1, packets[1..], kept[1..], Some(n));
      k := if After(a, u, f).Have? then Some(After(a, u, f).k) else None;
      assert [r.1] + [] == [r.1];
    } else if kept[0] {
      KeptPacket(ps, au, a, u, f, s, last, n);
      k := RunAu(ps, au, After(a, u, f), u', f', r.0, Some(n), n + 1, kept[1..]);
    } else {
      LostPacket(ps, au, a, u, f, s, last, n);
      var a' := if a.Have? then Stale else a;
      if IsLast(au, u, f) {
        RunNothing(ps, s, n + 1, packets[1..], kept[1..], last);
        ConcreteAtEnd(ps, au, a', s, last, n + 1);
        k := None;
      } else {
        k := RunAu(ps, au, a', u', f', s, last, n + 1, kept[1..]);
      }
    }
  }

  lemma RunNothing(ps: Buf, s: State, n: nat, packets: seq<Raw>, kept: seq<bool>, last: Option<nat>)
    requires packets == [] && kept == []
    ensures Run(ps, s, n, packets, kept) == (s, [])
    ensures LastKept(last, n, kept) == last && (s.buf == [] ==> Settled(s, last, n))
  {
  }

  lemma ConcreteAtEnd(ps: Buf, au: AccessUnit, a: Knows, s: State, last: Option<nat>, n: nat)
    requires Position(au, |au|, 0) && !a.Have? && Concrete(ps, au, a, |au|, 0, s, last, n)
    ensures Settled(s, last, n)
  {
  }

  // ---------------------------------------------------------------- a whole stream

  lemma {:induction false} RunAppend(ps: Buf, s: State, n: nat, p1: seq<Raw>, k1: seq<bool>, p2: seq<Raw>, k2: seq<bool>)
    requires |p1| == |k1| && |p2| == |k2|
    ensures var (s1, o1) := Run(ps, s, n, p1, k1);
            var (s2, o2) := Run(ps, s1, n + |p1|, p2, k2);
            Run(ps, s, n, p1 + p2, k1 + k2) == (s2, o1 + o2)
    decreases |p1|
  {
    hide Step, Run;
    if p1 == [] {
      assert p1 + p2 == p2 && k1 + k2 == k2;
      RunNothing(ps, s, n, p1, k1, None);
      assert [] + Run(ps, s, n, p2, k2).1 == Run(ps, s, n, p2, k2).1;
    } else {
      assert (p1 + p2)[1..] == p1[1..] + p2 && (k1 + k2)[1..] == k1[1..] + k2;
      RunCons(ps, s, n, p1, k1);
      RunCons(ps, s, n, p1 + p2, k1 + k2);
      var (s1, out) := Step(ps, s, Packet(n % SEQ, p1[0].marker, p1[0].data));
      var s0 := if k1[0] then s1 else s;
      RunAppend(ps, s0, n + 1, p1[1..], k1[1..], p2, k2);
      var o1 := Run(ps, s0, n + 1, p1[1..], k1[1..]);
      var o2 := Run(ps, o1.0, n + |p1|, p2, k2).1;
      assert [out] + (o1.1 + o2) == [out] + o1.1 + o2;
    }
  }

  lemma {:induction false} GapsAppend(last: Option<nat>, n: nat, k1: seq<bool>, k2: seq<bool>)
    requires GapsOk(last, n, k1 + k2)
    ensures GapsOk(last, n, k1) && GapsOk(LastKept(last, n, k1), n + |k1|, k2)
    ensures (last.Some? ==> last.value < n) ==>
              (LastKept(last, n, k1).Some? ==> LastKept(last, n, k1).value < n + |k1|)
    decreases |k1|
  {
    if k1 == [] {
      assert k1 + k2 == k2;
    } else {
      assert (k1 + k2)[1..] == k1[1..] + k2;
      GapsAppend(if k1[0] then Some(n) else last, n + 1, k1[1..], k2);
    }
  }

  /** Delivery `i` is the suffix from unit `tags[i].1` of access unit `tags[i].0`, in increasing order. */
  ghost predicate Untorn(ps: Buf, aus: seq<AccessUnit>, outs: seq<Outcome>, tags: seq<(nat, nat)>)
    requires forall au <- aus :: ValidAu(au)
  {
    && |tags| == |outs|
    && (forall i :: 0 <= i < |tags| ==>
          && tags[i].0 < |aus| && tags[i].1 < |aus[tags[i].0]|
          && outs[i] == Deliver(Suffix(ps, aus[tags[i].0], tags[i].1)))
    && forall i, j :: 0 <= i < j < |tags| ==> tags[i].0 < tags[j].0
  }

  function Shift(tags: seq<(nat, nat)>): seq<(nat, nat)> {
    seq(|tags|, i requires 0 <= i < |tags| => (tags[i].0 + 1, tags[i].1))
  }

  lemma UntornCons(ps: Buf, aus: seq<AccessUnit>, k: Option<nat>, o1: seq<Outcome>, o2: seq<Outcome>,
                   rest: seq<(nat, nat)>)
    requires (forall au <- aus :: ValidAu(au)) && aus != [] && (k.Some? ==> k.value < |aus[0]|)
    requires o1 == (if k.Some? then [Deliver(Suffix(ps, aus[0], k.value))] else [])
    requires Untorn(ps, aus[1..], o2, rest)
    ensures Untorn(ps, aus, o1 + o2, ConsTag(k, rest))
  {
    hide Suffix, ValidAu;
  }

  function ConsTag(k: Option<nat>, rest: seq<(nat, nat)>): seq<(nat, nat)> {
    (if k.Some? then [(0, k.value)] else []) + Shift(rest)
  }

  /** One delivery per access unit, each from its first NAL unit. */
  ghost predicate AllWhole(count: nat, tags: seq<(nat, nat)>) {
    |tags| == count && forall i :: 0 <= i < count ==> tags[i] == (i, 0)
  }

  lemma AllWholeCons(count: nat, k: Option<nat>, rest: seq<(nat, nat)>)
    ensures AllWhole(count + 1, ConsTag(k, rest)) <==> k == Some(0) && AllWhole(count, rest)
  {
    hide AllWhole, ConsTag;
    if k == Some(0) && AllWhole(count, rest) {
      WholeCons(count, rest);
    } else if AllWhole(count + 1, ConsTag(k, rest)) {
      WholeTail(count, k, rest);
    }
  }

  lemma WholeCons(count: nat, rest: seq<(nat, nat)>)
    requires AllWhole(count, rest)
    ensures AllWhole(count + 1, ConsTag(Some(0), rest))
  {
    hide ConsTag;
    FirstTag(Some(0), rest);
    forall i | 0 <= i <= count
      ensures ConsTag(Some(0), rest)[i] == (i, 0)
    {
      if i > 0 {
        LaterTag(Some(0), rest, i - 1);
      }
    }
  }

  lemma WholeTail(count: nat, k: Option<nat>, rest: seq<(nat, nat)>)
    requires AllWhole(count + 1, ConsTag(k, rest))
    ensures k == Some(0) && AllWhole(count, rest)
  {
    hide ConsTag;
    FirstTag(k, rest);
    assert ConsTag(k, rest)[0] == (0, 0);
    forall i | 0 <= i < |rest|
      ensures rest[i] == (i, 0)
    {
      LaterTag(k, rest, i);
    }
  }

  lemma FirstTag(k: Option<nat>, rest: seq<(nat, nat)>)
    ensures k.Some? ==> |ConsTag(k, rest)| == |rest| + 1 && ConsTag(k, rest)[0] == (0, k.value)
    ensures k.None? ==> |ConsTag(k, rest)| == |rest| && (rest != [] ==> ConsTag(k, rest)[0].0 > 0)
  {
    assert k.None? ==> ConsTag(k, rest) == Shift(rest);
  }

  lemma LaterTag(k: Option<nat>, rest: seq<(nat, nat)>, i: nat)
    requires k.Some? && i < |rest|
    ensures |ConsTag(k, rest)| == |rest| + 1 && ConsTag(k, rest)[i + 1] == (rest[i].0 + 1, rest[i].1)
  {
  }

  lemma {:induction false} RunStream(ps: Buf, aus: seq<AccessUnit>, s: State, last: Option<nat>, n: nat, kept: seq<bool>)
    returns (tags: seq<(nat, nat)>)
    requires (forall au <- aus :: ValidAu(au)) && Settled(s, last, n) && (last.Some? ==> last.value < n)
    requires |kept| == |StreamPackets(aus)| && GapsOk(last, n, kept)
    ensures Untorn(ps, aus, Run(ps, s, n, StreamPackets(aus), kept).1, tags)
    ensures s.buf == [] ==> (AllWhole(|aus|, tags) <==> AllKept(kept))
    decreases |aus|
  {
    hide Step, Suffix, AuPackets, Settled, Run, ValidAu, GapsOk, LastKept, Untorn, Concrete, ConsTag, AllWhole, Position,
      StreamPackets, AllKept;
    StreamCons(aus);
    if aus == [] {
      tags := [];
      RunNothing(ps, s, n, [], [], last);
      AllKeptCons(kept);
      NothingUntorn(ps, aus, tags);
    } else {
      var p1, p2 := AuPackets(aus[0], 0, 0), StreamPackets(aus[1..]);
      var k1, k2 := kept[..|p1|], kept[|p1|..];
      assert kept == k1 + k2;
      KeptParts(k1, k2);
      GapsAppend(last, n, k1, k2);
      RunAppend(ps, s, n, p1, k1, p2, k2);
      var r := Run(ps, s, n, p1, k1);
      var k := RunWholeAu(ps, aus[0], s, last, n, k1);
      var rest := RunStream(ps, aus[1..], r.0, LastKept(last, n, k1), n + |p1|, k2);
      UntornCons(ps, aus, k, r.1, Run(ps, r.0, n + |p1|, p2, k2).1, rest);
      tags := ConsTag(k, rest);
      AllWholeCons(|aus| - 1, k, rest);
    }
  }

  lemma StreamCons(aus: seq<AccessUnit>)
    requires forall au <- aus :: ValidAu(au)
    ensures StreamPackets(aus) == if aus == [] then [] else AuPackets(aus[0], 0, 0) + StreamPackets(aus[1..])
  {
  }

  lemma KeptParts(k1: seq<bool>, k2: seq<bool>)
    ensures AllKept(k1 + k2) <==> AllKept(k1) && AllKept(k2)
  {
    assert forall i :: 0 <= i < |k1| ==> k1[i] == (k1 + k2)[i];
    assert forall i :: 0 <= i < |k2| ==> k2[i] == (k1 + k2)[|k1| + i];
  }

  lemma RunWholeAu(ps: Buf, au: AccessUnit, s: State, last: Option<nat>, n: nat, kept: seq<bool>)
    returns (k: Option<nat>)
    requires ValidAu(au) && Settled(s, last, n) && |kept| == |AuPackets(au, 0, 0)| && GapsOk(last, n, kept)
    ensures var r := Run(ps, s, n, AuPackets(au, 0, 0), kept);
            && (k.Some? ==> k.value < |au|)
            && r.1 == (if k.Some? then [Deliver(Suffix(ps, au, k.value))] else [])
            && Settled(r.0, LastKept(last, n, kept), n + |kept|)
            && (s.buf == [] ==> (k == Some(0) <==> AllKept(kept)))
            && (s.buf == [] && AllKept(kept) ==> r.0.buf == [])
  {
    hide Run, AuPackets, Suffix, Concrete, Settled, LastKept, GapsOk, AllKept, ValidAu, Position;
    StartOfAu(ps, au, s, last, n);
    k := RunAu(ps, au, if s.buf == [] then Empty else Stale, 0, 0, s, last, n, kept);
  }

  lemma NothingUntorn(ps: Buf, aus: seq<AccessUnit>, tags: seq<(nat, nat)>)
    requires aus == [] && tags == []
    ensures Untorn(ps, aus, [], tags) && AllWhole(|aus|, tags)
  {
  }

  lemma StartOfAu(ps: Buf, au: AccessUnit, s: State, last: Option<nat>, n: nat)
    requires ValidAu(au) && Settled(s, last, n)
    ensures |au| > 0 && Position(au, 0, 0) && Concrete(ps, au, if s.buf == [] then Empty else Stale, 0, 0, s, last, n)
  {
  }

  /** One fragment with both the start and the end bit is taken for the unit it holds. */
  lemma WholeUnitInOneFragment(ps: Buf, s: State, n: nat, marker: bool, nal: Buf)
    requires Plain(nal) && |nal| >= 3 && (marker ==> nal[0] / 2 % 64 < 32 || |nal| >= 128)
    ensures Step(ps, s, Packet(n % SEQ, marker, Fragment(nal[0], nal[1], true, true, nal[2..]))) ==
            Step(ps, s, Packet(n % SEQ, marker, nal))
  {
    hide U32Bytes;
    FragmentFields(nal[0], nal[1], true, true, nal[2..]);
    HeaderBits(NalType(nal[0]), true, true);
    var data := Fragment(nal[0], nal[1], true, true, nal[2..]);
    assert [nal[0], nal[1]] + nal[2..] == nal;
    assert s.buf + U32Bytes(|data| - 1) + RestoredHeader(data) + data[3..] == s.buf + U32Bytes(|nal|) + nal;
  }

  // ---------------------------------------------------------------- markers of other servers

  predicate SmallParameterSet(data: Buf) {
    3 <= |data| < 128 && data[0] / 2 % 64 in {32, 33, 34}
  }

  predicate SmallSei(data: Buf) {
    3 <= |data| < 128 && data[0] / 2 % 64 in {39, 40}
  }

  /** The same packets, except that small parameter sets and SEI units may carry a marker of their own. */
  ghost predicate Remarked(sent: seq<Raw>, packets: seq<Raw>) {
    && |packets| == |sent|
    && forall i :: 0 <= i < |sent| ==>
         && packets[i].data == sent[i].data && (sent[i].marker ==> packets[i].marker)
         && (packets[i].marker ==> sent[i].marker || SmallParameterSet(sent[i].data) || SmallSei(sent[i].data))
  }

  /** The packets that arrive and are not small SEI units with a marker. */
  function Taken(packets: seq<Raw>, kept: seq<bool>): (r: seq<bool>)
    requires |packets| == |kept|
    ensures |r| == |kept|
  {
    seq(|kept|, i requires 0 <= i < |kept| => kept[i] && !(packets[i].marker && SmallSei(packets[i].data)))
  }

  lemma TakenCons(packets: seq<Raw>, kept: seq<bool>)
    requires |packets| == |kept| > 0
    ensures Taken(packets, kept)[1..] == Taken(packets[1..], kept[1..])
  {
  }

  lemma RemarkedStep(ps: Buf, s: State, n: nat, sent: Raw, packet: Raw)
    requires Remarked([sent], [packet])
    ensures var step := Step(ps, s, Packet(n % SEQ, packet.marker, packet.data));
            if packet.marker && SmallSei(packet.data) then step == (s, Quiet)
            else step == Step(ps, s, Packet(n % SEQ, sent.marker, sent.data))
  {
    hide Step;
    assert [packet][0] == packet && [sent][0] == sent;
    if packet.marker && SmallSei(packet.data) {
      MarkedSei(ps, s, n, packet.data);
    } else if packet.marker != sent.marker {
      MarkedParameterSet(ps, s, n, packet.data);
    }
  }

  /** Such markers make no difference, but that a small SEI with one counts as lost. */
  lemma {:induction false} RunRemarked(ps: Buf, s: State, n: nat, sent: seq<Raw>, packets: seq<Raw>, kept: seq<bool>)
    requires Remarked(sent, packets) && |packets| == |kept|
    ensures Run(ps, s, n, packets, kept) == Run(ps, s, n, sent, Taken(packets, kept))
    decreases |sent|
  {
    hide Step, SmallSei, SmallParameterSet;
    if sent != [] {
      assert Remarked([sent[0]], [packets[0]]) && Remarked(sent[1..], packets[1..]);
      hide Remarked, Run;
      RemarkedStep(ps, s, n, sent[0], packets[0]);
      TakenCons(packets, kept);
      RunCons(ps, s, n, packets, kept);
      RunCons(ps, s, n, sent, Taken(packets, kept));
      var s1 := if kept[0] then Step(ps, s, Packet(n % SEQ, packets[0].marker, packets[0].data)).0 else s;
      RunRemarked(ps, s1, n + 1, sent[1..], packets[1..], kept[1..]);
    } else {
      RunNothing(ps, s, n, packets, kept, None);
      RunNothing(ps, s, n, sent, Taken(packets, kept), None);
    }
  }

  /** Behind collected data such an SEI leaves a gap in the numbering, and the packet after it clears the buffer. */
  lemma MarkedSeiBreaksSequence(ps: Buf, s: State, n: nat, sei: Buf, next: Packet)
    requires SmallSei(sei) && n > 0 && s.seqNum == (n - 1) % SEQ && s.buf != []
    requires next.sequenceNumber == (n + 1) % SEQ && |next.data| >= 3 && !(next.marker && SmallSei(next.data))
    ensures var s1 := Step(ps, s, Packet(n % SEQ, true, sei)).0;
            Step(ps, s1, next) == (s.(buf := []), Quiet)
  {
    MarkedSei(ps, s, n, sei);
    SeqGap(n + 1, n - 1);
  }

  /** A marked parameter set, a marked SEI and a slice that ends the unit: nothing is lost, nothing is delivered. */
  lemma MarkedSeiLosesUnit(ps: Buf, n: nat, pps: Buf, sei: Buf, slice: Buf)
    requires SmallParameterSet(pps) && SmallSei(sei) && |slice| >= 3 && slice[0] / 2 % 64 < 32
    ensures var packets := [Raw(pps, true), Raw(sei, true), Raw(slice, true)];
            Run(ps, State([], 0, 0), n, packets, [true, true, true]) == (State([], 0, n % SEQ), [])
  {
    hide Step, Run, Frame;
    var packets, kept := [Raw(pps, true), Raw(sei, true), Raw(slice, true)], [true, true, true];
    var s := State([] + Frame(pps), 0, n % SEQ);
    MarkedParameterSet(ps, State([], 0, 0), n, pps);
    MarkedSei(ps, s, n + 1, sei);
    MarkedSeiBreaksSequence(ps, s, n + 1, sei, Packet((n + 2) % SEQ, true, slice));
    RunCons(ps, State([], 0, 0), n, packets, kept);
    RunCons(ps, s, n + 1, packets[1..], kept[1..]);
    RunCons(ps, s, n + 2, packets[1..][1..], kept[1..][1..]);
    RunNothing(ps, State([], 0, n % SEQ), n + 3, packets[1..][1..][1..], kept[1..][1..][1..], None);
  }

  /** For instance these nine bytes of an H.265 stream in three packets. */
  lemma MarkedSeiInstance()
    ensures Run([], State([], 0, 0), 7,
                [Raw([0x44, 0x01, 0xC1], true), Raw([0x4E, 0x01, 0x05], true), Raw([0x26, 0x01, 0xAF], true)],
                [true, true, true]) == (State([], 0, 7), [])
  {
    hide Run;
    MarkedSeiLosesUnit([], 7, [0x44, 0x01, 0xC1], [0x4E, 0x01, 0x05], [0x26, 0x01, 0xAF]);
  }

  /**
   * Loss never tears a NAL unit. Whatever packets are lost and whatever small parameter sets and SEI units carry
   * a marker, as long as no loss looks like the next sequence number, each payload delivered is the AVCC form of
   * a nonempty suffix of one access unit's NAL units, all complete, behind the stored parameter sets exactly when
   * the first of them is a fragmented unit of type 19 to 21; deliveries keep the order of the access units, at
   * most one each. All access units are delivered whole exactly if nothing is lost and no small SEI has a marker.
   */
  lemma LossNeverTears(ps: Buf, aus: seq<AccessUnit>, n: nat, packets: seq<Raw>, kept: seq<bool>)
    returns (tags: seq<(nat, nat)>)
    requires forall au <- aus :: ValidAu(au)
    requires Remarked(StreamPackets(aus), packets) && |kept| == |packets| && GapsOk(None, n, Taken(packets, kept))
    ensures Untorn(ps, aus, Run(ps, State([], 0, 0), n, packets, kept).1, tags)
    ensures AllWhole(|aus|, tags) <==>
            AllKept(kept) && forall p <- packets :: !(p.marker && SmallSei(p.data))
  {
    hide Run, StreamPackets, SmallSei, Untorn, GapsOk, ValidAu, AllWhole;
    RunRemarked(ps, State([], 0, 0), n, StreamPackets(aus), packets, kept);
    TakenAll(packets, kept);
    tags := RunStream(ps, aus, State([], 0, 0), None, n, Taken(packets, kept));
  }

  lemma TakenAll(packets: seq<Raw>, kept: seq<bool>)
    requires |packets| == |kept|
    ensures AllKept(Taken(packets, kept)) <==>
            AllKept(kept) && forall p <- packets :: !(p.marker && SmallSei(p.data))
  {
    hide SmallSei;
    if AllKept(Taken(packets, kept)) {
      forall i | 0 <= i < |kept|
        ensures kept[i] && !(packets[i].marker && SmallSei(packets[i].data))
      {
        assert Taken(packets, kept)[i];
      }
    }
  }

  /** Without loss, and without a marker on a small SEI, every access unit is delivered whole. */
  lemma NoLossDeliversAll(ps: Buf, aus: seq<AccessUnit>, n: nat, packets: seq<Raw>, kept: seq<bool>)
    requires forall au <- aus :: ValidAu(au)
    requires Remarked(StreamPackets(aus), packets) && |kept| == |packets| && AllKept(kept)
    requires forall p <- packets :: !(p.marker && SmallSei(p.data))
    ensures var outs := Run(ps, State([], 0, 0), n, packets, kept).1;
            |outs| == |aus| && forall i :: 0 <= i < |aus| ==> outs[i] == Deliver(Suffix(ps, aus[i], 0))
  {
    hide Run, StreamPackets, Suffix, SmallSei, Remarked, GapsOk, AllKept;
    TakenAll(packets, kept);
    AllKeptGaps(None, n, Taken(packets, kept));
    var tags := LossNeverTears(ps, aus, n, packets, kept);
  }

  lemma {:induction false} AllKeptGaps(last: Option<nat>, n: nat, kept: seq<bool>)
    requires AllKept(kept) && (last.Some? ==> last.value + 1 == n)
    ensures GapsOk(last, n, kept)
    decreases |kept|
  {
    if kept != [] {
      AllKeptGaps(Some(n), n + 1, kept[1..]);
    }
  }

  // ---------------------------------------------------------------- the payloader is such a sender

  function Datas(packets: seq<Raw>): seq<Buf> {
    if packets == [] then [] else [packets[0].data] + Datas(packets[1..])
  }

  lemma {:induction false} FragmentData(u: Unit, f: nat, rest: seq<Buf>)
    requires u.Valid() && u.parts != [] && f <= |u.parts| && rest == u.parts[f..]
    ensures var packets := FragmentPackets(u.nal[0], u.nal[1], rest, f == 0);
            |packets| == |rest| && forall i :: 0 <= i < |rest| ==> packets[i] == Data(u, f + i)
    decreases |rest|
  {
    hide Fragment;
    if rest != [] {
      FragmentData(u, f + 1, rest[1..]);
      var packets := FragmentPackets(u.nal[0], u.nal[1], rest, f == 0);
      forall i | 0 <= i < |rest| ensures packets[i] == Data(u, f + i) {
        if i > 0 {
          assert packets[i] == packets[1..][i - 1] == Data(u, f + 1 + (i - 1));
        }
      }
    }
  }

  /** The first `f` packets of a unit. */
  function FirstPackets(u: Unit, f: nat): seq<Buf>
    requires u.Valid() && f <= Count(u)
  {
    seq(f, i requires 0 <= i < f => Data(u, i))
  }

  lemma UnitData(u: Unit)
    requires u.Valid()
    ensures FirstPackets(u, Count(u)) == u.Packets()
  {
    hide Fragment, FragmentPackets;
    if u.parts != [] {
      FragmentData(u, 0, u.parts);
    }
  }

  lemma FirstPacketsNext(u: Unit, f: nat)
    requires u.Valid() && f < Count(u)
    ensures FirstPackets(u, f + 1) == FirstPackets(u, f) + [Data(u, f)]
  {
    hide Data;
  }

  lemma AllPacketsPrefix(au: AccessUnit, u: nat)
    requires ValidAu(au) && u < |au|
    ensures AllPackets(au[..u + 1]) == AllPackets(au[..u]) + FirstPackets(au[u], Count(au[u]))
  {
    hide FirstPackets, FragmentPackets;
    UnitData(au[u]);
    assert au[..u + 1][..u] == au[..u];
  }

  lemma {:induction false} AuData(au: AccessUnit, u: nat, f: nat)
    requires Position(au, u, f)
    ensures AllPackets(au[..u]) + (if u < |au| then FirstPackets(au[u], f) else []) + Datas(AuPackets(au, u, f))
            == AllPackets(au)
    decreases |AuPackets(au, u, f)|
  {
    hide FirstPackets, Data, AllPackets, AuPackets;
    if u == |au| {
      assert au[..u] == au;
      AuPacketsEnd(au);
    } else {
      AuCons(au, u, f);
      FirstPacketsNext(au[u], f);
      var (u', f') := Next(au, u, f);
      var packets := AuPackets(au, u, f);
      assert Datas(packets) == [Data(au[u], f)] + Datas(packets[1..]);
      if IsLast(au, u, f) {
        AuPacketsEnd(au);
      }
      AuData(au, u', f');
      if f + 1 == Count(au[u]) {
        AllPacketsPrefix(au, u);
        NoPacketsYet(au, u + 1);
      }
    }
  }

  lemma AuPacketsEnd(au: AccessUnit)
    requires ValidAu(au)
    ensures AuPackets(au, |au|, 0) == []
  {
  }

  lemma NoPacketsYet(au: AccessUnit, u: nat)
    requires ValidAu(au) && u <= |au|
    ensures u < |au| ==> FirstPackets(au[u], 0) == []
  {
  }

  /** For one access unit, Payload with SkipAggregation emits exactly the packets of `AuPackets`. */
  lemma PayloaderSendsAu(mtu: nat, nals: seq<Buf>)
    requires mtu >= 4 && AllPlain(nals) && ValidAu(UnitsFor(mtu, NonEmpty(nals)))
    ensures Datas(AuPackets(UnitsFor(mtu, NonEmpty(nals)), 0, 0)) == Unaggregated(mtu, nals)
  {
    hide UnitsFor, Plain;
    var au := UnitsFor(mtu, NonEmpty(nals));
    assert au[..0] == [];
    NoPacketsYet(au, 0);
    AuData(au, 0, 0);
  }
}
