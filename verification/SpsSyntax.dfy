/**
 * The syntax tables of sections 7.3.2.1.1 and E.1.1 of ITU-T H.264 as far as the decoder reads them, written down
 * element by element, and the proof that the decoder gives back every value that stands in its place.
 */
module SpsSyntax {
  import opened Wrappers
  import opened Bytes
  import opened BitReader
  import opened BitSyntax
  import opened Sps

  /** What the tables hold and the decoded set does not keep: scaling lists and offset_for_ref_frame. */
  datatype Extra = Extra(lists: seq<Option<seq<int>>>, offsets: seq<int>)

  // ---------------------------------------------------------------- the tables

  function HeadSyntax(s: SPS): seq<Element> {
    [Bits(s.profile, 8), Bits(s.constraints, 8), Bits(s.level, 8), Ue(s.id)]
  }

  function HighSyntax(h: High): seq<Element> {
    [Ue(h.chromaFormat)] + (if h.chromaFormat == 3 then [Bits(h.separatePlane, 1)] else [])
    + [Ue(h.lumaDepth), Ue(h.chromaDepth), Bits(h.qpprimeBypass, 1), Bits(h.scalingMatrix, 1)]
  }

  function Numbers(numbers: seq<int>): seq<Element> {
    if numbers == [] then [] else [Se(numbers[0])] + Numbers(numbers[1..])
  }

  function ListsSyntax(lists: seq<Option<seq<int>>>): seq<Element> {
    if lists == [] then []
    else if lists[0].None? then [Bits(0, 1)] + ListsSyntax(lists[1..])
    else [Bits(1, 1)] + Numbers(lists[0].value) + ListsSyntax(lists[1..])
  }

  function PocSyntax(c: Poc): seq<Element> {
    [Ue(c.log2MaxFrameNum), Ue(c.kind)]
    + if c.kind == 0 then [Ue(c.log2MaxLsb)]
      else if c.kind == 1 then
        [Bits(c.deltaAlwaysZero, 1), Se(c.offsetNonRef), Se(c.offsetTopBottom), Ue(c.refFramesInCycle)]
      else []
  }

  function SizeSyntax(f: Frame): seq<Element> {
    [Ue(f.refFrames), Bits(f.gapsAllowed, 1), Ue(f.widthMbs), Ue(f.heightUnits), Bits(f.frameMbsOnly, 1)]
    + (if f.frameMbsOnly == 0 then [Bits(f.mbAdaptive, 1)] else [])
    + [Bits(f.direct8x8, 1), Bits(f.cropping, 1)]
  }

  function CropSyntax(f: Frame): seq<Element> {
    if f.cropping == 0 then [] else [Ue(f.cropLeft), Ue(f.cropRight), Ue(f.cropTop), Ue(f.cropBottom)]
  }

  function AspectSyntax(v: VuiHead): seq<Element> {
    if v.aspectPresent == 0 then [Bits(0, 1)]
    else if v.aspectIdc != 255 then [Bits(1, 1), Bits(v.aspectIdc, 8)]
    else [Bits(1, 1), Bits(255, 8), Bits(v.sarWidth, 16), Bits(v.sarHeight, 16)]
  }

  function OverscanSyntax(v: VuiHead): seq<Element> {
    if v.overscanPresent == 0 then [Bits(0, 1)] else [Bits(1, 1), Bits(v.overscan, 1)]
  }

  function SignalSyntax(v: VuiHead, g: Signal): seq<Element> {
    if v.signalPresent == 0 then [Bits(0, 1)]
    else if g.colourPresent == 0 then [Bits(1, 1), Bits(v.videoFormat, 3), Bits(g.fullRange, 1), Bits(0, 1)]
    else [Bits(1, 1), Bits(v.videoFormat, 3), Bits(g.fullRange, 1), Bits(1, 1), Bits(g.colour, 24)]
  }

  function LocSyntax(v: VuiTail): seq<Element> {
    if v.chromaLocPresent == 0 then [Bits(0, 1)] else [Bits(1, 1), Ue(v.chromaLocTop), Ue(v.chromaLocBottom)]
  }

  function TimingSyntax(v: VuiTail): seq<Element> {
    if v.timingPresent == 0 then [Bits(0, 1)]
    else [Bits(1, 1), Bits(v.unitsInTick, 32), Bits(v.timeScale, 32), Bits(v.fixedRate, 1)]
  }

  function VuiSyntax(v: Vui): seq<Element> {
    AspectSyntax(v.head) + OverscanSyntax(v.head) + SignalSyntax(v.head, v.signal) + LocSyntax(v.tail)
    + TimingSyntax(v.tail)
  }

  /** Everything from profile_idc on; what follows is free. */
  function Syntax(s: SPS, x: Extra): seq<Element> {
    HeadSyntax(s)
    + (if s.profile in {100, 110, 122, 244, 44, 83, 86, 118, 128, 138, 139, 134, 135}
       then HighSyntax(s.high) + ListsSyntax(x.lists) else [])
    + (PocSyntax(s.poc) + Numbers(x.offsets))
    + (SizeSyntax(s.frame) + CropSyntax(s.frame))
    + (if s.vuiPresent == 0 then [Bits(0, 1)] else [Bits(1, 1)] + VuiSyntax(s.vui))
  }

  // ---------------------------------------------------------------- values that are not in the tables

  /** Deltas are coded until the scale becomes zero or the list is full. */
  predicate ListFits(deltas: seq<int>, size: nat, last: int)
    decreases size
  {
    if size == 0 then deltas == []
    else
      && deltas != [] && -128 <= deltas[0] <= 127
      && var next := (last + deltas[0] + 256) % 256;
         if next == 0 then |deltas| == 1 else ListFits(deltas[1..], size - 1, next)
  }

  predicate ListsFit(h: High, lists: seq<Option<seq<int>>>) {
    && |lists| == (if h.scalingMatrix == 0 then 0 else if h.chromaFormat == 3 then 12 else 8)
    && forall i :: 0 <= i < |lists| && lists[i].Some? ==> ListFits(lists[i].value, if i < 6 then 16 else 64, 8)
  }

  /** A value that is not transmitted is zero, and the lists have the lengths the table gives them. */
  predicate Normal(s: SPS, x: Extra) {
    && (if s.profile in {100, 110, 122, 244, 44, 83, 86, 118, 128, 138, 139, 134, 135}
        then ListsFit(s.high, x.lists) && (s.high.chromaFormat != 3 ==> s.high.separatePlane == 0)
        else s.high == High(0, 0, 0, 0, 0, 0) && x.lists == [])
    && (s.poc.kind != 0 ==> s.poc.log2MaxLsb == 0)
    && (if s.poc.kind == 1 then |x.offsets| == s.poc.refFramesInCycle
        else s.poc == Poc(s.poc.log2MaxFrameNum, s.poc.kind, s.poc.log2MaxLsb, 0, 0, 0, 0) && x.offsets == [])
    && (s.frame.frameMbsOnly != 0 ==> s.frame.mbAdaptive == 0)
    && (s.frame.cropping == 0 ==>
          s.frame.cropLeft == 0 && s.frame.cropRight == 0 && s.frame.cropTop == 0 && s.frame.cropBottom == 0)
    && NormalVui(s.vuiPresent, s.vui)
  }

  predicate NormalVui(present: nat, v: Vui) {
    && present <= 1 && (present == 0 ==> v == NO_VUI)
    && NormalHead(v.head) && NormalSignal(v.head, v.signal) && NormalTail(v.tail)
  }

  predicate NormalHead(h: VuiHead) {
    && h.aspectPresent <= 1 && (h.aspectPresent == 0 ==> h.aspectIdc == 0)
    && (h.aspectIdc != 255 ==> h.sarWidth == 0 && h.sarHeight == 0)
    && h.overscanPresent <= 1 && (h.overscanPresent == 0 ==> h.overscan == 0)
    && h.signalPresent <= 1 && (h.signalPresent == 0 ==> h.videoFormat == 0)
  }

  predicate NormalSignal(h: VuiHead, g: Signal) {
    && (h.signalPresent == 0 ==> g == Signal(0, 0, 0))
    && g.colourPresent <= 1 && (g.colourPresent == 0 ==> g.colour == 0)
  }

  predicate NormalTail(t: VuiTail) {
    && t.chromaLocPresent <= 1 && (t.chromaLocPresent == 0 ==> t.chromaLocTop == 0 && t.chromaLocBottom == 0)
    && t.timingPresent <= 1
    && (t.timingPresent == 0 ==> t.unitsInTick == 0 && t.timeScale == 0 && t.fixedRate == 0)
  }

  // ---------------------------------------------------------------- reading the parts

  lemma One(b: Buf, p: nat, es: seq<Element>, i: nat)
    requires Stands(b, p, es) && i < |es| && es[i].Bits? && es[i].width == 1
    ensures es[i].value <= 1
  {
    Read(b, p, es, i);
    Powers();
  }

  lemma HeadRead(b: Buf, s: SPS)
    requires Stands(b, 8, HeadSyntax(s))
    ensures U(b, 8, 8) == s.profile && U(b, 16, 8) == s.constraints && U(b, 24, 8) == s.level
    ensures UE(b, 32) == (s.id, Behind(8, HeadSyntax(s)))
  {
    var es := HeadSyntax(s);
    AtStart(8, es);
    Read(b, 8, es, 0);
    Read(b, 8, es, 1);
    Read(b, 8, es, 2);
    Read(b, 8, es, 3);
    hide UE, U, BitAt, At, Stands, Pow2;
  }

  lemma HighRead(b: Buf, p: nat, h: High)
    requires Stands(b, p, HighSyntax(h)) && (h.chromaFormat != 3 ==> h.separatePlane == 0)
    ensures HighFields(b, p) == (h, Behind(p, HighSyntax(h))) && h.scalingMatrix <= 1
  {
    hide UE, U, BitAt, At, Stands, Pow2;
    var es := HighSyntax(h);
    AtStart(p, es);
    Read(b, p, es, 0);
    Read(b, p, es, 1);
    Read(b, p, es, 2);
    Read(b, p, es, 3);
    Read(b, p, es, 4);
    One(b, p, es, |es| - 1);
    if h.chromaFormat == 3 {
      Read(b, p, es, 5);
    }
  }

  /** The first element of a table, and the rest behind it. */
  lemma First(b: Buf, p: nat, e: Element, es: seq<Element>)
    requires Stands(b, p, [e] + es)
    ensures Found(b, p, e, Behind(p, [e])) && Stands(b, Behind(p, [e]), es)
    ensures Behind(p, [e] + es) == Behind(Behind(p, [e]), es)
  {
    hide Found;
    StandsApart(b, p, [e], es);
    AtStart(p, [e]);
    Read(b, p, [e], 0);
  }

  lemma {:induction false} ListEnds(b: Buf, p: nat, size: nat, last: int)
    ensures ScalingList(b, p, size, last, 0) == p
  {
    if size > 0 {
      ListEnds(b, p, size - 1, last);
    }
  }

  lemma NextScaleIs(last: int, delta: int)
    requires 0 < last < 256 && -128 <= delta <= 127
    ensures NextScale(last, delta) == (last + delta + 256) % 256
  {
  }

  lemma {:induction false} ListRead(b: Buf, p: nat, deltas: seq<int>, size: nat, last: int)
    requires ListFits(deltas, size, last) && 0 < last < 256 && Stands(b, p, Numbers(deltas))
    ensures ScalingList(b, p, size, last, last) == Behind(p, Numbers(deltas))
    decreases size
  {
    hide UE, Stands, At, NextScale, Signed;
    if size == 0 {
      AtStart(p, []);
    } else {
      var rest := deltas[1..];
      First(b, p, Se(deltas[0]), Numbers(rest));
      NextScaleIs(last, deltas[0]);
      var next := (last + deltas[0] + 256) % 256;
      var p1 := Behind(p, [Se(deltas[0])]);
      if next == 0 {
        ListEnds(b, p1, size - 1, last);
        AtStart(p1, []);
      } else {
        ListRead(b, p1, rest, size - 1, next);
      }
    }
  }

  lemma {:induction false} ListsRead(b: Buf, p: nat, lists: seq<Option<seq<int>>>, i: nat)
    requires i <= |lists| && Stands(b, p, ListsSyntax(lists[i..]))
    requires forall j :: 0 <= j < |lists| && lists[j].Some? ==> ListFits(lists[j].value, if j < 6 then 16 else 64, 8)
    ensures Lists(b, p, i, |lists|) == Behind(p, ListsSyntax(lists[i..]))
    decreases |lists| - i
  {
    hide UE, U, Stands, At, BitAt, ListFits, ScalingList;
    if i == |lists| {
      AtStart(p, []);
    } else {
      assert lists[i..][1..] == lists[i + 1..];
      var rest := ListsSyntax(lists[i + 1..]);
      if lists[i].None? {
        First(b, p, Bits(0, 1), rest);
        assert Behind(p, [Bits(0, 1)]) == p + 1;
        ListsRead(b, p + 1, lists, i + 1);
      } else {
        var numbers := Numbers(lists[i].value);
        StandsApart(b, p, [Bits(1, 1)] + numbers, rest);
        First(b, p, Bits(1, 1), numbers);
        assert Behind(p, [Bits(1, 1)]) == p + 1;
        ListRead(b, p + 1, lists[i].value, if i < 6 then 16 else 64, 8);
        ListsRead(b, Behind(p + 1, numbers), lists, i + 1);
      }
    }
  }

  lemma {:induction false} NumbersRead(b: Buf, p: nat, numbers: seq<int>)
    requires Stands(b, p, Numbers(numbers))
    ensures SkipCodes(b, p, |numbers|) == Behind(p, Numbers(numbers))
    decreases |numbers|
  {
    hide UE, Stands, At, Signed;
    if numbers == [] {
      AtStart(p, []);
    } else {
      First(b, p, Se(numbers[0]), Numbers(numbers[1..]));
      NumbersRead(b, Behind(p, [Se(numbers[0])]), numbers[1..]);
    }
  }

  lemma PocFieldsRead(b: Buf, p: nat, c: Poc)
    requires Stands(b, p, PocSyntax(c)) && (c.kind != 0 ==> c.log2MaxLsb == 0)
    requires c.kind != 1 ==> c == Poc(c.log2MaxFrameNum, c.kind, c.log2MaxLsb, 0, 0, 0, 0)
    ensures var p1 := Behind(p, PocSyntax(c));
            PocAt(b, p) == (c, if c.kind == 1 then SkipCodes(b, p1, c.refFramesInCycle) else p1)
  {
    hide UE, U, BitAt, At, Stands, Pow2, SkipCodes, Signed;
    var es := PocSyntax(c);
    AtStart(p, es);
    Read(b, p, es, 0);
    Read(b, p, es, 1);
    if c.kind == 0 {
      Read(b, p, es, 2);
    } else if c.kind == 1 {
      Read(b, p, es, 2);
      Read(b, p, es, 3);
      Read(b, p, es, 4);
      Read(b, p, es, 5);
    }
  }

  lemma PocRead(b: Buf, p: nat, c: Poc, offsets: seq<int>)
    requires Stands(b, p, PocSyntax(c) + Numbers(offsets)) && (c.kind != 0 ==> c.log2MaxLsb == 0)
    requires if c.kind == 1 then |offsets| == c.refFramesInCycle
             else c == Poc(c.log2MaxFrameNum, c.kind, c.log2MaxLsb, 0, 0, 0, 0) && offsets == []
    ensures PocAt(b, p) == (c, Behind(p, PocSyntax(c) + Numbers(offsets)))
  {
    hide PocAt, PocSyntax, SkipCodes, Stands, At, Numbers;
    StandsApart(b, p, PocSyntax(c), Numbers(offsets));
    PocFieldsRead(b, p, c);
    if c.kind == 1 {
      NumbersRead(b, Behind(p, PocSyntax(c)), offsets);
    } else {
      NoNumbers();
      AtStart(Behind(p, PocSyntax(c)), []);
    }
  }

  lemma NoNumbers()
    ensures Numbers([]) == []
  {
  }

  lemma SizeRead(b: Buf, p: nat, f: Frame)
    requires Stands(b, p, SizeSyntax(f)) && (f.frameMbsOnly != 0 ==> f.mbAdaptive == 0)
    ensures SizeAt(b, p) ==
            (f.(cropLeft := 0, cropRight := 0, cropTop := 0, cropBottom := 0), Behind(p, SizeSyntax(f)))
    ensures f.cropping <= 1
  {
    hide UE, U, BitAt, At, Stands, Pow2;
    var es := SizeSyntax(f);
    AtStart(p, es);
    Read(b, p, es, 0);
    Read(b, p, es, 1);
    Read(b, p, es, 2);
    Read(b, p, es, 3);
    Read(b, p, es, 4);
    Read(b, p, es, 5);
    Read(b, p, es, 6);
    One(b, p, es, |es| - 1);
    if f.frameMbsOnly == 0 {
      Read(b, p, es, 7);
    }
  }

  lemma FrameRead(b: Buf, p: nat, f: Frame)
    requires Stands(b, p, SizeSyntax(f) + CropSyntax(f)) && (f.frameMbsOnly != 0 ==> f.mbAdaptive == 0)
    requires f.cropping == 0 ==> f.cropLeft == 0 && f.cropRight == 0 && f.cropTop == 0 && f.cropBottom == 0
    ensures FrameAt(b, p) == (f, Behind(p, SizeSyntax(f) + CropSyntax(f)))
  {
    hide UE, U, BitAt, At, Stands, Pow2, SizeAt, SizeSyntax;
    StandsApart(b, p, SizeSyntax(f), CropSyntax(f));
    SizeRead(b, p, f);
    var p1, es := Behind(p, SizeSyntax(f)), CropSyntax(f);
    AtStart(p1, es);
    if f.cropping != 0 {
      Read(b, p1, es, 0);
      Read(b, p1, es, 1);
      Read(b, p1, es, 2);
      Read(b, p1, es, 3);
    }
  }

  lemma AspectRead(b: Buf, p: nat, v: VuiHead)
    requires Stands(b, p, AspectSyntax(v)) && NormalHead(v)
    ensures AspectEnd(b, p) == Behind(p, AspectSyntax(v)) && BitAt(b, p) == v.aspectPresent
    ensures v.aspectPresent == 1 ==>
              U(b, p + 1, 8) == v.aspectIdc
              && (v.aspectIdc == 255 ==> U(b, p + 9, 16) == v.sarWidth && U(b, p + 25, 16) == v.sarHeight)
  {
    hide UE, U, BitAt, At, Stands, Pow2;
    var es := AspectSyntax(v);
    AtStart(p, es);
    Read(b, p, es, 0);
    if v.aspectPresent == 1 {
      Read(b, p, es, 1);
      if v.aspectIdc == 255 {
        Read(b, p, es, 2);
        Read(b, p, es, 3);
      }
    }
  }

  lemma OverscanRead(b: Buf, p: nat, v: VuiHead)
    requires Stands(b, p, OverscanSyntax(v)) && NormalHead(v)
    ensures BitAt(b, p) == v.overscanPresent && (v.overscanPresent == 1 ==> BitAt(b, p + 1) == v.overscan)
    ensures Behind(p, OverscanSyntax(v)) == p + 1 + v.overscanPresent
  {
    hide UE, U, BitAt, At, Stands, Pow2;
    var es := OverscanSyntax(v);
    AtStart(p, es);
    Read(b, p, es, 0);
    if v.overscanPresent == 1 {
      Read(b, p, es, 1);
    }
  }

  lemma SignalRead(b: Buf, p: nat, v: VuiHead, g: Signal)
    requires Stands(b, p, SignalSyntax(v, g)) && NormalHead(v) && NormalSignal(v, g)
    ensures BitAt(b, p) == v.signalPresent && (v.signalPresent == 0 ==> Behind(p, SignalSyntax(v, g)) == p + 1)
    ensures v.signalPresent == 1 ==>
              U(b, p + 1, 3) == v.videoFormat && SignalAt(b, p + 4) == (g, Behind(p, SignalSyntax(v, g)))
  {
    hide UE, U, BitAt, At, Stands, Pow2;
    var es := SignalSyntax(v, g);
    AtStart(p, es);
    Read(b, p, es, 0);
    if v.signalPresent == 1 {
      Read(b, p, es, 1);
      Read(b, p, es, 2);
      Read(b, p, es, 3);
      if g.colourPresent == 1 {
        Read(b, p, es, 4);
      }
    }
  }

  lemma TailRead(b: Buf, p: nat, t: VuiTail)
    requires Stands(b, p, LocSyntax(t)) && Stands(b, Behind(p, LocSyntax(t)), TimingSyntax(t)) && NormalTail(t)
    ensures VuiTailAt(b, p) == (t, Behind(Behind(p, LocSyntax(t)), TimingSyntax(t)))
  {
    hide UE, U, BitAt, At, Stands, Pow2;
    var es, fs := LocSyntax(t), TimingSyntax(t);
    AtStart(p, es);
    Read(b, p, es, 0);
    if t.chromaLocPresent == 1 {
      Read(b, p, es, 1);
      Read(b, p, es, 2);
    }
    var p1 := Behind(p, es);
    AtStart(p1, fs);
    Read(b, p1, fs, 0);
    if t.timingPresent == 1 {
      Read(b, p1, fs, 1);
      Read(b, p1, fs, 2);
      Read(b, p1, fs, 3);
    }
  }

  lemma VuiRead(b: Buf, p: nat, v: Vui)
    requires Stands(b, p, VuiSyntax(v)) && NormalVui(1, v)
    ensures VuiAt(b, p) == (v, Behind(p, VuiSyntax(v)))
  {
    hide UE, U, BitAt, At, Behind, Stands, Pow2, AspectSyntax, OverscanSyntax, SignalSyntax, LocSyntax, TimingSyntax,
      SignalAt, VuiTailAt, AspectEnd;
    var a, o, g, l := AspectSyntax(v.head), OverscanSyntax(v.head), SignalSyntax(v.head, v.signal), LocSyntax(v.tail);
    StandsApart(b, p, a + o + g + l, TimingSyntax(v.tail));
    StandsApart(b, p, a + o + g, l);
    StandsApart(b, p, a + o, g);
    StandsApart(b, p, a, o);
    AspectRead(b, p, v.head);
    OverscanRead(b, Behind(p, a), v.head);
    SignalRead(b, Behind(p, a + o), v.head, v.signal);
    TailRead(b, Behind(p, a + o + g), v.tail);
  }

  // ---------------------------------------------------------------- the whole set

  lemma HighPartRead(b: Buf, p: nat, s: SPS, x: Extra)
    requires HasHigh(s.profile) && Normal(s, x) && Stands(b, p, HighSyntax(s.high) + ListsSyntax(x.lists))
    ensures HighAt(b, p) == (s.high, Behind(p, HighSyntax(s.high) + ListsSyntax(x.lists)))
  {
    hide UE, U, BitAt, At, Stands, Pow2, HighFields, HighSyntax, Lists, ListFits;
    StandsApart(b, p, HighSyntax(s.high), ListsSyntax(x.lists));
    HighRead(b, p, s.high);
    var p1 := Behind(p, HighSyntax(s.high));
    if s.high.scalingMatrix != 0 {
      assert x.lists[0..] == x.lists;
      ListsRead(b, p1, x.lists, 0);
    } else {
      NoLists();
      AtStart(p1, []);
    }
  }

  lemma NoLists()
    ensures ListsSyntax([]) == []
  {
  }

  function ProfilePart(s: SPS, x: Extra): seq<Element> {
    if s.profile in {100, 110, 122, 244, 44, 83, 86, 118, 128, 138, 139, 134, 135}
    then HighSyntax(s.high) + ListsSyntax(x.lists) else []
  }

  function VuiPart(s: SPS): seq<Element> {
    if s.vuiPresent == 0 then [Bits(0, 1)] else [Bits(1, 1)] + VuiSyntax(s.vui)
  }

  function FrontSyntax(s: SPS, x: Extra): seq<Element> {
    HeadSyntax(s) + ProfilePart(s, x) + (PocSyntax(s.poc) + Numbers(x.offsets))
    + (SizeSyntax(s.frame) + CropSyntax(s.frame))
  }

  lemma FrontRead(b: Buf, s: SPS, x: Extra)
    requires Normal(s, x) && Stands(b, 8, FrontSyntax(s, x))
    ensures Front(b) == (s.(vuiPresent := 0, vui := NO_VUI), Behind(8, FrontSyntax(s, x)))
  {
    hide UE, U, BitAt, At, Behind, Stands, Pow2, HeadSyntax, HighSyntax, ListsSyntax, PocSyntax, Numbers, SizeSyntax,
      CropSyntax, HighAt, PocAt, FrameAt, NormalVui, ListsFit;
    var h, g := HeadSyntax(s), ProfilePart(s, x);
    var c, f := PocSyntax(s.poc) + Numbers(x.offsets), SizeSyntax(s.frame) + CropSyntax(s.frame);
    StandsApart(b, 8, h + g + c, f);
    StandsApart(b, 8, h + g, c);
    StandsApart(b, 8, h, g);
    HeadRead(b, s);
    if HasHigh(s.profile) {
      HighPartRead(b, Behind(8, h), s, x);
    } else {
      NothingBehind(Behind(8, h));
    }
    PocRead(b, Behind(8, h + g), s.poc, x.offsets);
    FrameRead(b, Behind(8, h + g + c), s.frame);
  }

  lemma NothingBehind(p: nat)
    ensures Behind(p, []) == p
  {
  }

  /** The bits behind the front: no VUI, or the flag and the VUI. */
  lemma VuiPartRead(b: Buf, p: nat, s: SPS)
    requires Stands(b, p, VuiPart(s)) && NormalVui(s.vuiPresent, s.vui)
    ensures BitAt(b, p) == s.vuiPresent && Behind(p, VuiPart(s)) <= 8 * |b|
    ensures s.vuiPresent == 0 ==> Behind(p, VuiPart(s)) == p + 1
    ensures s.vuiPresent == 1 ==> VuiAt(b, p + 1) == (s.vui, Behind(p, VuiPart(s)))
  {
    hide UE, U, BitAt, At, Stands, Pow2, VuiSyntax, VuiAt;
    LastRead(b, p, VuiPart(s));
    if s.vuiPresent == 0 {
      AtStart(p, [Bits(0, 1)]);
      Read(b, p, [Bits(0, 1)], 0);
    } else {
      First(b, p, Bits(1, 1), VuiSyntax(s.vui));
      assert Behind(p, [Bits(1, 1)]) == p + 1;
      VuiRead(b, p + 1, s.vui);
    }
  }

  lemma LastRead(b: Buf, p: nat, es: seq<Element>)
    requires Stands(b, p, es) && es != []
    ensures Behind(p, es) <= 8 * |b|
  {
    hide At, Stands, UE, U, BitAt;
    Read(b, p, es, |es| - 1);
  }

  lemma DecodedIs(b: Buf, s: SPS, p: nat, end: nat)
    requires b != [] && b[0] % 32 == 7 && Front(b) == (s.(vuiPresent := 0, vui := NO_VUI), p)
    requires s.vuiPresent <= 1 && (s.vuiPresent == 0 ==> s.vui == NO_VUI && end == p + 1)
    requires BitAt(b, p) == s.vuiPresent && (s.vuiPresent == 1 ==> VuiAt(b, p + 1) == (s.vui, end)) && end <= 8 * |b|
    ensures Decoded(b) == Some(s)
  {
    hide UE, U, BitAt, Front, VuiAt;
    UByte(b, 0);
  }

  /**
   * Whatever parameter set is written down in the syntax of the standard, the decoder returns: every value in its
   * own field, whatever follows behind the part that is read.
   */
  lemma DecodesSyntax(b: Buf, s: SPS, x: Extra)
    requires b != [] && b[0] % 32 == 7 && Normal(s, x) && Stands(b, 8, Syntax(s, x))
    ensures Decoded(b) == Some(s)
  {
    hide *;
    var front, vui := FrontSyntax(s, x), VuiPart(s);
    SyntaxParts(s, x);
    VuiPresent(s, x);
    StandsApart(b, 8, front, vui);
    FrontRead(b, s, x);
    VuiPartRead(b, Behind(8, front), s);
    DecodedIs(b, s, Behind(8, front), Behind(Behind(8, front), vui));
  }

  lemma SyntaxParts(s: SPS, x: Extra)
    ensures Syntax(s, x) == FrontSyntax(s, x) + VuiPart(s)
  {
  }

  lemma VuiPresent(s: SPS, x: Extra)
    requires Normal(s, x)
    ensures s.vuiPresent <= 1 && (s.vuiPresent == 0 ==> s.vui == NO_VUI) && NormalVui(s.vuiPresent, s.vui)
  {
  }
}
