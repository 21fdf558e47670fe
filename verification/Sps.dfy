/**
 * The two walkers over an H.264 sequence parameter set (pkg/h264/sps.go): `DecodeSPS` reads the fields
 * of section 7.3.2.1.1 and E.1.1 of ITU-T H.264, `FixPixFmt` skips to video_full_range_flag and clears
 * it in place. They are modelled separately, as they are written, and proved to stay in lockstep.
 */
module Sps {
  import opened Wrappers
  import opened Arithmetic
  import opened Bytes
  import opened BitReader

  const NALU_SPS := 7

  datatype High = High(chromaFormat: nat, separatePlane: nat, lumaDepth: nat, chromaDepth: nat,
                       qpprimeBypass: nat, scalingMatrix: nat)

  datatype Poc = Poc(log2MaxFrameNum: nat, kind: nat, log2MaxLsb: nat, deltaAlwaysZero: nat,
                     offsetNonRef: int, offsetTopBottom: int, refFramesInCycle: nat)

  datatype Frame = Frame(refFrames: nat, gapsAllowed: nat, widthMbs: nat, heightUnits: nat,
                         frameMbsOnly: nat, mbAdaptive: nat, direct8x8: nat,
                         cropping: nat, cropLeft: nat, cropRight: nat, cropTop: nat, cropBottom: nat)

  /** The VUI fields up to video_format. */
  datatype VuiHead = VuiHead(aspectPresent: nat, aspectIdc: nat, sarWidth: nat, sarHeight: nat,
                             overscanPresent: nat, overscan: nat, signalPresent: nat, videoFormat: nat)

  datatype Signal = Signal(fullRange: nat, colourPresent: nat, colour: nat)

  datatype VuiTail = VuiTail(chromaLocPresent: nat, chromaLocTop: nat, chromaLocBottom: nat,
                             timingPresent: nat, unitsInTick: nat, timeScale: nat, fixedRate: nat)

  datatype Vui = Vui(head: VuiHead, signal: Signal, tail: VuiTail)

  datatype SPS = SPS(profile: nat, constraints: nat, level: nat, id: nat,
                     high: High, poc: Poc, frame: Frame, vuiPresent: nat, vui: Vui)

  const NO_HIGH := High(0, 0, 0, 0, 0, 0)
  const NO_SIGNAL := Signal(0, 0, 0)
  const NO_VUI := Vui(VuiHead(0, 0, 0, 0, 0, 0, 0, 0), NO_SIGNAL, VuiTail(0, 0, 0, 0, 0, 0, 0))

  predicate HasHigh(profile: nat) {
    profile in {100, 110, 122, 244, 44, 83, 86, 118, 128, 138, 139, 134, 135}
  }

  // ---------------------------------------------------------------- DecodeSPS on the simple reader

  function Wrap32(x: int): int {
    (x + 0x80_00_00_00) % MAX32 - 0x80_00_00_00
  }

  /** Go's remainder, which takes the sign of the dividend. */
  function Rem256(x: int): int {
    if x >= 0 then x % 256 else -(-x % 256)
  }

  function NextScale(last: int, delta: int): int {
    Rem256(Wrap32(last + delta + 256))
  }

  /** Cursor behind a scaling list of `size` entries. */
  function ScalingList(b: Buf, p: nat, size: nat, last: int, next: int): (r: nat)
    ensures r >= p
    decreases size
  {
    if size == 0 then p
    else if next == 0 then ScalingList(b, p, size - 1, last, next)
    else
      var n := NextScale(last, Signed(UE(b, p).0));
      ScalingList(b, UE(b, p).1, size - 1, if n != 0 then n else last, n)
  }

  /** Cursor behind the scaling lists `i..n`. */
  function Lists(b: Buf, p: nat, i: nat, n: nat): (r: nat)
    requires i <= n
    ensures r >= p
    decreases n - i
  {
    if i == n then p
    else if BitAt(b, p) == 0 then Lists(b, p + 1, i + 1, n)
    else Lists(b, ScalingList(b, p + 1, if i < 6 then 16 else 64, 8, 8), i + 1, n)
  }

  function ListCount(chromaFormat: nat): nat {
    if chromaFormat == 3 then 12 else 8
  }

  /** The fields of the high profiles and the cursor behind the scaling-matrix flag. */
  function HighFields(b: Buf, p: nat): (r: (High, nat))
    ensures r.1 >= p
  {
    var (cfi, p1) := UE(b, p);
    var p2 := if cfi == 3 then p1 + 1 else p1;
    var (luma, p3) := UE(b, p2);
    var (chroma, p4) := UE(b, p3);
    (High(cfi, if cfi == 3 then BitAt(b, p1) else 0, luma, chroma, BitAt(b, p4), BitAt(b, p4 + 1)), p4 + 2)
  }

  function HighAt(b: Buf, p: nat): (r: (High, nat))
    ensures r.1 >= p
  {
    var (h, p1) := HighFields(b, p);
    (h, if h.scalingMatrix != 0 then Lists(b, p1, 0, ListCount(h.chromaFormat)) else p1)
  }

  /** Cursor behind `k` Exp-Golomb codes. */
  function SkipCodes(b: Buf, p: nat, k: nat): (r: nat)
    ensures r >= p
    decreases k
  {
    if k == 0 then p else SkipCodes(b, UE(b, p).1, k - 1)
  }

  function PocAt(b: Buf, p: nat): (r: (Poc, nat))
    ensures r.1 >= p
  {
    var (frameNum, p1) := UE(b, p);
    var (kind, p2) := UE(b, p1);
    if kind == 0 then
      var (lsb, p3) := UE(b, p2);
      (Poc(frameNum, kind, lsb, 0, 0, 0, 0), p3)
    else if kind == 1 then
      var (nonRef, p3) := UE(b, p2 + 1);
      var (topBottom, p4) := UE(b, p3);
      var (cycle, p5) := UE(b, p4);
      (Poc(frameNum, kind, 0, BitAt(b, p2), Signed(nonRef), Signed(topBottom), cycle), SkipCodes(b, p5, cycle))
    else (Poc(frameNum, kind, 0, 0, 0, 0, 0), p2)
  }

  function SizeAt(b: Buf, p: nat): (r: (Frame, nat))
    ensures r.1 >= p
  {
    var (refFrames, p1) := UE(b, p);
    var (width, p2) := UE(b, p1 + 1);
    var (height, p3) := UE(b, p2);
    var mbsOnly := BitAt(b, p3);
    var p4 := if mbsOnly == 0 then p3 + 2 else p3 + 1;
    (Frame(refFrames, BitAt(b, p1), width, height, mbsOnly, if mbsOnly == 0 then BitAt(b, p3 + 1) else 0,
           BitAt(b, p4), BitAt(b, p4 + 1), 0, 0, 0, 0), p4 + 2)
  }

  function CropAt(b: Buf, p: nat, f: Frame): (r: (Frame, nat))
    ensures r.1 >= p
  {
    if f.cropping == 0 then (f, p)
    else
      var (left, p1) := UE(b, p);
      var (right, p2) := UE(b, p1);
      var (top, p3) := UE(b, p2);
      var (bottom, p4) := UE(b, p3);
      (f.(cropLeft := left, cropRight := right, cropTop := top, cropBottom := bottom), p4)
  }

  function FrameAt(b: Buf, p: nat): (r: (Frame, nat))
    ensures r.1 >= p
  {
    var (f, p1) := SizeAt(b, p);
    CropAt(b, p1, f)
  }

  function AspectEnd(b: Buf, p: nat): (r: nat)
    ensures r > p
  {
    if BitAt(b, p) == 0 then p + 1 else if U(b, p + 1, 8) == 255 then p + 41 else p + 9
  }

  function VuiHeadAt(b: Buf, p: nat): (r: (VuiHead, nat))
    ensures r.1 >= p
  {
    var aspect := BitAt(b, p);
    var idc := if aspect != 0 then U(b, p + 1, 8) else 0;
    var sar := aspect != 0 && idc == 255;
    var p1 := AspectEnd(b, p);
    var overscan := BitAt(b, p1);
    var p2 := if overscan != 0 then p1 + 2 else p1 + 1;
    var signal := BitAt(b, p2);
    (VuiHead(aspect, idc, if sar then U(b, p + 9, 16) else 0, if sar then U(b, p + 25, 16) else 0,
             overscan, if overscan != 0 then BitAt(b, p1 + 1) else 0,
             signal, if signal != 0 then U(b, p2 + 1, 3) else 0),
     if signal != 0 then p2 + 4 else p2 + 1)
  }

  function SignalAt(b: Buf, p: nat): (r: (Signal, nat))
    ensures r.1 > p
  {
    var colour := BitAt(b, p + 1);
    (Signal(BitAt(b, p), colour, if colour != 0 then U(b, p + 2, 24) else 0), if colour != 0 then p + 26 else p + 2)
  }

  function VuiTailAt(b: Buf, p: nat): (VuiTail, nat) {
    var loc := BitAt(b, p);
    var (top, p1) := if loc != 0 then UE(b, p + 1) else (0, p + 1);
    var (bottom, p2) := if loc != 0 then UE(b, p1) else (0, p1);
    var timing := BitAt(b, p2);
    (VuiTail(loc, top, bottom, timing,
             if timing != 0 then U(b, p2 + 1, 32) else 0, if timing != 0 then U(b, p2 + 33, 32) else 0,
             if timing != 0 then BitAt(b, p2 + 65) else 0),
     if timing != 0 then p2 + 66 else p2 + 1)
  }

  function VuiAt(b: Buf, p: nat): (Vui, nat) {
    var (head, p1) := VuiHeadAt(b, p);
    var (signal, p2) := if head.signalPresent != 0 then SignalAt(b, p1) else (NO_SIGNAL, p1);
    var (tail, p3) := VuiTailAt(b, p2);
    (Vui(head, signal, tail), p3)
  }

  /** Everything in front of the VUI: the set without it, and the cursor at vui_parameters_present_flag. */
  function Front(b: Buf): (SPS, nat) {
    var (id, p1) := UE(b, 32);
    var profile := U(b, 8, 8);
    var (high, p2) := if HasHigh(profile) then HighAt(b, p1) else (NO_HIGH, p1);
    var (poc, p3) := PocAt(b, p2);
    var (frame, p4) := FrameAt(b, p3);
    (SPS(profile, U(b, 16, 8), U(b, 24, 8), id, high, poc, frame, 0, NO_VUI), p4)
  }

  /** The parameter set and the final cursor. */
  function Fields(b: Buf): (SPS, nat) {
    var (s, p) := Front(b);
    if BitAt(b, p) == 0 then (s, p + 1)
    else
      var (vui, p1) := VuiAt(b, p + 1);
      (s.(vuiPresent := BitAt(b, p), vui := vui), p1)
  }

  /** `DecodeSPS`: nothing for another NAL unit type or when the data ran out. */
  function Decoded(b: Buf): Option<SPS> {
    if U(b, 0, 8) % 32 != NALU_SPS then None
    else
      var (s, p) := Fields(b);
      if p > 8 * |b| then None else Some(s)
  }

  // ---------------------------------------------------------------- FixPixFmt on the simple reader

  /** All list-present bits are zero. */
  predicate NoLists(b: Buf, p: nat, i: nat, n: nat)
    requires i <= n
    decreases n - i
  {
    i == n || (BitAt(b, p) == 0 && NoLists(b, p + 1, i + 1, n))
  }

  /** Cursor behind the high-profile fields; None where the walker gives up on a scaling list. */
  function HighEnd(b: Buf, p: nat): Option<nat> {
    var p1 := UE(b, p).1;
    var n := if UE(b, p).0 == 3 then 12 else 8;
    var p2 := if UE(b, p).0 == 3 then p1 + 1 else p1;
    var p3 := UE(b, UE(b, p2).1).1 + 1;
    if BitAt(b, p3) == 0 then Some(p3 + 1)
    else if NoLists(b, p3 + 1, 0, n) then Some(p3 + 1 + n)
    else None
  }

  function PocEnd(b: Buf, p: nat): nat {
    var (kind, p1) := UE(b, UE(b, p).1);
    if kind == 0 then UE(b, p1).1
    else if kind == 1 then
      var (n, p2) := UE(b, UE(b, UE(b, p1 + 1).1).1);
      SkipCodes(b, p2, n)
    else p1
  }

  /** The cropping flag, and the cursor behind it. */
  function SizeEnd(b: Buf, p: nat): (nat, nat) {
    var p1 := UE(b, UE(b, UE(b, p).1 + 1).1).1;
    var p2 := if BitAt(b, p1) == 0 then p1 + 2 else p1 + 1;
    (BitAt(b, p2 + 1), p2 + 2)
  }

  function FrameEnd(b: Buf, p: nat): nat {
    var (cropping, p1) := SizeEnd(b, p);
    if cropping == 0 then p1 else UE(b, UE(b, UE(b, UE(b, p1).1).1).1).1
  }

  /** Position of video_full_range_flag from the start of the VUI, if it is there. */
  function FlagFrom(b: Buf, p: nat): Option<nat> {
    var p1 := AspectEnd(b, p);
    var p2 := if BitAt(b, p1) != 0 then p1 + 2 else p1 + 1;
    if BitAt(b, p2) == 0 then None else Some(p2 + 4)
  }

  /** Position of video_full_range_flag, if the walker reaches it. */
  function FlagAt(b: Buf): Option<nat> {
    var p1 := UE(b, 32).1;
    var p2 := if HasHigh(U(b, 8, 8)) then HighEnd(b, p1) else Some(p1);
    if p2.None? then None
    else
      var p3 := FrameEnd(b, PocEnd(b, p2.value));
      if BitAt(b, p3) == 0 then None else FlagFrom(b, p3 + 1)
  }

  /** A byte with bit `i`, counted from the most significant, cleared. */
  function Cleared(x: Byte, i: nat): Byte
    requires i < 8
  {
    ClearedFits(x, i);
    x - BitOf(x, i) * Pow2(7 - i)
  }

  function Fixed(b: Buf): (r: Buf)
    ensures |r| == |b|
  {
    match FlagAt(b)
    case Some(q) =>
      if BitAt(b, q) == 1 && q / 8 < |b| then b[q / 8 := Cleared(b[q / 8], q % 8)] else b
    case None => b
  }

  // ---------------------------------------------------------------- clearing one bit

  lemma {:induction false} ShiftSplit(x: nat, k: nat)
    ensures x == Shift(x, k) * Pow2(k) + Low(x, k) && Low(x, k) < Pow2(k)
  {
    if k > 0 {
      ShiftSplit(x, k - 1);
      HalfSplit(Shift(x, k - 1), Pow2(k - 1), Low(x, k - 1));
    }
  }

  /** The `k` low bits of a number. */
  function Low(x: nat, k: nat): nat {
    if k == 0 then 0 else Shift(x, k - 1) % 2 * Pow2(k - 1) + Low(x, k - 1)
  }

  lemma HalfSplit(h: nat, k: nat, low: nat)
    ensures h * k + low == h / 2 * (2 * k) + (h % 2 * k + low)
    ensures low < k ==> h % 2 * k + low < 2 * k
  {
    assert h == h / 2 * 2 + h % 2;
  }

  lemma ClearedFits(x: Byte, i: nat)
    requires i < 8
    ensures 0 <= x - BitOf(x, i) * Pow2(7 - i) < 256
  {
    ShiftSplit(x, 7 - i);
    var h := Shift(x, 7 - i);
    assert h % 2 <= h;
    MulMono(h % 2, h, Pow2(7 - i));
  }

  lemma {:induction false} ShiftSub(x: nat, y: nat, k: nat, m: nat)
    requires x == y + Pow2(k) && Shift(x, k) % 2 == 1
    ensures Shift(x, m) == Shift(y, m) + (if m <= k then Pow2(k - m) else 0)
  {
    if m > 0 {
      ShiftSub(x, y, k, m - 1);
      if m <= k {
        assert Pow2(k - (m - 1)) == 2 * Pow2(k - m);
      } else if m == k + 1 {
        assert Pow2(0) == 1;
      }
    }
  }

  /** Clearing a set bit changes that bit of the byte and no other. */
  lemma ClearedBits(x: Byte, i: nat, j: nat)
    requires i < 8 && j < 8 && BitOf(x, i) == 1
    ensures BitOf(Cleared(x, i), j) == if i == j then 0 else BitOf(x, j)
  {
    var k, m := 7 - i, 7 - j;
    ShiftSub(x, Cleared(x, i), k, m);
    if m < k {
      assert Pow2(k - m) == 2 * Pow2(k - m - 1);
    } else if m == k {
      assert Pow2(0) == 1;
    }
  }

  /** `c` is `b` with bit `q` cleared. */
  ghost predicate OneBitCleared(b: Buf, c: Buf, q: nat) {
    |b| == |c| && BitAt(c, q) == 0 && forall p: nat :: p != q ==> BitAt(c, p) == BitAt(b, p)
  }

  lemma FixedClearsOneBit(b: Buf)
    ensures Fixed(b) == b || (FlagAt(b).Some? && BitAt(b, FlagAt(b).value) == 1 && OneBitCleared(b, Fixed(b), FlagAt(b).value))
  {
    hide FlagAt;
    if FlagAt(b).Some? && BitAt(b, FlagAt(b).value) == 1 {
      var q, c := FlagAt(b).value, Fixed(b);
      forall p: nat ensures BitAt(c, p) == if p == q then 0 else BitAt(b, p) {
        if p / 8 == q / 8 && p / 8 < |b| {
          ClearedBits(b[q / 8], q % 8, p % 8);
          assert p == q <==> p % 8 == q % 8;
        }
      }
    }
  }

  // ---------------------------------------------------------------- reads that miss the cleared bit

  lemma {:induction false} UStable(b: Buf, c: Buf, q: nat, p: nat, n: nat)
    requires OneBitCleared(b, c, q) && (q < p || p + n <= q)
    ensures U(c, p, n) == U(b, p, n)
  {
    if n > 0 {
      UStable(b, c, q, p, n - 1);
      assert BitAt(c, p + n - 1) == BitAt(b, p + n - 1);
    }
  }

  lemma {:induction false} ZerosStable(b: Buf, c: Buf, q: nat, p: nat, k: nat)
    requires OneBitCleared(b, c, q) && k <= 32
    requires q < p || (if Zeros(b, p, k) == 32 then p + 32 <= q else p + Zeros(b, p, k) < q)
    ensures Zeros(c, p, k) == Zeros(b, p, k)
    decreases 32 - k
  {
    hide BitAt;
    if k < 32 {
      assert BitAt(c, p + k) == BitAt(b, p + k) by {
        assert p + k != q;
      }
      if !(BitAt(b, p + k) != 0 || p + k >= 8 * |b|) {
        ZerosStable(b, c, q, p, k + 1);
      }
    }
  }

  lemma UEStable(b: Buf, c: Buf, q: nat, p: nat)
    requires OneBitCleared(b, c, q) && (q < p || UE(b, p).1 <= q)
    ensures UE(c, p) == UE(b, p)
  {
    hide U, Zeros, BitAt, OneBitCleared;
    ZerosStable(b, c, q, p, 0);
    var size := Zeros(b, p, 0);
    UStable(b, c, q, if size == 32 then p + 32 else p + size + 1, size);
  }

  lemma BitStable(b: Buf, c: Buf, q: nat, p: nat)
    requires OneBitCleared(b, c, q) && p != q
    ensures BitAt(c, p) == BitAt(b, p)
  {
  }

  lemma {:induction false} CodesStable(b: Buf, c: Buf, q: nat, p: nat, k: nat)
    requires OneBitCleared(b, c, q) && SkipCodes(b, p, k) <= q
    ensures SkipCodes(c, p, k) == SkipCodes(b, p, k)
    decreases k
  {
    hide UE, OneBitCleared;
    if k > 0 {
      UEStable(b, c, q, p);
      CodesStable(b, c, q, UE(b, p).1, k - 1);
    }
  }

  lemma {:induction false} NoListsSkip(b: Buf, p: nat, i: nat, n: nat)
    requires i <= n && NoLists(b, p, i, n)
    ensures Lists(b, p, i, n) == p + (n - i)
    decreases n - i
  {
    hide ScalingList;
    if i < n {
      NoListsSkip(b, p + 1, i + 1, n);
    }
  }

  lemma {:induction false} NoListsStable(b: Buf, c: Buf, q: nat, p: nat, i: nat, n: nat)
    requires i <= n && OneBitCleared(b, c, q) && p + (n - i) <= q && NoLists(b, p, i, n)
    ensures NoLists(c, p, i, n)
    decreases n - i
  {
    hide BitAt;
    if i < n {
      BitStable(b, c, q, p);
      NoListsStable(b, c, q, p + 1, i + 1, n);
    }
  }

  // ---------------------------------------------------------------- the walkers stay in lockstep

  /** No scaling list is present in the high-profile fields at `p`. */
  predicate PlainHigh(b: Buf, p: nat) {
    var (h, p1) := HighFields(b, p);
    h.scalingMatrix == 0 || NoLists(b, p1, 0, ListCount(h.chromaFormat))
  }

  lemma HighLockstep(b: Buf, p: nat)
    ensures HighEnd(b, p) == if PlainHigh(b, p) then Some(HighAt(b, p).1) else None
  {
    hide UE, BitAt, Lists, NoLists;
    var (h, p1) := HighFields(b, p);
    if h.scalingMatrix != 0 && PlainHigh(b, p) {
      NoListsSkip(b, p1, 0, ListCount(h.chromaFormat));
    }
  }

  lemma PocLockstep(b: Buf, p: nat)
    ensures PocEnd(b, p) == PocAt(b, p).1
  {
    hide UE, BitAt;
  }

  lemma FrameLockstep(b: Buf, p: nat)
    ensures FrameEnd(b, p) == FrameAt(b, p).1
  {
    hide UE, BitAt;
  }

  lemma FlagLockstep(b: Buf, p: nat)
    ensures FlagFrom(b, p) == if VuiHeadAt(b, p).0.signalPresent != 0 then Some(VuiHeadAt(b, p).1) else None
  {
    hide U, BitAt;
  }

  // ---------------------------------------------------------------- parts in front of the flag

  lemma ListsStable(b: Buf, c: Buf, q: nat, p: nat, n: nat)
    requires OneBitCleared(b, c, q) && NoLists(b, p, 0, n) && Lists(b, p, 0, n) <= q
    ensures NoLists(c, p, 0, n) && Lists(c, p, 0, n) == Lists(b, p, 0, n)
  {
    hide OneBitCleared;
    NoListsSkip(b, p, 0, n);
    NoListsStable(b, c, q, p, 0, n);
    NoListsSkip(c, p, 0, n);
  }

  lemma HighStable(b: Buf, c: Buf, q: nat, p: nat)
    requires OneBitCleared(b, c, q) && PlainHigh(b, p) && HighAt(b, p).1 <= q
    ensures HighAt(c, p) == HighAt(b, p) && PlainHigh(c, p)
  {
    HighFieldsStable(b, c, q, p);
    hide UE, BitAt, OneBitCleared, HighFields, NoLists, Lists;
    var (h, p1) := HighFields(b, p);
    if h.scalingMatrix != 0 {
      ListsStable(b, c, q, p1, ListCount(h.chromaFormat));
    }
  }

  lemma HighFieldsStable(b: Buf, c: Buf, q: nat, p: nat)
    requires OneBitCleared(b, c, q) && HighAt(b, p).1 <= q
    ensures HighFields(c, p) == HighFields(b, p)
  {
    hide UE, BitAt, OneBitCleared, Lists;
    var p1 := UE(b, p).1;
    var p2 := if UE(b, p).0 == 3 then p1 + 1 else p1;
    var p3 := UE(b, p2).1;
    var p4 := UE(b, p3).1;
    assert HighFields(b, p).1 == p4 + 2;
    UEStable(b, c, q, p);
    UEStable(b, c, q, p2);
    UEStable(b, c, q, p3);
    BitStable(b, c, q, p1);
    BitStable(b, c, q, p4);
    BitStable(b, c, q, p4 + 1);
  }

  lemma PocStable(b: Buf, c: Buf, q: nat, p: nat)
    requires OneBitCleared(b, c, q) && PocAt(b, p).1 <= q
    ensures PocAt(c, p) == PocAt(b, p)
  {
    hide UE, BitAt, OneBitCleared, SkipCodes;
    var p1 := UE(b, p).1;
    var (kind, p2) := UE(b, p1);
    UEStable(b, c, q, p);
    UEStable(b, c, q, p1);
    if kind == 0 {
      UEStable(b, c, q, p2);
    } else if kind == 1 {
      var p3 := UE(b, p2 + 1).1;
      var p4 := UE(b, p3).1;
      var (cycle, p5) := UE(b, p4);
      UEStable(b, c, q, p2 + 1);
      UEStable(b, c, q, p3);
      UEStable(b, c, q, p4);
      BitStable(b, c, q, p2);
      CodesStable(b, c, q, p5, cycle);
    }
  }

  lemma SizeStable(b: Buf, c: Buf, q: nat, p: nat)
    requires OneBitCleared(b, c, q) && SizeAt(b, p).1 <= q
    ensures SizeAt(c, p) == SizeAt(b, p)
  {
    hide UE, BitAt, OneBitCleared;
    var p1 := UE(b, p).1;
    var p2 := UE(b, p1 + 1).1;
    var p3 := UE(b, p2).1;
    var p4 := if BitAt(b, p3) == 0 then p3 + 2 else p3 + 1;
    UEStable(b, c, q, p);
    UEStable(b, c, q, p1 + 1);
    UEStable(b, c, q, p2);
    BitStable(b, c, q, p1);
    BitStable(b, c, q, p3);
    BitStable(b, c, q, p4);
    BitStable(b, c, q, p4 + 1);
    if BitAt(b, p3) == 0 {
      BitStable(b, c, q, p3 + 1);
    }
  }

  lemma FrameStable(b: Buf, c: Buf, q: nat, p: nat)
    requires OneBitCleared(b, c, q) && FrameAt(b, p).1 <= q
    ensures FrameAt(c, p) == FrameAt(b, p)
  {
    hide UE, SizeAt, OneBitCleared;
    SizeStable(b, c, q, p);
    var (f, p0) := SizeAt(b, p);
    if f.cropping != 0 {
      var p1 := UE(b, p0).1;
      var p2 := UE(b, p1).1;
      var p3 := UE(b, p2).1;
      UEStable(b, c, q, p0);
      UEStable(b, c, q, p1);
      UEStable(b, c, q, p2);
      UEStable(b, c, q, p3);
    }
  }

  lemma VuiHeadStable(b: Buf, c: Buf, q: nat, p: nat)
    requires OneBitCleared(b, c, q) && VuiHeadAt(b, p).1 <= q
    ensures VuiHeadAt(c, p) == VuiHeadAt(b, p)
  {
    hide U, BitAt, OneBitCleared;
    var p1 := AspectEnd(b, p);
    var p2 := if BitAt(b, p1) != 0 then p1 + 2 else p1 + 1;
    BitStable(b, c, q, p);
    if BitAt(b, p) != 0 {
      UStable(b, c, q, p + 1, 8);
      if U(b, p + 1, 8) == 255 {
        UStable(b, c, q, p + 9, 16);
        UStable(b, c, q, p + 25, 16);
      }
    }
    BitStable(b, c, q, p1);
    if BitAt(b, p1) != 0 {
      BitStable(b, c, q, p1 + 1);
    }
    BitStable(b, c, q, p2);
    if BitAt(b, p2) != 0 {
      UStable(b, c, q, p2 + 1, 3);
    }
  }

  // ---------------------------------------------------------------- parts behind the flag

  lemma SignalAfter(b: Buf, c: Buf, q: nat)
    requires OneBitCleared(b, c, q)
    ensures SignalAt(c, q) == (SignalAt(b, q).0.(fullRange := 0), SignalAt(b, q).1)
  {
    hide U;
    BitStable(b, c, q, q + 1);
    UStable(b, c, q, q + 2, 24);
  }

  lemma VuiTailStable(b: Buf, c: Buf, q: nat, p: nat)
    requires OneBitCleared(b, c, q) && q < p
    ensures VuiTailAt(c, p) == VuiTailAt(b, p)
  {
    hide U, UE, BitAt, OneBitCleared;
    BitStable(b, c, q, p);
    UEStable(b, c, q, p + 1);
    UEStable(b, c, q, UE(b, p + 1).1);
    var p2 := if BitAt(b, p) != 0 then UE(b, UE(b, p + 1).1).1 else p + 1;
    BitStable(b, c, q, p2);
    UStable(b, c, q, p2 + 1, 32);
    UStable(b, c, q, p2 + 33, 32);
    BitStable(b, c, q, p2 + 65);
  }

  // ---------------------------------------------------------------- main results

  /** The parameter set is not of a high profile, or its high-profile fields hold no scaling list. */
  predicate NoScalingList(b: Buf) {
    HasHigh(U(b, 8, 8)) ==> PlainHigh(b, UE(b, 32).1)
  }

  /** FixPixFmt finds the flag exactly where DecodeSPS reads it; a scaling list makes it give up. */
  lemma WalkersInLockstep(b: Buf)
    ensures NoScalingList(b) ==>
              FlagAt(b) == (var (s, p) := Front(b);
                            if BitAt(b, p) != 0 && VuiHeadAt(b, p + 1).0.signalPresent != 0
                            then Some(VuiHeadAt(b, p + 1).1) else None)
    ensures !NoScalingList(b) ==> FlagAt(b) == None
  {
    hide U, UE, BitAt, HighEnd, HighAt, PlainHigh, PocEnd, PocAt, FrameEnd, FrameAt, FlagFrom, VuiHeadAt;
    var p1 := UE(b, 32).1;
    HighLockstep(b, p1);
    var p2 := if HasHigh(U(b, 8, 8)) then HighAt(b, p1).1 else p1;
    PocLockstep(b, p2);
    FrameLockstep(b, PocAt(b, p2).1);
    FlagLockstep(b, FrameAt(b, PocAt(b, p2).1).1 + 1);
  }

  lemma FrontStable(b: Buf, c: Buf, q: nat)
    requires OneBitCleared(b, c, q) && NoScalingList(b) && Front(b).1 <= q
    ensures Front(c) == Front(b)
  {
    hide U, UE, BitAt, OneBitCleared, HighAt, PlainHigh, PocAt, FrameAt;
    var (id, p1) := UE(b, 32);
    var p2 := if HasHigh(U(b, 8, 8)) then HighAt(b, p1).1 else p1;
    var p3 := PocAt(b, p2).1;
    UEStable(b, c, q, 32);
    UStable(b, c, q, 8, 8);
    UStable(b, c, q, 16, 8);
    UStable(b, c, q, 24, 8);
    if HasHigh(U(b, 8, 8)) {
      HighStable(b, c, q, p1);
    }
    PocStable(b, c, q, p2);
    FrameStable(b, c, q, p3);
  }

  function WithoutFullRange(s: SPS): SPS {
    s.(vui := s.vui.(signal := s.vui.signal.(fullRange := 0)))
  }

  lemma FieldsAfterClear(b: Buf, c: Buf, q: nat)
    requires NoScalingList(b) && FlagAt(b) == Some(q) && OneBitCleared(b, c, q)
    ensures Fields(c) == (WithoutFullRange(Fields(b).0), Fields(b).1)
    ensures U(c, 0, 8) == U(b, 0, 8)
  {
    WalkersInLockstep(b);
    hide U, UE, BitAt, OneBitCleared, Front, VuiHeadAt, SignalAt, VuiTailAt, FlagAt, NoScalingList;
    FrontAfterHeader(b);
    FrontStable(b, c, q);
    var p := Front(b).1;
    UStable(b, c, q, 0, 8);
    BitStable(b, c, q, p);
    VuiHeadStable(b, c, q, p + 1);
    SignalAfter(b, c, q);
    VuiTailStable(b, c, q, SignalAt(b, q).1);
  }

  lemma FrontAfterHeader(b: Buf)
    ensures Front(b).1 >= 32
  {
    hide U, UE, HighAt, PocAt, FrameAt;
  }

  /** FixPixFmt changes nothing, or clears exactly one bit, which was set. */
  lemma FixClearsAtMostOneBit(b: Buf)
    ensures Fixed(b) == b || exists q :: BitAt(b, q) == 1 && OneBitCleared(b, Fixed(b), q)
  {
    hide FlagAt, Fixed;
    FixedClearsOneBit(b);
  }

  /** With a scaling list present FixPixFmt leaves the data alone. */
  lemma FixSkipsScalingLists(b: Buf)
    requires !NoScalingList(b)
    ensures Fixed(b) == b
  {
    hide FlagAt, NoScalingList;
    WalkersInLockstep(b);
  }

  /** With no scaling list, decoding after FixPixFmt gives the same set with video_full_range_flag 0. */
  lemma DecodeAfterFix(b: Buf)
    requires NoScalingList(b)
    ensures Decoded(b).None? ==> Decoded(Fixed(b)).None?
    ensures Decoded(b).Some? ==> Decoded(Fixed(b)) == Some(WithoutFullRange(Decoded(b).value))
  {
    WalkersInLockstep(b);
    hide FlagAt, NoScalingList, Front, VuiHeadAt, VuiTailAt, U, UE;
    FixedClearsOneBit(b);
    if Fixed(b) != b {
      hide Fields, Fixed;
      FieldsAfterClear(b, Fixed(b), FlagAt(b).value);
    } else {
      FlagAlreadyClear(b);
    }
  }

  lemma FlagAlreadyClear(b: Buf)
    requires NoScalingList(b) && Fixed(b) == b
    ensures WithoutFullRange(Fields(b).0) == Fields(b).0
  {
    WalkersInLockstep(b);
    FixedClearsOneBit(b);
    hide FlagAt, NoScalingList, VuiHeadAt, VuiTailAt, U, UE, PocAt, FrameAt, HighAt, BitOf;
    if FlagAt(b).Some? && BitAt(b, FlagAt(b).value) == 1 {
      FixedDiffers(b, FlagAt(b).value);
    }
  }

  lemma FixedDiffers(b: Buf, q: nat)
    requires FlagAt(b) == Some(q) && BitAt(b, q) == 1
    ensures Fixed(b) != b
  {
    hide FlagAt;
    ClearedBits(b[q / 8], q % 8, q % 8);
  }

  // ---------------------------------------------------------------- DecodeSPS on the reader object

  method ReadScalingList(r: Reader, size: nat)
    requires r.Valid()
    modifies r
    ensures r.Valid() && r.buf == old(r.buf) && r.cursor == ScalingList(r.buf, old(r.cursor), size, 8, 8)
  {
    hide UE;
    var lastScale, nextScale := 8, 8;
    for j := 0 to size
      invariant r.Valid() && r.buf == old(r.buf)
      invariant ScalingList(r.buf, old(r.cursor), size, 8, 8) ==
                ScalingList(r.buf, r.cursor, size - j, lastScale, nextScale)
    {
      if nextScale != 0 {
        var delta := r.ReadSEGolomb();
        nextScale := NextScale(lastScale, delta);
      }
      if nextScale != 0 {
        lastScale := nextScale;
      }
    }
  }

  method ReadHighFields(r: Reader) returns (h: High)
    requires r.Valid()
    modifies r
    ensures r.Valid() && r.buf == old(r.buf) && (h, r.cursor) == HighFields(r.buf, old(r.cursor))
  {
    hide UE, BitAt, Reader.Valid;
    var chromaFormat := r.ReadUEGolomb();
    var separatePlane := 0;
    if chromaFormat == 3 {
      separatePlane := r.ReadBit();
    }
    var lumaDepth := r.ReadUEGolomb();
    var chromaDepth := r.ReadUEGolomb();
    var bypass := r.ReadBit();
    var matrix := r.ReadBit();
    h := High(chromaFormat, separatePlane, lumaDepth, chromaDepth, bypass, matrix);
  }

  method ReadHigh(r: Reader) returns (h: High)
    requires r.Valid()
    modifies r
    ensures r.Valid() && r.buf == old(r.buf) && (h, r.cursor) == HighAt(r.buf, old(r.cursor))
  {
    hide UE, BitAt, ScalingList, HighFields, Reader.Valid;
    h := ReadHighFields(r);
    var n := if h.chromaFormat == 3 then 12 else 8;
    if h.scalingMatrix != 0 {
      ghost var start := r.cursor;
      for i := 0 to n
        invariant r.Valid() && r.buf == old(r.buf)
        invariant Lists(r.buf, start, 0, n) == Lists(r.buf, r.cursor, i, n)
      {
        var present := r.ReadBit();
        if present != 0 {
          ReadScalingList(r, if i < 6 then 16 else 64);
        }
      }
    }
  }

  method ReadCodes(r: Reader, n: nat)
    requires r.Valid()
    modifies r
    ensures r.Valid() && r.buf == old(r.buf) && r.cursor == SkipCodes(r.buf, old(r.cursor), n)
  {
    hide UE;
    for i := 0 to n
      invariant r.Valid() && r.buf == old(r.buf)
      invariant SkipCodes(r.buf, old(r.cursor), n) == SkipCodes(r.buf, r.cursor, n - i)
    {
      var _ := r.ReadSEGolomb();
    }
  }

  method ReadPoc(r: Reader) returns (poc: Poc)
    requires r.Valid()
    modifies r
    ensures r.Valid() && r.buf == old(r.buf) && (poc, r.cursor) == PocAt(r.buf, old(r.cursor))
  {
    hide UE, BitAt, SkipCodes;
    var frameNum := r.ReadUEGolomb();
    var kind := r.ReadUEGolomb();
    poc := Poc(frameNum, kind, 0, 0, 0, 0, 0);
    if kind == 0 {
      var lsb := r.ReadUEGolomb();
      poc := poc.(log2MaxLsb := lsb);
    } else if kind == 1 {
      var zero := r.ReadBit();
      var nonRef := r.ReadSEGolomb();
      var topBottom := r.ReadSEGolomb();
      var cycle := r.ReadUEGolomb();
      poc := poc.(deltaAlwaysZero := zero, offsetNonRef := nonRef, offsetTopBottom := topBottom, refFramesInCycle := cycle);
      ReadCodes(r, cycle);
    }
  }

  method ReadSize(r: Reader) returns (f: Frame)
    requires r.Valid()
    modifies r
    ensures r.Valid() && r.buf == old(r.buf) && (f, r.cursor) == SizeAt(r.buf, old(r.cursor))
  {
    hide UE, BitAt, U, Pow2, Shift, Zeros, Reader.Valid;
    var refFrames := r.ReadUEGolomb();
    var gaps := r.ReadBit();
    var width := r.ReadUEGolomb();
    var height := r.ReadUEGolomb();
    var mbsOnly := r.ReadBit();
    var adaptive := 0;
    if mbsOnly == 0 {
      adaptive := r.ReadBit();
    }
    var direct := r.ReadBit();
    var cropping := r.ReadBit();
    f := Frame(refFrames, gaps, width, height, mbsOnly, adaptive, direct, cropping, 0, 0, 0, 0);
  }

  method ReadFrame(r: Reader) returns (f: Frame)
    requires r.Valid()
    modifies r
    ensures r.Valid() && r.buf == old(r.buf) && (f, r.cursor) == FrameAt(r.buf, old(r.cursor))
  {
    hide UE, BitAt, SizeAt, Reader.Valid;
    f := ReadSize(r);
    if f.cropping != 0 {
      var left := r.ReadUEGolomb();
      var right := r.ReadUEGolomb();
      var top := r.ReadUEGolomb();
      var bottom := r.ReadUEGolomb();
      f := f.(cropLeft := left, cropRight := right, cropTop := top, cropBottom := bottom);
    }
  }

  method ReadAspect(r: Reader) returns (aspect: nat, idc: nat, width: nat, height: nat)
    requires r.Valid()
    modifies r
    ensures r.Valid() && r.buf == old(r.buf) && r.cursor == AspectEnd(r.buf, old(r.cursor))
    ensures var b, p := r.buf, old(r.cursor);
            && aspect == BitAt(b, p) && idc == (if aspect != 0 then U(b, p + 1, 8) else 0)
            && (if aspect != 0 && idc == 255 then width == U(b, p + 9, 16) && height == U(b, p + 25, 16)
                else width == 0 && height == 0)
  {
    hide U, BitAt, Reader.Valid;
    idc, width, height := 0, 0, 0;
    aspect := r.ReadBit();
    if aspect != 0 {
      var read: int := r.ReadByte();
      idc := read;
      if idc == 255 {
        width := r.ReadUint16();
        height := r.ReadUint16();
      }
    }
  }

  method ReadVuiHead(r: Reader) returns (h: VuiHead)
    requires r.Valid()
    modifies r
    ensures r.Valid() && r.buf == old(r.buf) && (h, r.cursor) == VuiHeadAt(r.buf, old(r.cursor))
  {
    hide U, BitAt, AspectEnd, Reader.Valid;
    var aspect, idc, width, height := ReadAspect(r);
    var overscan := r.ReadBit();
    var appropriate, format := 0, 0;
    if overscan != 0 {
      appropriate := r.ReadBit();
    }
    var signal := r.ReadBit();
    if signal != 0 {
      format := r.ReadBits(3);
    }
    h := VuiHead(aspect, idc, width, height, overscan, appropriate, signal, format);
  }

  method ReadSignal(r: Reader) returns (s: Signal)
    requires r.Valid()
    modifies r
    ensures r.Valid() && r.buf == old(r.buf) && (s, r.cursor) == SignalAt(r.buf, old(r.cursor))
  {
    hide U, BitAt, Reader.Valid;
    var range := r.ReadBit();
    var colour := r.ReadBit();
    var description := 0;
    if colour != 0 {
      description := r.ReadUint24();
    }
    s := Signal(range, colour, description);
  }

  method ReadVuiTail(r: Reader) returns (t: VuiTail)
    requires r.Valid()
    modifies r
    ensures r.Valid() && r.buf == old(r.buf) && (t, r.cursor) == VuiTailAt(r.buf, old(r.cursor))
  {
    hide U, UE, BitAt, Reader.Valid;
    var loc := r.ReadBit();
    var top, bottom := 0, 0;
    if loc != 0 {
      top := r.ReadUEGolomb();
      bottom := r.ReadUEGolomb();
    }
    var timing := r.ReadBit();
    var units, scale, rate := 0, 0, 0;
    if timing != 0 {
      units := r.ReadUint32();
      scale := r.ReadUint32();
      rate := r.ReadBit();
    }
    t := VuiTail(loc, top, bottom, timing, units, scale, rate);
  }

  method ReadVui(r: Reader) returns (v: Vui)
    requires r.Valid()
    modifies r
    ensures r.Valid() && r.buf == old(r.buf) && (v, r.cursor) == VuiAt(r.buf, old(r.cursor))
  {
    hide VuiHeadAt, SignalAt, VuiTailAt, Reader.Valid;
    var head := ReadVuiHead(r);
    var signal := NO_SIGNAL;
    if head.signalPresent != 0 {
      signal := ReadSignal(r);
    }
    var tail := ReadVuiTail(r);
    v := Vui(head, signal, tail);
  }

  /** Everything behind the NAL unit header. */
  method ReadFields(r: Reader) returns (s: SPS)
    requires r.Valid() && r.cursor == 8
    modifies r
    ensures r.Valid() && r.buf == old(r.buf) && (s, r.cursor) == Fields(r.buf)
  {
    hide U, UE, BitAt, HighAt, PocAt, FrameAt, VuiAt, Reader.Valid;
    var profile: int := r.ReadByte();
    var constraints: int := r.ReadByte();
    var level: int := r.ReadByte();
    var id := r.ReadUEGolomb();
    var high := NO_HIGH;
    if HasHigh(profile) {
      high := ReadHigh(r);
    }
    var poc := ReadPoc(r);
    var frame := ReadFrame(r);
    var present := r.ReadBit();
    var vui := NO_VUI;
    if present != 0 {
      vui := ReadVui(r);
    }
    s := SPS(profile, constraints, level, id, high, poc, frame, present, vui);
  }

  method DecodeSPS(sps: Buf) returns (s: Option<SPS>)
    ensures s == Decoded(sps)
  {
    hide U, Fields;
    var r := new Reader(sps);
    var hdr: int := r.ReadByte();
    if hdr % 32 != NALU_SPS {
      return None;
    }
    var fields := ReadFields(r);
    if r.EOF {
      return None;
    }
    return Some(fields);
  }

  // ---------------------------------------------------------------- FixPixFmt on the reader object

  lemma HighEndParts(b: Buf, p: nat, tail: nat, flag: nat)
    requires tail == (if UE(b, p).0 == 3 then UE(b, p).1 + 1 else UE(b, p).1)
    requires flag == UE(b, UE(b, tail).1).1 + 1
    ensures var n := if UE(b, p).0 == 3 then 12 else 8;
            HighEnd(b, p) ==
            if BitAt(b, flag) == 0 then Some(flag + 1)
            else if NoLists(b, flag + 1, 0, n) then Some(flag + 1 + n) else None
  {
    hide UE, BitAt, NoLists;
  }

  lemma NoListsNext(b: Buf, p: nat, i: nat, n: nat)
    requires i <= n
    ensures NoLists(b, p, i, n) <==> i == n || (BitAt(b, p) == 0 && NoLists(b, p + 1, i + 1, n))
  {
  }

  /** True when a scaling list is present. */
    method SkipHigh(r: Reader) returns (scaling: bool)
    requires r.Valid()
    modifies r
    ensures r.Valid() && r.buf == old(r.buf)
    ensures HighEnd(r.buf, old(r.cursor)) == if scaling then None else Some(r.cursor)
  {
    hide UE, BitAt, U, Pow2, Shift, Zeros, NoLists, HighEnd, Reader.Valid;
    var n := 8;
    var chromaFormat := r.ReadUEGolomb();
    if chromaFormat == 3 {
      var _ := r.ReadBit();
      n := 12;
    }
    ghost var tail := r.cursor;
    var _ := r.ReadUEGolomb();
    var _ := r.ReadUEGolomb();
    var _ := r.ReadBit();
    HighEndParts(r.buf, old(r.cursor), tail, r.cursor);
    var matrix := r.ReadBit();
    if matrix != 0 {
      scaling := FindList(r, n);
      return;
    }
    return false;
  }

  /** True at the first list that is present, its flag read last. */
  method FindList(r: Reader, n: nat) returns (found: bool)
    requires r.Valid()
    modifies r
    ensures r.Valid() && r.buf == old(r.buf)
    ensures NoLists(r.buf, old(r.cursor), 0, n) <==> !found
    ensures !found ==> r.cursor == old(r.cursor) + n
  {
    hide BitAt, NoLists, Reader.Valid;
    ghost var start := r.cursor;
    for i := 0 to n
      invariant r.Valid() && r.buf == old(r.buf) && r.cursor == start + i
      invariant NoLists(r.buf, start, 0, n) == NoLists(r.buf, start + i, i, n)
    {
      NoListsNext(r.buf, start + i, i, n);
      var present := r.ReadBit();
      if present != 0 {
        return true;
      }
    }
    NoListsNext(r.buf, start + n, n, n);
    return false;
  }

  method SkipPoc(r: Reader)
    requires r.Valid()
    modifies r
    ensures r.Valid() && r.buf == old(r.buf) && r.cursor == PocEnd(r.buf, old(r.cursor))
  {
    hide UE, BitAt, SkipCodes, Reader.Valid;
    var _ := r.ReadUEGolomb();
    var kind := r.ReadUEGolomb();
    if kind == 0 {
      var _ := r.ReadUEGolomb();
    } else if kind == 1 {
      var _ := r.ReadBit();
      var _ := r.ReadSEGolomb();
      var _ := r.ReadSEGolomb();
      var n := r.ReadUEGolomb();
      ReadCodes(r, n);
    }
  }

  method SkipSize(r: Reader) returns (cropping: nat)
    requires r.Valid()
    modifies r
    ensures r.Valid() && r.buf == old(r.buf)
    ensures (cropping, r.cursor) == SizeEnd(r.buf, old(r.cursor))
  {
    hide UE, BitAt, Reader.Valid;
    var _ := r.ReadUEGolomb();
    var _ := r.ReadBit();
    var _ := r.ReadUEGolomb();
    var _ := r.ReadUEGolomb();
    var mbsOnly := r.ReadBit();
    if mbsOnly == 0 {
      var _ := r.ReadBit();
    }
    var _ := r.ReadBit();
    cropping := r.ReadBit();
  }

  method SkipFrame(r: Reader)
    requires r.Valid()
    modifies r
    ensures r.Valid() && r.buf == old(r.buf) && r.cursor == FrameEnd(r.buf, old(r.cursor))
  {
    hide UE, BitAt, SizeEnd, Reader.Valid;
    var cropping := SkipSize(r);
    if cropping != 0 {
      var _ := r.ReadUEGolomb();
      var _ := r.ReadUEGolomb();
      var _ := r.ReadUEGolomb();
      var _ := r.ReadUEGolomb();
    }
  }

  method SkipAspect(r: Reader)
    requires r.Valid()
    modifies r
    ensures r.Valid() && r.buf == old(r.buf) && r.cursor == AspectEnd(r.buf, old(r.cursor))
  {
    hide U, BitAt, Reader.Valid;
    var aspect := r.ReadBit();
    if aspect != 0 {
      var idc := r.ReadByte();
      if idc == 255 {
        var _ := r.ReadUint16();
        var _ := r.ReadUint16();
      }
    }
  }

  /** True when the reader stands at video_full_range_flag. */
  method SkipToFlag(r: Reader) returns (found: bool)
    requires r.Valid()
    modifies r
    ensures r.Valid() && r.buf == old(r.buf)
    ensures FlagFrom(r.buf, old(r.cursor)) == if found then Some(r.cursor) else None
  {
    hide U, BitAt, AspectEnd, Reader.Valid;
    SkipAspect(r);
    var overscan := r.ReadBit();
    if overscan != 0 {
      var _ := r.ReadBit();
    }
    var signal := r.ReadBit();
    if signal != 0 {
      var _ := r.ReadBits(3);
      return true;
    }
    return false;
  }

  method FindFlag(r: Reader) returns (found: bool)
    requires r.Valid() && r.cursor == 0
    modifies r
    ensures r.Valid() && r.buf == old(r.buf)
    ensures FlagAt(r.buf) == if found then Some(r.cursor) else None
  {
    hide U, UE, BitAt, HighEnd, PocEnd, FrameEnd, FlagFrom, Reader.Valid;
    var _ := r.ReadByte();
    var profile: int := r.ReadByte();
    var _ := r.ReadByte();
    var _ := r.ReadByte();
    var _ := r.ReadUEGolomb();
    if HasHigh(profile) {
      var scaling := SkipHigh(r);
      if scaling {
        return false;
      }
    }
    SkipPoc(r);
    SkipFrame(r);
    var present := r.ReadBit();
    if present == 0 {
      return false;
    }
    found := SkipToFlag(r);
  }

  method FixPixFmt(sps: array<Byte>)
    modifies sps
    ensures sps[..] == Fixed(old(sps[..]))
  {
    hide FlagAt, U, UE;
    ghost var before := sps[..];
    var r := new Reader(sps[..]);
    var found := FindFlag(r);
    if found {
      ghost var q := r.cursor;
      var flag := r.ReadBit();
      if flag == 1 {
        var at, bit := r.Pos();
        assert at == q / 8 && bit == 7 - q % 8;
        sps[at] := Cleared(sps[at], 7 - bit);
      }
    }
  }
}
