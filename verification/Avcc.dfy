/**
 * The length-prefixed (AVCC) form of a list of NAL units (pkg/h264/avcc.go) and the splitter shared by
 * both payloaders (the AVC half of EmitNalus in pkg/h264/payloader.go).
 */
module Avcc {
  import opened Bytes

  const MAX_SIZE := 0x1_00_00_00_00

  function Frame(nal: Buf): (r: Buf)
    ensures |r| == 4 + |nal|
  {
    U32Bytes(|nal|) + nal
  }

  function Frames(nals: seq<Buf>): seq<Buf> {
    if nals == [] then [] else [Frame(nals[0])] + Frames(nals[1..])
  }

  /** The AVCC form: every unit behind its 4-byte length. */
  function Join(nals: seq<Buf>): Buf {
    if nals == [] then [] else Frame(nals[0]) + Join(nals[1..])
  }

  lemma {:induction false} JoinAppend(a: seq<Buf>, b: seq<Buf>)
    ensures Join(a + b) == Join(a) + Join(b)
  {
    if a == [] {
      assert a + b == b;
    } else {
      assert (a + b)[1..] == a[1..] + b;
      JoinAppend(a[1..], b);
    }
  }

  lemma JoinOne(nal: Buf)
    ensures Join([nal]) == Frame(nal)
  {
    assert Join([nal]) == Frame(nal) + Join([]);
  }

  /** Reading the length in front of a unit, and cutting the unit off. */
  lemma FrameRead(nal: Buf, tail: Buf)
    requires |nal| < MAX_SIZE
    ensures var b := Frame(nal) + tail;
            && |b| == 4 + |nal| + |tail| && U32(b) == |nal|
            && b[4..4 + |nal|] == nal && b[..4 + |nal|] == Frame(nal) && b[4 + |nal|..] == tail
  {
    hide U32Bytes, U32;
    assert Frame(nal) + tail == U32Bytes(|nal|) + (nal + tail);
    U32RoundTrip(|nal|, nal + tail);
  }

  predicate Sized(nals: seq<Buf>) {
    forall n <- nals :: |n| < MAX_SIZE
  }

  // ---------------------------------------------------------------- splitting

  /** The units EmitNalus hands out of an AVCC buffer; a truncated tail is dropped. */
  function Split(b: Buf): seq<Buf> {
    if |b| < 4 || |b| < 4 + U32(b) then []
    else [b[4..4 + U32(b)]] + Split(b[4 + U32(b)..])
  }

  /** Behind whole units a truncated one is dropped. */
  lemma {:induction false} SplitJoinTail(nals: seq<Buf>, tail: Buf)
    requires Sized(nals) && (|tail| < 4 || |tail| < 4 + U32(tail))
    ensures Split(Join(nals) + tail) == nals
  {
    hide Frame, U32;
    if nals == [] {
      assert Join(nals) + tail == tail;
    } else {
      assert Join(nals) + tail == Frame(nals[0]) + (Join(nals[1..]) + tail);
      FrameRead(nals[0], Join(nals[1..]) + tail);
      SplitJoinTail(nals[1..], tail);
    }
  }

  /** Splitting undoes joining. */
  lemma {:induction false} SplitJoin(nals: seq<Buf>)
    requires Sized(nals)
    ensures Split(Join(nals)) == nals
  {
    hide Frame, U32;
    if nals != [] {
      FrameRead(nals[0], Join(nals[1..]));
      SplitJoin(nals[1..]);
    }
  }

  lemma JoinInjective(a: seq<Buf>, b: seq<Buf>)
    requires Sized(a) && Sized(b) && Join(a) == Join(b)
    ensures a == b
  {
    SplitJoin(a);
    SplitJoin(b);
  }

  method EmitAvcNalus(b: Buf) returns (emitted: seq<Buf>)
    ensures emitted == Split(b)
  {
    hide U32;
    var nals := b;
    emitted := [];
    while true
      invariant emitted + Split(nals) == Split(b)
      decreases |nals|
    {
      var n := |nals|;
      if n < 4 {
        break;
      }
      var end := 4 + U32(nals);
      if n < end {
        break;
      }
      emitted := emitted + [nals[4..end]];
      nals := nals[end..];
    }
  }

  // ---------------------------------------------------------------- JoinNALU and SplitNALU

  method PutUint32(b: array<Byte>, at: nat, n: nat)
    requires at + 4 <= b.Length
    modifies b
    ensures b[..] == old(b[..at]) + U32Bytes(n) + old(b[at + 4..])
  {
    var field := U32Bytes(n);
    b[at], b[at + 1], b[at + 2], b[at + 3] := field[0], field[1], field[2], field[3];
  }

  method Copy(b: array<Byte>, at: nat, src: Buf)
    requires at + |src| <= b.Length
    modifies b
    ensures b[..] == old(b[..at]) + src + old(b[at + |src|..])
  {
    for i := 0 to |src|
      invariant forall k :: 0 <= k < b.Length ==> b[k] == if at <= k < at + i then src[k - at] else old(b[k])
    {
      b[at + i] := src[i];
    }
  }

  method PutFrame(b: array<Byte>, at: nat, nal: Buf)
    requires at + 4 + |nal| <= b.Length
    modifies b
    ensures b[..at + 4 + |nal|] == old(b[..at]) + Frame(nal)
  {
    hide U32Bytes;
    PutUint32(b, at, |nal|);
    Copy(b, at + 4, nal);
  }

  method JoinedSize(nalus: seq<Buf>) returns (n: nat)
    ensures n == |Join(NonEmpty(nalus))|
  {
    n := 0;
    for i := 0 to |nalus|
      invariant n == |Join(NonEmpty(nalus[..i]))|
    {
      Snoc(nalus, i);
      if |nalus[i]| > 0 {
        n := n + 4 + |nalus[i]|;
      }
    }
    assert nalus[..|nalus|] == nalus;
  }

  method JoinNALU(nalus: seq<Buf>) returns (avcc: array<Byte>)
    ensures avcc[..] == Join(NonEmpty(nalus))
  {
    hide Frame;
    var n := JoinedSize(nalus);
    avcc := new Byte[n](_ => 0);
    n := 0;
    for i := 0 to |nalus|
      invariant avcc.Length == |Join(NonEmpty(nalus))|
      invariant n == |Join(NonEmpty(nalus[..i]))| <= avcc.Length
      invariant avcc[..n] == Join(NonEmpty(nalus[..i]))
    {
      Snoc(nalus, i);
      PrefixFits(nalus, i + 1);
      if |nalus[i]| > 0 {
        PutFrame(avcc, n, nalus[i]);
        n := n + 4 + |nalus[i]|;
      }
    }
    assert nalus[..|nalus|] == nalus;
  }

  lemma PrefixFits(nalus: seq<Buf>, i: nat)
    requires i <= |nalus|
    ensures |Join(NonEmpty(nalus[..i]))| <= |Join(NonEmpty(nalus))|
  {
    assert nalus == nalus[..i] + nalus[i..];
    NonEmptyAppend(nalus[..i], nalus[i..]);
    JoinAppend(NonEmpty(nalus[..i]), NonEmpty(nalus[i..]));
  }

  lemma Snoc(nalus: seq<Buf>, i: nat)
    requires i < |nalus|
    ensures Join(NonEmpty(nalus[..i + 1])) ==
            Join(NonEmpty(nalus[..i])) + (if nalus[i] == [] then [] else Frame(nalus[i]))
  {
    assert nalus[..i + 1] == nalus[..i] + [nalus[i]];
    NonEmptyAppend(nalus[..i], [nalus[i]]);
    assert NonEmpty([nalus[i]]) == if nalus[i] == [] then [] else [nalus[i]];
    JoinAppend(NonEmpty(nalus[..i]), NonEmpty([nalus[i]]));
    JoinOne(nalus[i]);
  }

  /** SplitNALU reads a length at the start of every piece, so every piece must hold one. */
  predicate Splittable(avcc: Buf) {
    |avcc| >= 4 && (4 + U32(avcc) < |avcc| ==> Splittable(avcc[4 + U32(avcc)..]))
  }

  function Pieces(avcc: Buf): (r: seq<Buf>)
    requires Splittable(avcc)
    ensures Concat(r) == avcc
  {
    var size := 4 + U32(avcc);
    if size < |avcc| then [avcc[..size]] + Pieces(avcc[size..])
    else
      assert Concat([avcc]) == avcc + Concat([]);
      [avcc]
  }

  method SplitNALU(avcc: Buf) returns (nals: seq<Buf>)
    requires Splittable(avcc)
    ensures nals == Pieces(avcc)
  {
    hide U32;
    var rest := avcc;
    nals := [];
    while true
      invariant Splittable(rest) && nals + Pieces(rest) == Pieces(avcc)
      decreases |rest|
    {
      var size := U32(rest) + 4;
      if size < |rest| {
        nals := nals + [rest[..size]];
        rest := rest[size..];
      } else {
        nals := nals + [rest];
        break;
      }
    }
  }

  /** SplitNALU after JoinNALU gives back every unit, each still behind its length. */
  lemma {:induction false} PiecesOfJoin(nals: seq<Buf>)
    requires Sized(nals) && nals != []
    ensures Splittable(Join(nals)) && Pieces(Join(nals)) == if |nals| == 1 then [Frame(nals[0])] else Frames(nals)
    ensures nals[|nals| - 1] != [] ==> Pieces(Join(nals)) == Frames(nals)
  {
    hide Frame, U32;
    FrameRead(nals[0], Join(nals[1..]));
    if |nals| == 1 {
      assert Frames(nals) == [Frame(nals[0])] + Frames([]);
    } else {
      PiecesOfJoin(nals[1..]);
    }
  }
}
