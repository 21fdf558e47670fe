/**
 * The start-code form of a NAL unit stream (Annex B of ITU-T H.264): the splitter behind EmitNalus
 * (pkg/h264/payloader.go) and the in-place conversion to AVCC (DecodeAnnexB in pkg/h264/avc.go).
 */
module AnnexB {
  import opened Bytes
  import opened Avcc

  const PFRAME := 1
  const IFRAME := 5
  const SPS := 7
  const PPS := 8

  // ---------------------------------------------------------------- start codes

  predicate CodeAt(b: Buf, p: nat) {
    p + 3 <= |b| && b[p] == 0 && b[p + 1] == 0 && b[p + 2] == 1
  }

  /** The first start code at or after `from`, or -1. */
  function Find(b: Buf, from: nat): (r: int)
    ensures r == -1 || (from <= r && CodeAt(b, r))
    ensures forall p: nat :: from <= p && (r == -1 || p < r) ==> !CodeAt(b, p)
    decreases |b| - from
  {
    if from + 3 > |b| then -1 else if CodeAt(b, from) then from else Find(b, from + 1)
  }

  lemma FindIs(b: Buf, from: nat, q: nat)
    requires from <= q && CodeAt(b, q) && forall p: nat :: from <= p < q ==> !CodeAt(b, p)
    ensures Find(b, from) == q
  {
    hide CodeAt;
  }

  lemma FindNone(b: Buf, from: nat)
    requires forall p: nat :: from <= p ==> !CodeAt(b, p)
    ensures Find(b, from) == -1
  {
    hide CodeAt;
  }

  method IndexFrom(b: array<Byte>, from: nat) returns (r: int)
    ensures r == Find(b[..], from)
  {
    var p := from;
    while p + 3 <= b.Length
      invariant forall q: nat :: from <= q < p ==> !CodeAt(b[..], q)
    {
      if b[p] == 0 && b[p + 1] == 0 && b[p + 2] == 1 {
        FindIs(b[..], from, p);
        return p;
      }
      p := p + 1;
    }
    FindNone(b[..], from);
    r := -1;
  }

  // ---------------------------------------------------------------- streams

  /** A unit behind a 3-byte or a 4-byte start code. */
  datatype Unit = Unit(long: bool, nal: Buf)

  /** A 3-byte code once it is grown. */
  function Zeroed(): (r: Buf)
    ensures |r| == 4
  {
    [0, 0, 1, 0]
  }

  function Code(long: bool): Buf {
    if long then [0, 0, 0, 1] else [0, 0, 1]
  }

  function Stream(units: seq<Unit>): Buf {
    if units == [] then [] else Code(units[0].long) + units[0].nal + Stream(units[1..])
  }

  function Nals(units: seq<Unit>): (r: seq<Buf>)
    ensures |r| == |units|
  {
    if units == [] then [] else [units[0].nal] + Nals(units[1..])
  }

  ghost predicate CodeFree(nal: Buf) {
    forall p: nat :: !CodeAt(nal, p)
  }

  ghost predicate Clean(nal: Buf): (r: bool)
    ensures r ==> nal != []
  {
    nal != [] && nal[|nal| - 1] != 0 && CodeFree(nal)
  }

  ghost predicate AllClean(units: seq<Unit>) {
    forall k: nat :: k < |units| ==> Clean(units[k].nal)
  }

  /** The units at which DecodeAnnexB cuts: forbidden bit clear, and one of the four types. */
  predicate Splits(nal: Buf) {
    nal != [] && nal[0] < 128 && nal[0] % 32 in {PFRAME, IFRAME, SPS, PPS}
  }

  /** No start code begins inside a clean unit, whatever surrounds it. */
  lemma NoCodeInside(pre: Buf, nal: Buf, post: Buf)
    requires Clean(nal)
    ensures forall p: nat :: |pre| <= p < |pre| + |nal| ==> !CodeAt(pre + nal + post, p)
  {
    var b := pre + nal + post;
    forall p: nat | |pre| <= p < |pre| + |nal|
      ensures !CodeAt(b, p)
    {
      assert !CodeAt(nal, p - |pre|);
      assert b[|pre| + |nal| - 1] == nal[|nal| - 1];
    }
  }

  lemma FindPastUnit(pre: Buf, nal: Buf, u: Unit, post: Buf, from: nat)
    requires Clean(nal) && from <= |pre| && forall p: nat :: from <= p < |pre| ==> !CodeAt(pre + nal + (Code(u.long) + post), p)
    ensures Find(pre + nal + (Code(u.long) + post), from) == |pre| + |nal| + if u.long then 1 else 0
  {
    var b := pre + nal + (Code(u.long) + post);
    NoCodeInside(pre, nal, Code(u.long) + post);
    var e := |pre| + |nal|;
    assert b[e..e + |Code(u.long)|] == Code(u.long);
    assert b[e] == 0 && b[e + 1] == 0 && b[e + 2] == Code(u.long)[2];
    if u.long {
      assert b[e + 3] == 1;
      FindIs(b, from, e + 1);
    } else {
      FindIs(b, from, e);
    }
  }

  lemma FindInLast(pre: Buf, nal: Buf, from: nat)
    requires Clean(nal) && from <= |pre| && forall p: nat :: from <= p < |pre| ==> !CodeAt(pre + nal, p)
    ensures Find(pre + nal, from) == -1
  {
    NoCodeInside(pre, nal, []);
    assert pre + nal + [] == pre + nal;
    FindNone(pre + nal, from);
  }

  // ---------------------------------------------------------------- DecodeAnnexB

  /** The 32-bit field a Go conversion of a possibly negative int leaves. */
  function Field(n: int): (r: Buf)
    ensures |r| == 4
  {
    U32Bytes(n % MAX_SIZE)
  }

  function PutField(b: Buf, at: nat, n: int): (r: Buf)
    requires at + 4 <= |b|
    ensures |r| == |b|
  {
    b[..at] + Field(n) + b[at + 4..]
  }

  /** The open unit closed, and the 3-byte code in front of `j` grown by a byte. */
  function Grown(b: Buf, start: nat, j: nat): (r: Buf)
    requires start + 4 <= |b| && j <= |b|
    ensures |r| == |b| + 1
  {
    var c := PutField(b, start, j - start - 7);
    c[..j] + [0] + c[j..]
  }

  /** The scan from `i` on, with the open unit's prefix at `start`. */
  function Scan(b: Buf, start: nat, i: nat): Buf
    requires start + 4 <= |b| && start + 3 <= i
    decreases |b| - i
  {
    var q := Find(b, i);
    if q < 0 || q + 3 >= |b| then PutField(b, start, |b| - start - 4)
    else
      var j: nat := q + 3;
      if !Splits(b[j..]) then Scan(b, start, j)
      else if b[j - 4] != 0 then Scan(Grown(b, start, j), j - 3, j)
      else Scan(PutField(b, start, j - start - 8), j - 4, j)
  }

  lemma ScanStep(b: Buf, start: nat, i: nat)
    requires start + 4 <= |b| && start + 3 <= i
    ensures var q := Find(b, i);
            Scan(b, start, i) ==
            if q < 0 || q + 3 >= |b| then PutField(b, start, |b| - start - 4)
            else
              var j: nat := q + 3;
              if !Splits(b[j..]) then Scan(b, start, j)
              else if b[j - 4] != 0 then Scan(Grown(b, start, j), j - 3, j)
              else Scan(PutField(b, start, j - start - 8), j - 4, j)
  {
    hide Find, Splits, PutField, Grown;
  }

  /** What DecodeAnnexB indexes without looking. */
  predicate Convertible(b: Buf) {
    |b| >= 3 && (b[2] == 1 || |b| >= 4)
  }

  function Converted(b: Buf): Buf
    requires Convertible(b)
  {
    Scan(if b[2] == 1 then [0] + b else b, 0, 4)
  }

  method PutInt(b: array<Byte>, at: nat, n: int)
    requires at + 4 <= b.Length
    modifies b
    ensures b[..] == PutField(old(b[..]), at, n)
  {
    PutUint32(b, at, n % MAX_SIZE);
  }

  method Insert(b: array<Byte>, at: nat, x: Byte) returns (c: array<Byte>)
    requires at <= b.Length
    ensures fresh(c) && c[..] == b[..at] + [x] + b[at..]
  {
    var before := b[..];
    c := new Byte[b.Length + 1](k requires 0 <= k < |before| + 1 =>
      if k < at then before[k] else if k == at then x else before[k - 1]);
  }

  method DecodeAnnexB(src: array<Byte>) returns (b: array<Byte>)
    requires Convertible(src[..])
    modifies src
    ensures b == src || fresh(b)
    ensures b[..] == Converted(old(src[..]))
  {
    hide Find, Splits, PutField, Scan;
    b := src;
    if b[2] == 1 {
      b := Insert(b, 0, 0);
      assert b[..] == [0] + old(src[..]);
    }
    var startPos: nat, i: nat := 0, 4;
    ghost var converted := Scan(b[..], startPos, i);
    assert converted == Converted(old(src[..]));
    while true
      invariant b == src || fresh(b)
      invariant startPos + 4 <= b.Length && startPos + 3 <= i
      invariant Scan(b[..], startPos, i) == converted
      decreases b.Length - i
    {
      ScanStep(b[..], startPos, i);
      var q := IndexFrom(b, i);
      if q < 0 {
        break;
      }
      i := q + 3;
      if i >= b.Length {
        break;
      }
      if !Splits(b[i..]) {
        continue;
      }
      if b[i - 4] != 0 {
        PutInt(b, startPos, i - startPos - 7);
        b := Insert(b, i, 0);
        startPos := i - 3;
      } else {
        PutInt(b, startPos, i - startPos - 8);
        startPos := i - 4;
      }
    }
    PutInt(b, startPos, b.Length - startPos - 4);
  }

  /** What DecodeAnnexB cuts a stream into: a unit of another type stays glued, code and all, to the one before. */
  function Merge(current: Buf, rest: seq<Unit>): seq<Buf>
    decreases |rest|
  {
    if rest == [] then [current]
    else if Splits(rest[0].nal) then [current] + Merge(rest[0].nal, rest[1..])
    else Merge(current + Code(rest[0].long) + rest[0].nal, rest[1..])
  }

  lemma ClosedLast(done: Buf, prefix: Buf, unit: Buf)
    requires |prefix| == 4 && |unit| < MAX_SIZE
    ensures PutField(done + prefix + unit, |done|, |unit|) == done + Frame(unit)
  {
    hide U32Bytes;
    var b := done + prefix + unit;
    assert b[..|done|] == done && b[|done| + 4..] == unit;
    Assoc(done, U32Bytes(|unit|), unit);
  }

  /** Writing the length of a finished unit, with the rest of the stream behind it. */
  lemma Closed(done: Buf, prefix: Buf, unit: Buf, tail: Buf)
    requires |prefix| == 4 && |unit| < MAX_SIZE
    ensures PutField(done + prefix + unit + tail, |done|, |unit|) == done + Frame(unit) + tail
  {
    hide U32Bytes;
    var b := done + prefix + unit + tail;
    assert b[..|done|] == done && b[|done| + 4..] == unit + tail;
  }

  /** Where the next code is found, and what is seen around it. */
  lemma NextUnit(pre: Buf, last: Buf, u: Unit, post: Buf, from: nat)
    requires Clean(last) && Clean(u.nal) && from <= |pre|
    requires var b := pre + last + (Code(u.long) + (u.nal + post));
             forall p: nat :: from <= p < |pre| ==> !CodeAt(b, p)
    ensures var b, j := pre + last + (Code(u.long) + (u.nal + post)), |pre| + |last| + |Code(u.long)|;
            && Find(b, from) == j - 3 && j < |b| && b[j..] == u.nal + post && b[..j] == pre + last + Code(u.long)
            && (Splits(b[j..]) <==> Splits(u.nal)) && j >= 4 && (b[j - 4] == 0 <==> u.long)
  {
    FindPastUnit(pre, last, u, u.nal + post, from);
    hide CodeAt;
    var b, j := pre + last + (Code(u.long) + (u.nal + post)), |pre| + |last| + |Code(u.long)|;
    assert b == pre + last + Code(u.long) + (u.nal + post);
    assert b[j - 4] == if u.long then 0 else last[|last| - 1];
  }

  /**
   * A buffer made of `done`, an open unit `head + last` behind its 4-byte prefix, and the units to come; the
   * search position is at `last`, or on a zero just before it.
   */
  function Layout(done: Buf, prefix: Buf, head: Buf, last: Buf, rest: seq<Unit>): Buf {
    done + prefix + head + last + Stream(rest)
  }

  ghost predicate At(done: Buf, prefix: Buf, head: Buf, last: Buf, rest: seq<Unit>, i: nat) {
    && |prefix| == 4 && Clean(last) && AllClean(rest)
    && |head| + |last| + |Stream(rest)| < MAX_SIZE
    && |done| + 3 <= i <= |done| + 4 + |head| <= i + 1
    && (i < |done| + 4 + |head| ==> !CodeAt(Layout(done, prefix, head, last, rest), i))
  }

  lemma NextInLayout(done: Buf, prefix: Buf, head: Buf, last: Buf, rest: seq<Unit>, i: nat)
    requires At(done, prefix, head, last, rest, i) && rest != []
    ensures var u, post, b := rest[0], Stream(rest[1..]), Layout(done, prefix, head, last, rest);
            var j := |done| + 4 + |head| + |last| + |Code(u.long)|;
            && Find(b, i) == j - 3 && j < |b| && b[j..] == u.nal + post
            && b == done + prefix + (head + last) + (Code(u.long) + (u.nal + post))
            && (Splits(b[j..]) <==> Splits(u.nal)) && j >= 4 && (b[j - 4] == 0 <==> u.long)
  {
    hide CodeAt, Find, Clean, Splits, Code, Stream;
    var u, post := rest[0], Stream(rest[1..]);
    StreamSplits(rest);
    assert Clean(u.nal);
    var b := Layout(done, prefix, head, last, rest);
    assert forall p: nat :: i <= p < |done + prefix + head| ==> p == i && !CodeAt(b, p);
    NextUnit(done + prefix + head, last, u, post, i);
    Assoc(done + prefix, head, last);
  }

  lemma StreamSplits(units: seq<Unit>)
    requires units != []
    ensures Stream(units) == Code(units[0].long) + (units[0].nal + Stream(units[1..]))
  {
    hide Code;
  }

  lemma Assoc(a: Buf, b: Buf, c: Buf)
    ensures a + b + c == a + (b + c)
  {
  }

  lemma LayoutGlued(done: Buf, prefix: Buf, head: Buf, last: Buf, rest: seq<Unit>)
    requires rest != []
    ensures Layout(done, prefix, head, last, rest) ==
            Layout(done, prefix, head + last + Code(rest[0].long), rest[0].nal, rest[1..])
  {
    hide Code, Stream;
    var a, code, nal, tail := done + prefix, Code(rest[0].long), rest[0].nal, Stream(rest[1..]);
    StreamSplits(rest);
    Assoc(a, head, last);
    Assoc(a + (head + last), code, nal + tail);
    Assoc(a + (head + last) + code, nal, tail);
    Assoc(a, head + last, code);
  }

  lemma StepGlue(done: Buf, prefix: Buf, head: Buf, last: Buf, rest: seq<Unit>, i: nat)
    requires At(done, prefix, head, last, rest, i) && rest != [] && !Splits(rest[0].nal)
    ensures var u, longer := rest[0], head + last + Code(rest[0].long);
            && At(done, prefix, longer, u.nal, rest[1..], |done| + 4 + |longer|)
            && Scan(Layout(done, prefix, head, last, rest), |done|, i) ==
               Scan(Layout(done, prefix, longer, u.nal, rest[1..]), |done|, |done| + 4 + |longer|)
  {
    hide CodeAt, PutField, Find, Clean, Splits, Code, Layout, Stream, Scan;
    NextInLayout(done, prefix, head, last, rest, i);
    LayoutGlued(done, prefix, head, last, rest);
    StreamSplits(rest);
    ScanStep(Layout(done, prefix, head, last, rest), |done|, i);
  }

  lemma LongAt(done: Buf, prefix: Buf, head: Buf, last: Buf, rest: seq<Unit>, i: nat)
    requires At(done, prefix, head, last, rest, i) && rest != []
    ensures var c := done + Frame(head + last); At(c, Code(true), [], rest[0].nal, rest[1..], |c| + 4)
  {
    StreamSplits(rest);
    assert Clean(rest[0].nal);
    hide CodeAt, Clean, Frame, Layout, Stream;
  }

  /** The scan closes the open unit at a recognised unit behind a 4-byte code. */
  lemma ScanAtLong(b: Buf, start: nat, i: nat, j: nat)
    requires start + 4 <= |b| && start + 3 <= i && 4 <= j < |b| && Find(b, i) == j - 3
    requires Splits(b[j..]) && b[j - 4] == 0
    ensures Scan(b, start, i) == Scan(PutField(b, start, j - start - 8), j - 4, j)
  {
    hide Find, Splits, PutField, Scan;
    ScanStep(b, start, i);
  }

  /** And at one behind a 3-byte code, which gets its fourth byte. */
  lemma ScanAtShort(b: Buf, start: nat, i: nat, j: nat)
    requires start + 4 <= |b| && start + 3 <= i && 4 <= j < |b| && Find(b, i) == j - 3
    requires Splits(b[j..]) && b[j - 4] != 0
    ensures Scan(b, start, i) == Scan(Grown(b, start, j), j - 3, j)
  {
    hide Find, Splits, PutField, Scan, Grown;
    ScanStep(b, start, i);
  }

  lemma ScanTo(b: Buf, start: nat, i: nat, j: nat, c: Buf)
    requires start + 4 <= |b| && start + 3 <= i && 4 <= j < |b| && Find(b, i) == j - 3
    requires Splits(b[j..]) && b[j - 4] != 0 && Grown(b, start, j) == c
    ensures Scan(b, start, i) == Scan(c, j - 3, j)
  {
    hide *;
    ScanAtShort(b, start, i, j);
  }

  lemma CloseLong(b: Buf, done: Buf, prefix: Buf, unit: Buf, tail: Buf, i: nat)
    requires |prefix| == 4 && |unit| < MAX_SIZE && |done| + 3 <= i && b == done + prefix + unit + tail
    requires var j := |done| + |unit| + 8; Find(b, i) == j - 3 && j < |b| && Splits(b[j..]) && b[j - 4] == 0
    ensures Scan(b, |done|, i) == Scan(done + Frame(unit) + tail, |done| + |unit| + 4, |done| + |unit| + 8)
  {
    hide Find, Splits, PutField, Scan, Frame;
    ScanAtLong(b, |done|, i, |done| + |unit| + 8);
    Closed(done, prefix, unit, tail);
  }

  lemma FieldShort(b: Buf, done: Buf, prefix: Buf, unit: Buf, post: Buf, j: nat)
    requires |prefix| == 4 && |unit| < MAX_SIZE && b == done + prefix + unit + (Code(false) + post)
    requires j == |done| + |unit| + 7
    ensures |done| + 4 <= |b|
    ensures j <= |b| && Grown(b, |done|, j) == done + Frame(unit) + Zeroed() + post
  {
    hide PutField, Frame, Code, Zeroed;
    Closed(done, prefix, unit, Code(false) + post);
    assert j - |done| - 7 == |unit|;
    Padded(done + Frame(unit), post, j);
  }

  lemma StepLong(done: Buf, prefix: Buf, head: Buf, last: Buf, rest: seq<Unit>, i: nat)
    requires At(done, prefix, head, last, rest, i) && rest != [] && Splits(rest[0].nal) && rest[0].long
    ensures var c := done + Frame(head + last);
            && At(c, Code(true), [], rest[0].nal, rest[1..], |c| + 4)
            && Scan(Layout(done, prefix, head, last, rest), |done|, i) ==
               Scan(Layout(c, Code(true), [], rest[0].nal, rest[1..]), |c|, |c| + 4)
  {
    hide At, PutField, Find, Splits, Frame, Scan, Layout, Stream, Code, Zeroed;
    LongAt(done, prefix, head, last, rest, i);
    NextInLayout(done, prefix, head, last, rest, i);
    AtBounds(done, prefix, head, last, rest, i);
    CodeLengths();
    var tail := Code(true) + (rest[0].nal + Stream(rest[1..]));
    CloseLong(Layout(done, prefix, head, last, rest), done, prefix, head + last, tail, i);
    LayoutOpen(done + Frame(head + last), Code(true), rest[0].nal, rest[1..]);
  }

  lemma CodeLengths()
    ensures |Code(true)| == 4 && |Code(false)| == 3
  {
  }

  lemma AtBounds(done: Buf, prefix: Buf, head: Buf, last: Buf, rest: seq<Unit>, i: nat)
    requires At(done, prefix, head, last, rest, i)
    ensures |prefix| == 4 && |head + last| < MAX_SIZE && |done| + 3 <= i
    ensures |done| + 4 <= |Layout(done, prefix, head, last, rest)|
  {
    hide CodeAt, Clean, Stream;
  }

  lemma LayoutOpen(c: Buf, prefix: Buf, nal: Buf, rest: seq<Unit>)
    ensures Layout(c, prefix, [], nal, rest) == c + (prefix + (nal + Stream(rest)))
  {
    hide Stream;
    Empty(c + prefix);
    Assoc(c + prefix, nal, Stream(rest));
    Assoc(c, prefix, nal + Stream(rest));
  }

  lemma ShortAt(done: Buf, prefix: Buf, head: Buf, last: Buf, rest: seq<Unit>, i: nat)
    requires At(done, prefix, head, last, rest, i) && rest != [] && Splits(rest[0].nal)
    ensures var c := done + Frame(head + last); At(c, Zeroed(), [], rest[0].nal, rest[1..], |c| + 3)
  {
    StreamSplits(rest);
    assert Clean(rest[0].nal);
    NoCodeAtSplit(done + Frame(head + last), rest[0].nal, rest[1..]);
    hide CodeAt, Clean, Frame, Layout, Stream, Splits;
  }

  lemma StepShort(done: Buf, prefix: Buf, head: Buf, last: Buf, rest: seq<Unit>, i: nat)
    requires At(done, prefix, head, last, rest, i) && rest != [] && Splits(rest[0].nal) && !rest[0].long
    ensures var c := done + Frame(head + last);
            && At(c, Zeroed(), [], rest[0].nal, rest[1..], |c| + 3)
            && Scan(Layout(done, prefix, head, last, rest), |done|, i) ==
               Scan(Layout(c, Zeroed(), [], rest[0].nal, rest[1..]), |c|, |c| + 3)
  {
    hide At, PutField, Find, Splits, Frame, Scan, Layout, Stream, Code, Zeroed, Grown;
    ShortAt(done, prefix, head, last, rest, i);
    NextInLayout(done, prefix, head, last, rest, i);
    AtBounds(done, prefix, head, last, rest, i);
    CodeLengths();
    var post := rest[0].nal + Stream(rest[1..]);
    var b, j := Layout(done, prefix, head, last, rest), |done| + |head + last| + 7;
    FieldShort(b, done, prefix, head + last, post, j);
    ScanTo(b, |done|, i, j, done + Frame(head + last) + Zeroed() + post);
    ShortOpen(done + Frame(head + last), rest[0].nal, rest[1..]);
  }

  lemma ShortOpen(c: Buf, nal: Buf, rest: seq<Unit>)
    ensures Layout(c, Zeroed(), [], nal, rest) == c + Zeroed() + (nal + Stream(rest))
  {
    hide Stream;
    LayoutOpen(c, Zeroed(), nal, rest);
    Assoc(c, Zeroed(), nal + Stream(rest));
  }

  lemma Padded(c: Buf, post: Buf, j: nat)
    requires j == |c| + 3
    ensures var d := c + (Code(false) + post);
            j <= |d| && d[..j] + [0] + d[j..] == c + Zeroed() + post
  {
    var d := c + (Code(false) + post);
    assert d[j..] == post;
  }

  lemma NoCodeAtSplit(c: Buf, nal: Buf, rest: seq<Unit>)
    requires Splits(nal)
    ensures var b := Layout(c, Zeroed(), [], nal, rest);
            !CodeAt(b, |c| + 3) && b == c + Zeroed() + (nal + Stream(rest))
  {
    assert Layout(c, Zeroed(), [], nal, rest)[|c| + 4] == nal[0];
  }

  lemma ScanLast(done: Buf, prefix: Buf, head: Buf, last: Buf, i: nat)
    requires At(done, prefix, head, last, [], i)
    ensures Scan(Layout(done, prefix, head, last, []), |done|, i) == done + Frame(head + last)
  {
    hide CodeAt, PutField, Find, Clean, Splits, Frame;
    var b := done + prefix + head + last;
    assert Layout(done, prefix, head, last, []) == b;
    FindInLast(done + prefix + head, last, i);
    ClosedLast(done, prefix, head + last);
    assert b == done + prefix + (head + last);
  }

  lemma JoinMerged(done: Buf, current: Buf, rest: seq<Unit>)
    requires rest != []
    ensures if Splits(rest[0].nal)
            then done + Join(Merge(current, rest)) == done + Frame(current) + Join(Merge(rest[0].nal, rest[1..]))
            else Merge(current, rest) == Merge(current + Code(rest[0].long) + rest[0].nal, rest[1..])
  {
    hide Splits, Frame, Code;
    if Splits(rest[0].nal) {
      var more := Merge(rest[0].nal, rest[1..]);
      assert ([current] + more)[1..] == more;
      Assoc(done, Frame(current), Join(more));
    }
  }

  lemma {:induction false} ScanUnits(done: Buf, prefix: Buf, head: Buf, last: Buf, rest: seq<Unit>, i: nat)
    requires At(done, prefix, head, last, rest, i)
    ensures Scan(Layout(done, prefix, head, last, rest), |done|, i) == done + Join(Merge(head + last, rest))
    decreases |rest|
  {
    hide At, Splits, Scan, Frame, Layout, Join, Code;
    if rest == [] {
      ScanLast(done, prefix, head, last, i);
      JoinOne(head + last);
    } else {
      JoinMerged(done, head + last, rest);
      hide Merge;
      var u, c := rest[0], done + Frame(head + last);
      assert [] + u.nal == u.nal;
      if !Splits(u.nal) {
        StepGlue(done, prefix, head, last, rest, i);
        var longer := head + last + Code(u.long);
        ScanUnits(done, prefix, longer, u.nal, rest[1..], |done| + 4 + |longer|);
      } else if u.long {
        StepLong(done, prefix, head, last, rest, i);
        ScanUnits(c, Code(true), [], u.nal, rest[1..], |c| + 4);
      } else {
        StepShort(done, prefix, head, last, rest, i);
        ScanUnits(c, Zeroed(), [], u.nal, rest[1..], |c| + 3);
      }
    }
  }

  lemma LongStart(units: seq<Unit>)
    requires units != [] && units[0].nal != []
    ensures Convertible(Stream(units))
    ensures var b := Stream(units);
            (if b[2] == 1 then [0] + b else b) == Layout([], [0, 0, 0, 1], [], units[0].nal, units[1..])
  {
    StreamSplits(units);
    var u, tail, start := units[0], Stream(units[1..]), [0, 0, 0, 1];
    Empty(start);
    Assoc(start, u.nal, tail);
    if !u.long {
      Assoc([0], Code(false), u.nal + tail);
      assert [0] + Code(false) == start;
    }
  }

  lemma Empty(a: Buf)
    ensures [] + a == a == a + []
  {
  }

  /** DecodeAnnexB of any stream of clean units is the AVCC form of its merged units. */
  lemma ConvertedStream(units: seq<Unit>)
    requires units != [] && AllClean(units) && |Stream(units)| < MAX_SIZE
    ensures Convertible(Stream(units)) && Converted(Stream(units)) == Join(Merge(units[0].nal, units[1..]))
  {
    hide CodeAt, Find, Clean, Splits, Scan, Merge, Join;
    var u, rest := units[0], units[1..];
    LongStart(units);
    ScanUnits([], [0, 0, 0, 1], [], u.nal, rest, 4);
    assert [] + u.nal == u.nal;
  }

  /** A slice, an IDR slice or a parameter set, with the forbidden bit clear. */
  predicate Recognised(nal: Buf) {
    nal != [] && nal[0] < 128 && nal[0] % 32 in {1, 5, 7, 8}
  }

  /** The units after the first all are. */
  ghost predicate AllSplit(rest: seq<Unit>) {
    forall k: nat :: k < |rest| ==> Recognised(rest[k].nal)
  }

  lemma SplitsIffRecognised(nal: Buf)
    ensures Splits(nal) <==> Recognised(nal)
  {
  }

  lemma {:induction false} MergeLength(current: Buf, rest: seq<Unit>)
    ensures 1 <= |Merge(current, rest)| <= 1 + |rest|
    ensures |Merge(current, rest)| == 1 + |rest| <==> AllSplit(rest)
    ensures AllSplit(rest) ==> Merge(current, rest) == [current] + Nals(rest)
    decreases |rest|
  {
    hide Splits, Recognised;
    if rest != [] {
      SplitsIffRecognised(rest[0].nal);
      var next := if Splits(rest[0].nal) then rest[0].nal else current + Code(rest[0].long) + rest[0].nal;
      MergeLength(next, rest[1..]);
      assert AllSplit(rest) ==> AllSplit(rest[1..]);
      assert AllSplit(rest[1..]) && Splits(rest[0].nal) ==> AllSplit(rest);
    }
  }

  lemma {:induction false} NalsAt(units: seq<Unit>, k: nat)
    requires k < |units|
    ensures Nals(units)[k] == units[k].nal
  {
    if k > 0 {
      NalsAt(units[1..], k - 1);
    }
  }

  lemma {:induction false} StreamBound(units: seq<Unit>, k: nat)
    requires k < |units|
    ensures |units[k].nal| < |Stream(units)|
  {
    if k > 0 {
      StreamBound(units[1..], k - 1);
    }
  }

  lemma {:induction false} MergeBound(current: Buf, rest: seq<Unit>)
    requires |current| + |Stream(rest)| < MAX_SIZE
    ensures Sized(Merge(current, rest))
    decreases |rest|
  {
    hide Splits;
    if rest != [] {
      var next := if Splits(rest[0].nal) then rest[0].nal else current + Code(rest[0].long) + rest[0].nal;
      MergeBound(next, rest[1..]);
    }
  }

  lemma StreamSized(units: seq<Unit>)
    requires |Stream(units)| < MAX_SIZE
    ensures Sized(Nals(units))
  {
    forall k: nat | k < |units|
      ensures |Nals(units)[k]| < MAX_SIZE
    {
      NalsAt(units, k);
      StreamBound(units, k);
    }
  }

  /** Exactly when the conversion keeps the units apart: all but the first are of a recognised type. */
  lemma ConvertsIffAllSplit(units: seq<Unit>)
    requires units != [] && AllClean(units) && |Stream(units)| < MAX_SIZE
    ensures Convertible(Stream(units))
    ensures Converted(Stream(units)) == Join(Nals(units)) <==> AllSplit(units[1..])
  {
    var u, rest := units[0], units[1..];
    var merged := Merge(u.nal, rest);
    assert Nals(units) == [u.nal] + Nals(rest);
    hide Clean, Splits, Merge, Join, Converted, Stream;
    ConvertedStream(units);
    MergeLength(u.nal, rest);
    StreamSized(units);
    if Join(merged) == Join(Nals(units)) {
      assert Sized(merged) by {
        StreamTail(units);
        MergeBound(u.nal, rest);
      }
      JoinInjective(merged, Nals(units));
    }
  }

  lemma StreamTail(units: seq<Unit>)
    requires units != []
    ensures |units[0].nal| + |Stream(units[1..])| < |Stream(units)|
  {
  }

  // ---------------------------------------------------------------- EmitNalus

  /** The zeros that end just before `i`, looking back no further than `start`. */
  function Zeros(b: Buf, start: nat, i: nat): (r: nat)
    requires start <= i <= |b|
    ensures r <= i - start
  {
    if i == start || b[i - 1] != 0 then 0 else 1 + Zeros(b, start, i - 1)
  }

  /** The first code from `start` on, with all the zeros in front of it: where it begins and how long it is. */
  function NextCode(b: Buf, start: nat): (r: (int, int))
    requires start <= |b|
    ensures r.0 == -1 || (start <= r.0 && 3 <= r.1 && r.0 + r.1 <= |b|)
  {
    var p := Find(b, start);
    if p < 0 then (-1, -1)
    else
      var zeros := Zeros(b, start, p + 2);
      assert zeros >= 2 by {
        assert Zeros(b, start, p + 1) >= 1;
      }
      (p + 2 - zeros, zeros + 1)
  }

  method NextInd(nalu: Buf, start: nat) returns (indStart: int, indLen: int)
    requires start <= |nalu|
    ensures (indStart, indLen) == NextCode(nalu, start)
  {
    hide Find;
    var zeroCount := 0;
    for i := start to |nalu|
      invariant zeroCount == Zeros(nalu, start, i)
      invariant forall p: nat :: start <= p && p + 2 < i ==> !CodeAt(nalu, p)
    {
      ZerosBehind(nalu, start, i);
      if nalu[i] == 0 {
        zeroCount := zeroCount + 1;
        continue;
      } else if nalu[i] == 1 {
        if zeroCount >= 2 {
          FindIs(nalu, start, i - 2);
          return i - zeroCount, zeroCount + 1;
        }
      }
      zeroCount := 0;
    }
    FindNone(nalu, start);
    return -1, -1;
  }

  lemma ZerosBehind(b: Buf, start: nat, i: nat)
    requires start <= i <= |b|
    ensures Zeros(b, start, i) >= 2 <==> start + 2 <= i && b[i - 1] == 0 && b[i - 2] == 0
  {
    if start < i && b[i - 1] == 0 {
      assert Zeros(b, start, i) == 1 + Zeros(b, start, i - 1);
    }
  }

  /** The pieces between codes, from `prev` on. */
  function Pieces(b: Buf, prev: nat): seq<Buf>
    requires prev <= |b|
    decreases |b| - prev
  {
    var next := NextCode(b, prev);
    if next.0 == -1 then [b[prev..]] else [b[prev..next.0]] + Pieces(b, next.0 + next.1)
  }

  function Emitted(b: Buf): seq<Buf> {
    var first := NextCode(b, 0);
    if first.0 == -1 then [b] else Pieces(b, first.0 + first.1)
  }

  method EmitNalus(nals: Buf, isAVC: bool) returns (emitted: seq<Buf>)
    ensures emitted == if isAVC then Split(nals) else Emitted(nals)
  {
    hide NextCode;
    if isAVC {
      emitted := EmitAvcNalus(nals);
      return;
    }
    emitted := [];
    var nextIndStart, nextIndLen := NextInd(nals, 0);
    if nextIndStart == -1 {
      emitted := [nals];
      return;
    }
    while nextIndStart != -1
      invariant nextIndStart != -1 ==> 0 <= nextIndStart && 3 <= nextIndLen && nextIndStart + nextIndLen <= |nals|
      invariant nextIndStart == -1 ==> emitted == Emitted(nals)
      invariant nextIndStart != -1 ==> emitted + Pieces(nals, nextIndStart + nextIndLen) == Emitted(nals)
      decreases if nextIndStart == -1 then 0 else 1 + |nals| - nextIndStart
    {
      var prevStart := nextIndStart + nextIndLen;
      nextIndStart, nextIndLen := NextInd(nals, prevStart);
      if nextIndStart != -1 {
        emitted := emitted + [nals[prevStart..nextIndStart]];
      } else {
        emitted := emitted + [nals[prevStart..]];
      }
    }
  }

  lemma ZerosOfCode(b: Buf, start: nat, e: nat, long: bool)
    requires start <= e && e + |Code(long)| <= |b| && b[e..e + |Code(long)|] == Code(long)
    requires start == e || b[e - 1] != 0
    ensures Zeros(b, start, e + |Code(long)| - 1) == |Code(long)| - 1
  {
    assert forall k: nat :: k < |Code(long)| ==> b[e + k] == Code(long)[k];
    assert Zeros(b, start, e) == 0 && Zeros(b, start, e + 1) == 1 && Zeros(b, start, e + 2) == 2;
  }

  lemma NextCodeIs(pre: Buf, nal: Buf, u: Unit, post: Buf)
    requires Clean(nal)
    ensures NextCode(pre + nal + (Code(u.long) + post), |pre|) == (|pre| + |nal|, |Code(u.long)|)
  {
    hide CodeAt, Find;
    var b, e := pre + nal + (Code(u.long) + post), |pre| + |nal|;
    FindPastUnit(pre, nal, u, post, |pre|);
    assert b[e..e + |Code(u.long)|] == Code(u.long);
    assert b[e - 1] == nal[|nal| - 1];
    ZerosOfCode(b, |pre|, e, u.long);
  }

  lemma PiecesStep(b: Buf, prev: nat, e: nat, len: nat)
    requires prev <= |b| && NextCode(b, prev) == (e, len)
    ensures prev <= e && e + len <= |b| && Pieces(b, prev) == [b[prev..e]] + Pieces(b, e + len)
  {
    hide NextCode;
  }

  lemma Middle(a: Buf, b: Buf, c: Buf)
    ensures (a + b + c)[|a|..|a| + |b|] == b
  {
  }

  lemma FirstPiece(pre: Buf, nal: Buf, rest: seq<Unit>)
    requires Clean(nal) && AllClean(rest) && rest != []
    ensures var b, longer := pre + nal + Stream(rest), pre + nal + Code(rest[0].long);
            && b == longer + rest[0].nal + Stream(rest[1..])
            && Pieces(b, |pre|) == [nal] + Pieces(b, |longer|)
  {
    hide Clean, Code, NextCode, Stream, Pieces;
    var u, post := rest[0], rest[0].nal + Stream(rest[1..]);
    var b, longer := pre + nal + Stream(rest), pre + nal + Code(u.long);
    StreamSplits(rest);
    NextCodeIs(pre, nal, u, post);
    Assoc(pre + nal, Code(u.long), post);
    Assoc(longer, u.nal, Stream(rest[1..]));
    PiecesStep(b, |pre|, |pre + nal|, |Code(u.long)|);
    Middle(pre, nal, Stream(rest));
  }

  lemma LastPiece(pre: Buf, nal: Buf)
    requires Clean(nal)
    ensures Pieces(pre + nal + Stream([]), |pre|) == [nal]
  {
    hide CodeAt, Find, Clean;
    var b := pre + nal;
    assert b == pre + nal + Stream([]);
    FindInLast(pre, nal, |pre|);
    assert b[|pre|..] == nal;
  }

  lemma {:induction false} PiecesOfStream(pre: Buf, nal: Buf, rest: seq<Unit>)
    requires Clean(nal) && AllClean(rest)
    ensures Pieces(pre + nal + Stream(rest), |pre|) == [nal] + Nals(rest)
    decreases |rest|
  {
    hide Clean, Code, Pieces, Stream;
    if rest == [] {
      LastPiece(pre, nal);
    } else {
      FirstPiece(pre, nal, rest);
      PiecesOfStream(pre + nal + Code(rest[0].long), rest[0].nal, rest[1..]);
    }
  }

  /** EmitNalus hands out exactly the units of a stream. */
  lemma EmittedStream(units: seq<Unit>)
    requires units != [] && AllClean(units)
    ensures Emitted(Stream(units)) == Nals(units)
  {
    var u, rest := units[0], units[1..];
    var b := Stream(units);
    StreamSplits(units);
    FirstCode(u.long, u.nal + Stream(rest));
    hide Clean, Code, NextCode, Pieces;
    PiecesOfStream(Code(u.long), u.nal, rest);
    assert b == Code(u.long) + u.nal + Stream(rest);
  }

  lemma FirstCode(long: bool, post: Buf)
    ensures NextCode(Code(long) + post, 0) == (0, |Code(long)|)
  {
    var b := Code(long) + post;
    assert b[..|Code(long)|] == Code(long);
    assert b[0] == 0 && b[1] == 0 && b[2] == Code(long)[2];
    ZerosOfCode(b, 0, 0, long);
    if long {
      assert b[3] == 1;
      FindIs(b, 0, 1);
    } else {
      FindIs(b, 0, 0);
    }
  }

  /** The in-place conversion and the list form agree, exactly when every unit but the first is recognised. */
  lemma ConversionRefinesList(units: seq<Unit>)
    requires units != [] && AllClean(units) && |Stream(units)| < MAX_SIZE
    ensures Convertible(Stream(units)) && Emitted(Stream(units)) == Nals(units)
    ensures Converted(Stream(units)) == Join(Emitted(Stream(units))) <==> AllSplit(units[1..])
  {
    hide *;
    EmittedStream(units);
    ConvertsIffAllSplit(units);
  }

  const SPS_UNIT := Unit(true, [0x67])
  const SEI_UNIT := Unit(false, [0x06])

  lemma SeiStream()
    ensures Stream([SPS_UNIT, SEI_UNIT]) == [0, 0, 0, 1, 0x67, 0, 0, 1, 0x06]
    ensures Nals([SPS_UNIT, SEI_UNIT]) == [[0x67], [0x06]]
  {
    var units := [SPS_UNIT, SEI_UNIT];
    assert units[1..] == [SEI_UNIT] && [SEI_UNIT][1..] == [];
    assert Stream([SEI_UNIT]) == [0, 0, 1, 0x06] + Stream([]);
    assert Nals([SEI_UNIT]) == [[0x06]];
  }

  lemma SeiMerged()
    ensures !AllSplit([SEI_UNIT]) && Merge([0x67], [SEI_UNIT]) == [[0x67, 0, 0, 1, 0x06]]
  {
    assert [SEI_UNIT][0] == SEI_UNIT && !Splits(SEI_UNIT.nal);
    assert [0x67] + Code(false) + [0x06] == [0x67, 0, 0, 1, 0x06];
    assert [SEI_UNIT][1..] == [];
  }

  lemma SeiClean()
    ensures AllClean([SPS_UNIT, SEI_UNIT])
  {
  }

  /** The input that shows it: an SEI unit behind a parameter set comes out as part of the parameter set. */
  lemma SeiIsGlued()
    ensures var b := Stream([SPS_UNIT, SEI_UNIT]);
            && b == [0, 0, 0, 1, 0x67, 0, 0, 1, 0x06] && Convertible(b)
            && Emitted(b) == [[0x67], [0x06]]
            && Converted(b) == Join([[0x67, 0, 0, 1, 0x06]]) != Join(Emitted(b))
  {
    hide Stream, Emitted, Converted, Merge, Join, Nals, Convertible, AllClean, AllSplit;
    var units := [SPS_UNIT, SEI_UNIT];
    SeiStream();
    SeiMerged();
    SeiClean();
    assert units[1..] == [SEI_UNIT];
    ConvertedStream(units);
    ConversionRefinesList(units);
  }

  lemma PieceHasNoCode(b: Buf, prev: nat)
    requires prev <= |b|
    ensures var next := NextCode(b, prev);
            CodeFree(b[prev..if next.0 == -1 then |b| else next.0])
  {
    hide Find, Zeros;
    var next := NextCode(b, prev);
    var end := if next.0 == -1 then |b| else next.0;
    forall p: nat
      ensures !CodeAt(b[prev..end], p)
    {
      assert !CodeAt(b, prev + p) || p + 3 > end - prev;
    }
  }

  lemma {:induction false} PiecesHaveNoCode(b: Buf, prev: nat)
    requires prev <= |b|
    ensures forall k: nat :: k < |Pieces(b, prev)| ==> CodeFree(Pieces(b, prev)[k])
    decreases |b| - prev
  {
    PieceHasNoCode(b, prev);
    hide NextCode, CodeFree;
    var next := NextCode(b, prev);
    if next.0 == -1 {
      assert b[prev..] == b[prev..|b|];
      assert Pieces(b, prev) == [b[prev..]];
    } else {
      PiecesHaveNoCode(b, next.0 + next.1);
      assert Pieces(b, prev) == [b[prev..next.0]] + Pieces(b, next.0 + next.1);
    }
  }

  /** Whatever the buffer, no unit handed out contains a start code. */
  lemma EmittedHaveNoCode(b: Buf)
    ensures forall k: nat :: k < |Emitted(b)| ==> CodeFree(Emitted(b)[k])
  {
    hide CodeAt;
    var first := NextCode(b, 0);
    if first.0 != -1 {
      PiecesHaveNoCode(b, first.0 + first.1);
    }
  }
}
