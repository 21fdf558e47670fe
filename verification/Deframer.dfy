/**
 * The incremental deframer of the reverse-direct media connection (EzvizDirectMediaDeframer in
 * scripts/ezviz_direct_media.py): '$', a type, a 16-bit length and the payload; type 1 names the session,
 * type 2 carries a 4-byte prefix and a media fragment. Proved independent of how TCP cuts the bytes.
 */
module Deframer {
  import opened Wrappers
  import opened Bytes

  const MAGIC := 0x24
  const HEADER := 4
  const SESSION := 1
  const MEDIA := 2
  const PREFIX := 4
  const DASH: Byte := 45

  datatype Error =
    | LostAlignment | SessionMismatch | UnsupportedType(messageType: nat) | MissingPrefix | Incomplete(bytes: nat)

  // ---------------------------------------------------------------- the session identifier

  function StripNuls(b: Buf): Buf {
    if b != [] && b[|b| - 1] == 0 then StripNuls(b[..|b| - 1]) else b
  }

  /** What the last dash splits off, as rpartition does; None without a dash. */
  function LastDash(b: Buf): (r: Option<(Buf, Buf)>)
    ensures r.Some? ==> b == r.value.0 + [DASH] + r.value.1 && DASH !in r.value.1
    ensures r.None? <==> DASH !in b
  {
    if b == [] then None
    else if b[|b| - 1] == DASH then Some((b[..|b| - 1], []))
    else
      var r := LastDash(b[..|b| - 1]);
      assert b == b[..|b| - 1] + [b[|b| - 1]];
      if r.None? then None else Some((r.value.0, r.value.1 + [b[|b| - 1]]))
  }

  predicate Digits(b: Buf) {
    b != [] && forall i :: 0 <= i < |b| ==> 48 <= b[i] <= 57
  }

  predicate SessionOk(expected: Option<Buf>, payload: Buf) {
    expected.None? ||
    var value := StripNuls(payload);
    var want, got := LastDash(expected.value), LastDash(value);
    value == expected.value
    || (want.Some? && got.Some? && got.value.0 == want.value.0 && Digits(got.value.1))
  }

  lemma {:induction false} LastDashIs(prefix: Buf, suffix: Buf)
    requires DASH !in suffix
    ensures LastDash(prefix + [DASH] + suffix) == Some((prefix, suffix))
    decreases |suffix|
  {
    var b := prefix + [DASH] + suffix;
    if suffix == [] {
      assert b[..|b| - 1] == prefix;
    } else {
      var init := suffix[..|suffix| - 1];
      LastDashIs(prefix, init);
      assert b[..|b| - 1] == prefix + [DASH] + init && b[|b| - 1] == suffix[|suffix| - 1];
      assert b[|b| - 1] in suffix;
      assert init + [b[|b| - 1]] == suffix;
    }
  }

  /** Accepted: the identifier itself, or the same fields with any other number after the last dash. */
  lemma SessionAccepts(prefix: Buf, suffix: Buf, payload: Buf)
    requires DASH !in suffix
    ensures var value := StripNuls(payload);
            SessionOk(Some(prefix + [DASH] + suffix), payload) <==>
            value == prefix + [DASH] + suffix || exists digits :: Digits(digits) && value == prefix + [DASH] + digits
  {
    LastDashIs(prefix, suffix);
    var value := StripNuls(payload);
    if digits :| Digits(digits) && value == prefix + [DASH] + digits {
      assert DASH !in digits;
      LastDashIs(prefix, digits);
    }
  }

  // ---------------------------------------------------------------- the loop

  datatype State = State(buffer: Buf, verified: bool, privateFrames: nat, mediaFrames: nat)

  const FRESH := State([], false, 0, 0)

  /** Fragments cut off before the loop ended, and the error that ended it, if any. */
  datatype Parsed = Parsed(state: State, media: seq<Buf>, error: Option<Error>)

  function FrameSize(b: Buf): (r: nat)
    requires |b| >= HEADER
    ensures r >= HEADER
  {
    HEADER + U16(b[2..])
  }

  predicate Waiting(b: Buf): (r: bool)
    ensures !r ==> |b| >= HEADER && (b[0] == MAGIC ==> FrameSize(b) <= |b|)
  {
    |b| < HEADER || (b[0] == MAGIC && |b| < FrameSize(b))
  }

  function Fragment(payload: Buf): seq<Buf>
    requires |payload| >= PREFIX
  {
    if payload[PREFIX..] == [] then [] else [payload[PREFIX..]]
  }

  /** One turn of the loop: wait for more bytes, stop with an error, or take a frame. */
  datatype Turn = Wait | Stop(state: State, error: Error) | Take(state: State, media: seq<Buf>)

  function TurnOf(expected: Option<Buf>, s: State): (t: Turn)
    ensures t.Take? ==> |t.state.buffer| < |s.buffer|
    ensures t.Wait? <==> Waiting(s.buffer)
  {
    var b := s.buffer;
    if Waiting(b) then Wait
    else if b[0] != MAGIC then Stop(s, LostAlignment)
    else
      var payload := b[HEADER..FrameSize(b)];
      var s1 := s.(buffer := b[FrameSize(b)..], privateFrames := s.privateFrames + 1);
      if b[1] == SESSION then
        if SessionOk(expected, payload) then Take(s1.(verified := true), []) else Stop(s1, SessionMismatch)
      else if b[1] != MEDIA then Stop(s1, UnsupportedType(b[1]))
      else if |payload| < PREFIX then Stop(s1, MissingPrefix)
      else Take(s1.(mediaFrames := s.mediaFrames + 1), Fragment(payload))
  }

  function Parse(expected: Option<Buf>, s: State): Parsed
    decreases |s.buffer|
  {
    match TurnOf(expected, s)
    case Wait => Parsed(s, [], None)
    case Stop(s', e) => Parsed(s', [], Some(e))
    case Take(s', media) =>
      var rest := Parse(expected, s');
      rest.(media := media + rest.media)
  }

  class EzvizDirectMediaDeframer {
    const expected: Option<Buf>
    var buffer: Buf
    var sessionVerified: bool
    var privateFrames: nat
    var mediaFrames: nat

    constructor (expected: Option<Buf>)
      ensures this.expected == expected && Now() == FRESH
    {
      this.expected := expected;
      buffer, sessionVerified, privateFrames, mediaFrames := [], false, 0, 0;
    }

    function Now(): State
      reads this
    {
      State(buffer, sessionVerified, privateFrames, mediaFrames)
    }

    method Feed(data: Buf) returns (r: Result<seq<Buf>, Error>)
      modifies this
      ensures var p := Parse(expected, old(Now().(buffer := buffer + data)));
              && Now() == p.state
              && r == if p.error.Some? then Failure(p.error.value) else Success(p.media)
    {
      hide U16, SessionOk, Parse;
      buffer := buffer + data;
      ghost var whole := Parse(expected, Now());
      var media: seq<Buf> := [];
      assert media + whole.media == whole.media;
      while |buffer| >= HEADER
        invariant Rest(whole, media, Parse(expected, Now()))
        decreases |buffer|
      {
        ParseTurn(expected, Now(), whole, media);
        if buffer[0] != MAGIC {
          return Failure(LostAlignment);
        }
        var messageType := buffer[1];
        var frameSize := HEADER + U16(buffer[2..]);
        if |buffer| < frameSize {
          break;
        }
        var payload := buffer[HEADER..frameSize];
        buffer := buffer[frameSize..];
        privateFrames := privateFrames + 1;
        if messageType == SESSION {
          if !SessionOk(expected, payload) {
            return Failure(SessionMismatch);
          }
          sessionVerified := true;
          assert media + [] == media;
          continue;
        }
        if messageType != MEDIA {
          return Failure(UnsupportedType(messageType));
        }
        if |payload| < PREFIX {
          return Failure(MissingPrefix);
        }
        mediaFrames := mediaFrames + 1;
        var fragment := payload[PREFIX..];
        assert media + [] == media;
        if fragment != [] {
          media := media + [fragment];
        }
      }
      ParseTurn(expected, Now(), whole, media);
      return Success(media);
    }

    method Finish() returns (r: Result<(), Error>)
      ensures r == if buffer == [] then Success(()) else Failure(Incomplete(|buffer|))
    {
      return if |buffer| != 0 then Failure(Incomplete(|buffer|)) else Success(());
    }
  }

  /** `whole` is what the fragments so far and the rest of the parse make together. */
  predicate Rest(whole: Parsed, media: seq<Buf>, rest: Parsed) {
    whole.state == rest.state && whole.error == rest.error && whole.media == media + rest.media
  }

  lemma ParseTurn(expected: Option<Buf>, s: State, whole: Parsed, media: seq<Buf>)
    requires Rest(whole, media, Parse(expected, s))
    ensures var t := TurnOf(expected, s);
            && (t.Wait? ==> whole == Parsed(s, media, None))
            && (t.Stop? ==> whole == Parsed(t.state, media, Some(t.error)))
            && (t.Take? ==> Rest(whole, media + t.media, Parse(expected, t.state)))
  {
    hide TurnOf;
    assert media + [] == media;
  }

  // ---------------------------------------------------------------- independence of the cuts

  function Extend(s: State, data: Buf): State {
    s.(buffer := s.buffer + data)
  }

  /** Fed chunk by chunk until an error: the fragments returned so far, the state, the error. */
  function FeedAll(expected: Option<Buf>, s: State, chunks: seq<Buf>): Parsed
    decreases |chunks|
  {
    if chunks == [] then Parsed(s, [], None)
    else
      var first := Parse(expected, Extend(s, chunks[0]));
      if first.error.Some? then Parsed(first.state, [], first.error)
      else
        var rest := FeedAll(expected, first.state, chunks[1..]);
        rest.(media := first.media + rest.media)
  }

  /** More bytes behind a complete frame do not change it. */
  lemma FrameStable(b: Buf, more: Buf)
    requires !Waiting(b)
    ensures !Waiting(b + more) && (b + more)[0] == b[0] && (b + more)[1] == b[1]
    ensures b[0] == MAGIC ==>
              var n := FrameSize(b);
              && FrameSize(b + more) == n && (b + more)[HEADER..n] == b[HEADER..n] && (b + more)[n..] == b[n..] + more
  {
    assert (b + more)[2..] == b[2..] + more;
  }

  lemma TurnMore(expected: Option<Buf>, s: State, more: Buf)
    ensures var t := TurnOf(expected, s);
            && (t.Stop? ==> TurnOf(expected, Extend(s, more)) == Stop(Extend(t.state, more), t.error))
            && (t.Take? ==> TurnOf(expected, Extend(s, more)) == Take(Extend(t.state, more), t.media))
  {
    hide Waiting, FrameSize, SessionOk, Fragment;
    if !Waiting(s.buffer) {
      FrameStable(s.buffer, more);
    }
  }

  /** Parsing a longer buffer is parsing the shorter one and going on from where it stopped. */
  lemma {:induction false} ParseMore(expected: Option<Buf>, s: State, more: Buf)
    ensures var p := Parse(expected, s);
            && (p.error.Some? ==>
                  Parse(expected, Extend(s, more)) == Parsed(Extend(p.state, more), p.media, p.error))
            && (p.error.None? ==>
                  var rest := Parse(expected, Extend(p.state, more));
                  Parse(expected, Extend(s, more)) == rest.(media := p.media + rest.media))
    decreases |s.buffer|
  {
    hide TurnOf, Extend;
    var t := TurnOf(expected, s);
    TurnMore(expected, s, more);
    if t.Wait? {
      var rest := Parse(expected, Extend(s, more));
      assert [] + rest.media == rest.media;
    } else if t.Take? {
      ParseMore(expected, t.state, more);
      var p := Parse(expected, t.state);
      var rest := Parse(expected, Extend(p.state, more));
      assert t.media + (p.media + rest.media) == (t.media + p.media) + rest.media;
    }
  }

  /**
   * However the bytes are cut: the same error as one whole feed, and without one the same fragments, counters
   * and retained bytes; with one, the fragments returned before it are the first of those parsed.
   */
  lemma {:induction false} FeedingIsIndependentOfCuts(expected: Option<Buf>, s: State, chunks: seq<Buf>)
    requires Waiting(s.buffer)
    ensures var whole, cut := Parse(expected, Extend(s, Concat(chunks))), FeedAll(expected, s, chunks);
            && cut.error == whole.error
            && (whole.error.None? ==> cut == whole)
            && cut.media <= whole.media
    decreases |chunks|
  {
    hide Waiting, TurnOf;
    if chunks == [] {
      assert Extend(s, []) == s;
    } else {
      var first := Parse(expected, Extend(s, chunks[0]));
      var more := Concat(chunks[1..]);
      ParseMore(expected, Extend(s, chunks[0]), more);
      assert Extend(Extend(s, chunks[0]), more) == Extend(s, Concat(chunks));
      if first.error.None? {
        ParseStops(expected, Extend(s, chunks[0]));
        FeedingIsIndependentOfCuts(expected, first.state, chunks[1..]);
      }
    }
  }

  lemma {:induction false} ParseStops(expected: Option<Buf>, s: State)
    ensures Parse(expected, s).error.None? ==> Waiting(Parse(expected, s).state.buffer)
    decreases |s.buffer|
  {
    hide TurnOf, Waiting;
    var t := TurnOf(expected, s);
    if t.Take? {
      ParseStops(expected, t.state);
    }
  }

  // ---------------------------------------------------------------- frames

  datatype Frame = Frame(messageType: Byte, payload: Buf)

  function Encode(f: Frame): Buf {
    [MAGIC, f.messageType] + U16Bytes(|f.payload|) + f.payload
  }

  function EncodeAll(frames: seq<Frame>): Buf {
    if frames == [] then [] else Encode(frames[0]) + EncodeAll(frames[1..])
  }

  predicate Accepted(expected: Option<Buf>, f: Frame) {
    && |f.payload| < 0x1_00_00
    && (f.messageType == SESSION ==> SessionOk(expected, f.payload))
    && (f.messageType != SESSION ==> f.messageType == MEDIA && |f.payload| >= PREFIX)
  }

  ghost predicate AllAccepted(expected: Option<Buf>, frames: seq<Frame>) {
    forall k: nat :: k < |frames| ==> Accepted(expected, frames[k])
  }

  /** What a batch parser that sees whole frames would do with one more. */
  function Counted(s: State, f: Frame): State {
    s.(privateFrames := s.privateFrames + 1, verified := s.verified || f.messageType == SESSION,
       mediaFrames := s.mediaFrames + if f.messageType == SESSION then 0 else 1)
  }

  function Batch(s: State, frames: seq<Frame>): State
    decreases |frames|
  {
    if frames == [] then s else Batch(Counted(s, frames[0]), frames[1..])
  }

  function MediaOf(frames: seq<Frame>): seq<Buf> {
    if frames == [] then []
    else
      (if frames[0].messageType == SESSION || |frames[0].payload| <= PREFIX then [] else [frames[0].payload[PREFIX..]])
      + MediaOf(frames[1..])
  }

  lemma FrameRead(f: Frame, tail: Buf)
    requires |f.payload| < 0x1_00_00
    ensures var b := Encode(f) + tail;
            && !Waiting(b) && b[0] == MAGIC && b[1] == f.messageType
            && FrameSize(b) == |Encode(f)| && b[HEADER..FrameSize(b)] == f.payload && b[FrameSize(b)..] == tail
  {
    hide U16, U16Bytes;
    var b := Encode(f) + tail;
    assert b[2..] == U16Bytes(|f.payload|) + (f.payload + tail);
    U16RoundTrip(|f.payload|, f.payload + tail);
  }

  lemma TurnOfFrame(expected: Option<Buf>, s: State, f: Frame, tail: Buf)
    requires Accepted(expected, f)
    ensures TurnOf(expected, s.(buffer := Encode(f) + tail)) == Take(Counted(s, f).(buffer := tail), MediaOf([f]))
  {
    hide Waiting, FrameSize, SessionOk, Encode;
    FrameRead(f, tail);
    assert MediaOf([f][1..]) == [];
    assert MediaOf([f]) == (if f.messageType == SESSION || |f.payload| <= PREFIX then [] else [f.payload[PREFIX..]]);
  }

  /** Why a frame is refused; it has been counted and taken off the buffer by then. */
  function Refusal(f: Frame): Error {
    if f.messageType == 1 then SessionMismatch
    else if f.messageType == 2 then MissingPrefix
    else UnsupportedType(f.messageType)
  }

  lemma RefusedFrame(expected: Option<Buf>, s: State, f: Frame, tail: Buf)
    requires |f.payload| < 0x1_00_00 && !Accepted(expected, f)
    ensures Parse(expected, s.(buffer := Encode(f) + tail)) ==
            Parsed(s.(buffer := tail, privateFrames := s.privateFrames + 1), [], Some(Refusal(f)))
  {
    hide Waiting, FrameSize, SessionOk, Encode;
    FrameRead(f, tail);
  }

  /** A byte that is not the magic number ends the parse with everything from it on still buffered. */
  lemma LostMagic(expected: Option<Buf>, s: State)
    requires |s.buffer| >= 4 && s.buffer[0] != 0x24
    ensures Parse(expected, s) == Parsed(s, [], Some(LostAlignment))
  {
  }

  lemma BatchStep(expected: Option<Buf>, s: State, f: Frame, tail: Buf)
    requires Accepted(expected, f)
    ensures var rest := Parse(expected, Counted(s, f).(buffer := tail));
            Parse(expected, s.(buffer := Encode(f) + tail)) ==
            rest.(media := MediaOf([f]) + rest.media)
  {
    hide TurnOf, Encode, Counted, MediaOf, Accepted;
    TurnOfFrame(expected, s, f, tail);
  }

  lemma MediaOne(frames: seq<Frame>)
    requires frames != []
    ensures MediaOf(frames) == MediaOf([frames[0]]) + MediaOf(frames[1..])
  {
    assert MediaOf([frames[0]][1..]) == [];
  }

  /** A stream of accepted frames and an incomplete tail: all frames are parsed, exactly the tail is kept. */
  lemma {:induction false} FramesAreParsed(expected: Option<Buf>, s: State, frames: seq<Frame>, tail: Buf)
    requires AllAccepted(expected, frames) && Waiting(tail)
    ensures Parse(expected, s.(buffer := EncodeAll(frames) + tail)) ==
            Parsed(Batch(s, frames).(buffer := tail), MediaOf(frames), None)
    decreases |frames|
  {
    hide Parse, Encode, Counted, Accepted, Waiting;
    if frames == [] {
      assert EncodeAll(frames) + tail == tail;
      WaitingParsed(expected, s.(buffer := tail));
    } else {
      var f := frames[0];
      var more := EncodeAll(frames[1..]) + tail;
      assert EncodeAll(frames) + tail == Encode(f) + more;
      BatchStep(expected, s, f, more);
      FramesAreParsed(expected, Counted(s, f), frames[1..], tail);
      MediaOne(frames);
    }
  }

  /** Accepted frames in front of the first refused one are all parsed, and the error is that of the refused one. */
  lemma {:induction false} FirstRefusalEnds(expected: Option<Buf>, s: State, frames: seq<Frame>, f: Frame, tail: Buf)
    requires AllAccepted(expected, frames) && |f.payload| < 0x1_00_00 && !Accepted(expected, f)
    ensures var s1 := Batch(s, frames);
            Parse(expected, s.(buffer := EncodeAll(frames) + (Encode(f) + tail))) ==
            Parsed(s1.(buffer := tail, privateFrames := s1.privateFrames + 1), MediaOf(frames), Some(Refusal(f)))
    decreases |frames|
  {
    hide Parse, Encode, Counted, Accepted, Refusal;
    if frames == [] {
      assert EncodeAll(frames) + (Encode(f) + tail) == Encode(f) + tail;
      RefusedFrame(expected, s, f, tail);
    } else {
      var first := frames[0];
      var more := EncodeAll(frames[1..]) + (Encode(f) + tail);
      assert EncodeAll(frames) + (Encode(f) + tail) == Encode(first) + more;
      BatchStep(expected, s, first, more);
      FirstRefusalEnds(expected, Counted(s, first), frames[1..], f, tail);
      MediaOne(frames);
    }
  }

  lemma WaitingParsed(expected: Option<Buf>, s: State)
    requires Waiting(s.buffer)
    ensures Parse(expected, s) == Parsed(s, [], None)
  {
  }

  /** Any cut of a well-formed stream: every fragment in order, and finish succeeds exactly at a frame boundary. */
  lemma WellFormedStream(expected: Option<Buf>, frames: seq<Frame>, tail: Buf, chunks: seq<Buf>)
    requires AllAccepted(expected, frames) && Waiting(tail) && Concat(chunks) == EncodeAll(frames) + tail
    ensures var cut := FeedAll(expected, FRESH, chunks);
            && cut == Parsed(Batch(FRESH, frames).(buffer := tail), MediaOf(frames), None)
            && (cut.state.buffer == [] <==> Concat(chunks) == EncodeAll(frames))
  {
    hide Parse, FeedAll, EncodeAll, Batch, MediaOf, Concat;
    FeedingIsIndependentOfCuts(expected, FRESH, chunks);
    FramesAreParsed(expected, FRESH, frames, tail);
    assert Extend(FRESH, Concat(chunks)) == FRESH.(buffer := EncodeAll(frames) + tail) by {
      assert [] + Concat(chunks) == Concat(chunks);
    }
  }

  /** A frame taken is an accepted frame, encoded. */
  lemma TakenIsFrame(expected: Option<Buf>, s: State) returns (f: Frame)
    requires TurnOf(expected, s).Take?
    ensures Accepted(expected, f) && s.buffer == Encode(f) + TurnOf(expected, s).state.buffer
  {
    hide SessionOk, Fragment, FrameSize, Encode;
    EncodedFrame(s.buffer);
    f := Frame(s.buffer[1], s.buffer[HEADER..FrameSize(s.buffer)]);
  }

  lemma EncodePrepend(f: Frame, rest: seq<Frame>, tail: Buf)
    ensures EncodeAll([f] + rest) + tail == Encode(f) + (EncodeAll(rest) + tail)
  {
    hide Encode;
    assert ([f] + rest)[1..] == rest;
  }

  /** Conversely, whatever is parsed without an error was a stream of accepted frames and the kept tail. */
  lemma {:induction false} ParsedAreFrames(expected: Option<Buf>, s: State) returns (frames: seq<Frame>)
    requires Parse(expected, s).error.None?
    ensures AllAccepted(expected, frames)
    ensures s.buffer == EncodeAll(frames) + Parse(expected, s).state.buffer
    decreases |s.buffer|
  {
    hide TurnOf, Accepted, Encode, EncodeAll, Waiting, FrameSize;
    var t := TurnOf(expected, s);
    if t.Take? {
      var f := TakenIsFrame(expected, s);
      var rest := ParsedAreFrames(expected, t.state);
      frames := [f] + rest;
      EncodePrepend(f, rest, Parse(expected, s).state.buffer);
    } else {
      frames := [];
      NoFrames(s.buffer);
    }
  }

  lemma NoFrames(b: Buf)
    ensures EncodeAll([]) + b == b
  {
  }

  lemma EncodedFrame(b: Buf)
    requires !Waiting(b) && b[0] == MAGIC
    ensures var f := Frame(b[1], b[HEADER..FrameSize(b)]);
            |f.payload| < 0x1_00_00 && b == Encode(f) + b[FrameSize(b)..]
  {
    var n := FrameSize(b);
    assert U16Bytes(n - HEADER) == b[2..4] by {
      DigitsOfU16(b[2], b[3]);
    }
    assert b == b[..2] + b[2..4] + b[4..n] + b[n..];
  }

  lemma DigitsOfU16(hi: Byte, lo: Byte)
    ensures (hi * 256 + lo) / 256 % 256 == hi && (hi * 256 + lo) % 256 == lo
  {
  }
}
