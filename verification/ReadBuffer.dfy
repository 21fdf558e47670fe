/**
 * The probing reader (pkg/core/readbuffer.go): while BufferSize is positive every byte read is also kept, so
 * that Reset can replay it; a negative BufferSize drains what was kept and then reads through.
 */
module ReadBuffer {
  import opened Wrappers
  import opened Bytes

  const DISABLE := 0
  const DRAIN := -1

  datatype Error = SourceError | Overflow

  /** One answer of the underlying reader: at most this many bytes, perhaps together with an error. */
  datatype Answer = Answer(bytes: nat, fails: bool)

  /** The bytes the underlying reader still has, and how it will hand them out; it fails when that runs out. */
  datatype Source = Source(remaining: Buf, script: seq<Answer>)

  datatype Got = Got(data: Buf, error: Option<Error>)

  function Min(a: nat, b: nat): nat {
    if a < b then a else b
  }

  function Pull(src: Source, k: nat): (r: (Source, Got))
    ensures |r.1.data| <= k && r.1.data + r.0.remaining == src.remaining && r.1.error != Some(Overflow)
    ensures src.script == [] ==> r.0 == src && r.1 == Got([], Some(SourceError))
    ensures src.script != [] ==> r.0.script == src.script[1..]
  {
    if src.script == [] then (src, Got([], Some(SourceError)))
    else
      var n := Min(src.script[0].bytes, Min(k, |src.remaining|));
      (Source(src.remaining[n..], src.script[1..]),
       Got(src.remaining[..n], if src.script[0].fails then Some(SourceError) else None))
  }

  // ---------------------------------------------------------------- the operations

  datatype State = State(bufferSize: int, buf: Buf, pos: nat, src: Source)

  predicate Valid(s: State) {
    s.pos <= |s.buf|
  }

  function Read(s: State, k: nat): (r: (State, Got))
    requires Valid(s)
    ensures Valid(r.0) && |r.1.data| <= k && (r.1.error == Some(Overflow) ==> r.1.data == [])
    ensures r.0.src.script == s.src.script || (s.src.script != [] && r.0.src.script == s.src.script[1..])
  {
    if s.bufferSize == DISABLE then
      var p := Pull(s.src, k);
      (s.(src := p.0), p.1)
    else if s.pos < |s.buf| then
      var n := Min(k, |s.buf| - s.pos);
      (s.(pos := s.pos + n), Got(s.buf[s.pos..s.pos + n], None))
    else if s.bufferSize < 0 then
      var p := Pull(s.src, k);
      (State(DISABLE, [], 0, p.0), p.1)
    else
      var p := Pull(s.src, k);
      if |s.buf| + |p.1.data| > s.bufferSize then (s.(src := p.0), Got([], Some(Overflow)))
      else (State(s.bufferSize, s.buf + p.1.data, s.pos + |p.1.data|, p.0), p.1)
  }

  function Reset(s: State): State {
    s.(bufferSize := DRAIN, pos := 0)
  }

  datatype Whence = Start | Current | End

  /** Where a Seek aims. */
  function Target(s: State, offset: int, whence: Whence): int {
    match whence case Start => offset case Current => s.pos + offset case End => |s.buf| + offset
  }

  function Seek(s: State, offset: int, whence: Whence): (r: State)
    requires Valid(s)
    ensures Valid(r)
  {
    var pos := Target(s, offset, whence);
    if pos < 0 then s.(buf := [], pos := 0) else if pos >= |s.buf| then s.(pos := |s.buf|) else s.(pos := pos)
  }

  /** io.ReadAtLeast over Read: until `k` bytes are there, or an error. */
  function ReadFull(s: State, k: nat): (r: (State, Got))
    requires Valid(s)
    ensures Valid(r.0) && |r.1.data| <= k && (r.1.error.None? ==> |r.1.data| == k)
    decreases k, |s.src.script|
  {
    if k == 0 then (s, Got([], None))
    else
      var first := Read(s, k);
      if |first.1.data| == k then (first.0, Got(first.1.data, None))
      else if first.1.error.Some? then first
      else
        ReadProgress(s, k);
        var rest := ReadFull(first.0, k - |first.1.data|);
        (rest.0, Got(first.1.data + rest.1.data, rest.1.error))
  }

  lemma ReadProgress(s: State, k: nat)
    requires Valid(s) && k > 0
    ensures var r := Read(s, k); |r.1.data| > 0 || r.1.error.Some? || |r.0.src.script| < |s.src.script|
  {
  }

  function Peek(s: State, n: nat): (r: (State, Got))
    requires Valid(s)
    ensures Valid(r.0)
  {
    var full := ReadFull(s.(bufferSize := n), n);
    if full.1.error.Some? then (full.0, Got([], full.1.error)) else (Reset(full.0), full.1)
  }

  class Reader {
    var bufferSize: int
    var buf: Buf
    var pos: nat
    var src: Source

    function Now(): State
      reads this
    {
      State(bufferSize, buf, pos, src)
    }

    constructor (src: Source)
      ensures Now() == State(DISABLE, [], 0, src)
    {
      bufferSize, buf, pos, this.src := DISABLE, [], 0, src;
    }

    method PullSource(k: nat) returns (got: Got)
      modifies this
      ensures (src, got) == Pull(old(src), k)
      ensures Now() == old(Now()).(src := src)
    {
      var p := Pull(src, k);
      src := p.0;
      got := p.1;
    }

    method ReadBytes(k: nat) returns (got: Got)
      requires Valid(Now())
      modifies this
      ensures (Now(), got) == Read(old(Now()), k)
    {
      if bufferSize == DISABLE {
        got := PullSource(k);
        return;
      }
      if pos < |buf| {
        var n := Min(k, |buf| - pos);
        got := Got(buf[pos..pos + n], None);
        pos := pos + n;
        return;
      }
      if bufferSize < 0 {
        bufferSize := DISABLE;
        buf := [];
        pos := 0;
        got := PullSource(k);
        return;
      }
      got := PullSource(k);
      if |buf| + |got.data| > bufferSize {
        return Got([], Some(Overflow));
      }
      buf := buf + got.data;
      pos := pos + |got.data|;
    }

    method SeekTo(offset: int, whence: Whence) returns (at: nat)
      requires Valid(Now())
      modifies this
      ensures Now() == Seek(old(Now()), offset, whence) && at == pos
    {
      var target: int;
      match whence {
        case Start => target := offset;
        case Current => target := pos + offset;
        case End => target := |buf| + offset;
      }
      if target < 0 {
        buf := [];
        pos := 0;
      } else if target >= |buf| {
        pos := |buf|;
      } else {
        pos := target;
      }
      return pos;
    }

    method ResetBuffer()
      modifies this
      ensures Now() == Reset(old(Now()))
    {
      bufferSize := DRAIN;
      pos := 0;
    }

    method PeekBytes(n: nat) returns (got: Got)
      requires Valid(Now())
      modifies this
      ensures (Now(), got) == Peek(old(Now()), n)
    {
      hide Read, ReadFull;
      bufferSize := n;
      ghost var full := ReadFull(Now(), n);
      var b: Buf := [];
      assert [] + full.1.data == full.1.data;
      while |b| < n
        invariant Valid(Now()) && |b| <= n
        invariant GoesOn(full, b, ReadFull(Now(), n - |b|))
        decreases n - |b|, |src.script|
      {
        FullStep(full, b, Now(), n - |b|);
        ghost var before := Now();
        var part := ReadBytes(n - |b|);
        if part.error.Some? && |part.data| < n - |b| {
          return Got([], part.error);
        }
        b := b + part.data;
      }
      NothingLeft(full, b, Now());
      ResetBuffer();
      return Got(b, None);
    }
  }

  predicate GoesOn(full: (State, Got), b: Buf, rest: (State, Got)) {
    full == (rest.0, Got(b + rest.1.data, rest.1.error))
  }

  /** One turn of io.ReadAtLeast. */
  lemma FullStep(full: (State, Got), b: Buf, s: State, k: nat)
    requires Valid(s) && k > 0 && GoesOn(full, b, ReadFull(s, k))
    ensures var r := Read(s, k);
            && (|r.1.data| < k && r.1.error.Some? ==> full.0 == r.0 && full.1.error == r.1.error)
            && (|r.1.data| == k || r.1.error.None? ==>
                  GoesOn(full, b + r.1.data, ReadFull(r.0, k - |r.1.data|)))
            && (|r.1.data| > 0 || r.1.error.Some? || |r.0.src.script| < |s.src.script|)
  {
    hide Read;
    var r := Read(s, k);
    ReadProgress(s, k);
    var rest := ReadFull(r.0, k - |r.1.data|);
    assert (b + r.1.data) + rest.1.data == b + (r.1.data + rest.1.data);
    if |r.1.data| == k {
      assert rest == (r.0, Got([], None));
      assert r.1.data + [] == r.1.data;
    }
  }

  lemma NothingLeft(full: (State, Got), b: Buf, s: State)
    requires Valid(s) && GoesOn(full, b, ReadFull(s, 0))
    ensures full == (s, Got(b, None))
  {
    assert b + [] == b;
  }

  // ---------------------------------------------------------------- probing is transparent

  /** Everything kept so far, and everything still to come. */
  function Replay(s: State): Buf {
    s.buf + s.src.remaining
  }

  /** What Reads will return from here on. */
  function Pending(s: State): Buf
    requires Valid(s)
  {
    if s.bufferSize == DISABLE then s.src.remaining else s.buf[s.pos..] + s.src.remaining
  }

  /** One probing read gives the next bytes of the replay and keeps them, unless it overflows. */
  lemma ProbeReads(s: State, k: nat)
    requires Valid(s) && s.bufferSize > 0
    ensures var r := Read(s, k);
            && r.0.bufferSize == s.bufferSize
            && (r.1.error != Some(Overflow) ==>
                  && Replay(r.0) == Replay(s) && r.0.pos == s.pos + |r.1.data|
                  && r.1.data == Replay(s)[s.pos..s.pos + |r.1.data|])
            && (s.pos + k <= s.bufferSize ==> r.1.error != Some(Overflow))
  {
    if s.pos >= |s.buf| {
      var p := Pull(s.src, k);
      assert s.buf + (p.1.data + p.0.remaining) == (s.buf + p.1.data) + p.0.remaining;
      hide Pull;
    }
  }

  /** An overflowing read loses exactly the bytes it pulled. */
  lemma OverflowLoses(s: State, k: nat)
    requires Valid(s) && Read(s, k).1.error == Some(Overflow)
    ensures var r := Read(s, k).0;
            exists lost: Buf :: && 0 < |s.buf| + |lost| && |s.buf| + |lost| > s.bufferSize
                                && s.src.remaining == lost + r.src.remaining && r.buf == s.buf && r.pos == s.pos
  {
    var p := Pull(s.src, k);
    assert s.src.remaining == p.1.data + p.0.remaining;
  }

  lemma {:induction false} FullProbeReads(s: State, k: nat)
    requires Valid(s) && s.bufferSize > 0
    ensures var r := ReadFull(s, k);
            && r.0.bufferSize == s.bufferSize
            && (r.1.error != Some(Overflow) ==>
                  && Replay(r.0) == Replay(s) && r.0.pos == s.pos + |r.1.data|
                  && r.0.pos <= |Replay(s)| && r.1.data == Replay(s)[s.pos..r.0.pos])
            && (s.pos + k <= s.bufferSize ==> r.1.error != Some(Overflow))
    decreases k, |s.src.script|
  {
    hide Read, Replay;
    if k > 0 {
      ProbeReads(s, k);
      ProbeBounds(Read(s, k).0);
      var first := Read(s, k);
      if |first.1.data| < k && first.1.error.None? {
        ReadProgress(s, k);
        FullProbeReads(first.0, k - |first.1.data|);
      }
    } else {
      ProbeBounds(s);
    }
  }

  lemma ProbeBounds(s: State)
    requires Valid(s)
    ensures s.pos <= |Replay(s)|
  {
  }

  /**
   * A Seek keeps every byte for replay, and a later probing read continues at the clamped target; only a
   * negative target throws the buffer away.
   */
  lemma SeekKeepsReplayIff(s: State, offset: int, whence: Whence, k: nat)
    requires Valid(s) && s.bufferSize > 0
    ensures var e, at := Seek(s, offset, whence), Target(s, offset, whence);
            && (Replay(e) == Replay(s) <==> at >= 0 || s.buf == [])
            && (at >= 0 ==> e.pos == Min(at, |s.buf|))
            && (Read(e, k).1.error != Some(Overflow) ==>
                  Read(e, k).1.data == Replay(e)[e.pos..e.pos + |Read(e, k).1.data|])
  {
    hide Read;
    var e := Seek(s, offset, whence);
    ProbeReads(e, k);
    if Target(s, offset, whence) < 0 {
      assert |Replay(e)| == |Replay(s)| - |s.buf|;
      if s.buf == [] {
        assert [] + s.src.remaining == s.src.remaining;
      }
    }
  }

  /** A reader at the probe point: nothing buffered and buffering off, or rewound to the start of what it kept. */
  predicate AtProbePoint(s: State) {
    s.pos == 0 && (s.bufferSize == DISABLE ==> s.buf == []) && s.bufferSize <= 0
  }

  /** A successful Peek shows the next bytes and leaves the reader at the probe point, with nothing consumed. */
  lemma PeekShowsNext(s: State, n: nat)
    requires AtProbePoint(s)
    ensures var r := Peek(s, n);
            && r.1.error != Some(Overflow)
            && (r.1.error.None? ==>
                  && AtProbePoint(r.0) && Pending(r.0) == Pending(s)
                  && n <= |Pending(s)| && r.1.data == Pending(s)[..n])
  {
    if n > 0 {
      FullProbeReads(s.(bufferSize := n), n);
      hide ReadFull;
      var r := Peek(s, n);
      assert Replay(s.(bufferSize := n)) == Pending(s);
    }
  }

  /** From a draining reader a successful Peek is transparent exactly if nothing of the buffer was read yet. */
  lemma PeekTransparentIff(s: State, n: nat)
    requires Valid(s) && s.bufferSize < 0 && Peek(s, n).1.error.None?
    ensures Pending(Peek(s, n).0) == Pending(s) <==> s.pos == 0
  {
    if n > 0 {
      FullProbeReads(s.(bufferSize := n), n);
    }
    hide ReadFull;
    assert s.buf[..s.pos] + s.buf[s.pos..] == s.buf;
    assert |Pending(Peek(s, n).0)| == |Pending(s)| + s.pos;
  }

  /** The session that shows it: peek two bytes, read one, peek again, and that one is pending once more. */
  lemma PeekReplays()
    ensures var start := State(DISABLE, [], 0, Source([1, 2, 3], [Answer(2, false)]));
            var peeked := Peek(start, 2);
            var read := Read(peeked.0, 1);
            var again := Peek(read.0, 1);
            && peeked.1 == Got([1, 2], None) && read.1 == Got([1], None)
            && read.0.bufferSize == DRAIN && read.0.pos == 1 && Pending(read.0) == [2, 3]
            && again.1 == Got([2], None) && Pending(again.0) == [1, 2, 3]
  {
    var start := State(2, [], 0, Source([1, 2, 3], [Answer(2, false)]));
    assert start.src.remaining[..2] == [1, 2] && start.src.remaining[2..] == [3];
    assert start.src.script[1..] == [] && [] + [1, 2] == [1, 2];
    assert Pull(start.src, 2) == (Source([3], []), Got([1, 2], None));
    assert Read(start, 2) == (State(2, [1, 2], 2, Source([3], [])), Got([1, 2], None));
    var drained := State(DRAIN, [1, 2], 0, Source([3], []));
    assert Peek(start.(bufferSize := DISABLE), 2) == (drained, Got([1, 2], None));
    var half := drained.(pos := 1);
    assert [1, 2][0..1] == [1] && [1, 2][1..2] == [2];
    assert Read(drained, 1) == (half, Got([1], None));
    assert Read(half.(bufferSize := 1), 1) == (half.(bufferSize := 1, pos := 2), Got([2], None));
    assert Peek(half, 1) == (drained, Got([2], None));
  }

  // ---------------------------------------------------------------- probing sessions

  datatype Probe = SetSize(n: nat) | Fill(k: nat) | PeekAt(n: nat) | Rewind

  function Probed(s: State, p: Probe): (r: State)
    requires Valid(s)
    ensures Valid(r)
  {
    match p
    case SetSize(n) => s.(bufferSize := n)
    case Fill(k) => Read(s, k).0
    case PeekAt(n) => Peek(s, n).0
    case Rewind => Reset(s)
  }

  /** Sizes are positive, probe reads happen while buffering and do not overflow, peeks succeed. */
  predicate Succeeds(s: State, p: Probe)
    requires Valid(s)
  {
    match p
    case SetSize(n) => n > 0
    case Fill(k) => s.bufferSize > 0 && Read(s, k).1.error != Some(Overflow)
    case PeekAt(n) => Peek(s, n).1.error.None?
    case Rewind => true
  }

  /** The state after a session, None when a step of it does not succeed. */
  function Session(s: State, probes: seq<Probe>): (r: Option<State>)
    requires Valid(s)
    ensures r.Some? ==> Valid(r.value)
    decreases |probes|
  {
    if probes == [] then Some(s)
    else if Succeeds(s, probes[0]) then Session(Probed(s, probes[0]), probes[1..])
    else None
  }

  lemma ProbeKeepsReplay(s: State, p: Probe)
    requires Valid(s) && Succeeds(s, p)
    ensures Replay(Probed(s, p)) == Replay(s)
  {
    hide Read, ReadFull;
    if p.Fill? {
      ProbeReads(s, p.k);
    } else if p.PeekAt? {
      if p.n > 0 {
        FullProbeReads(s.(bufferSize := p.n), p.n);
      } else {
        NothingPeeked(s);
      }
    }
  }

  lemma NothingPeeked(s: State)
    requires Valid(s)
    ensures Peek(s, 0) == (Reset(s), Got([], None))
  {
  }

  lemma {:induction false} SessionKeepsReplay(s: State, probes: seq<Probe>)
    requires Valid(s) && Session(s, probes).Some?
    ensures Replay(Session(s, probes).value) == Replay(s)
    decreases |probes|
  {
    hide Probed, Succeeds, Replay;
    if probes != [] {
      ProbeKeepsReplay(s, probes[0]);
      SessionKeepsReplay(Probed(s, probes[0]), probes[1..]);
    }
  }

  /** Any successful probing from the probe point, then Reset: the whole stream is pending again. */
  lemma ProbingIsTransparent(s: State, probes: seq<Probe>)
    requires AtProbePoint(s) && Session(s, probes).Some?
    ensures var end := Reset(Session(s, probes).value);
            AtProbePoint(end) && end.bufferSize == DRAIN && Pending(end) == Pending(s)
  {
    hide Session;
    SessionKeepsReplay(s, probes);
  }

  // ---------------------------------------------------------------- reading on

  lemma DrainTakesFront(s: State, k: nat)
    requires Valid(s) && s.bufferSize < 0 && s.pos < |s.buf|
    ensures var r := Read(s, k);
            r.0.bufferSize == s.bufferSize && r.1.data + Pending(r.0) == Pending(s)
  {
    hide Pull;
    Front(s.buf, s.pos, s.pos + Min(k, |s.buf| - s.pos), s.src.remaining);
  }

  lemma PullTakesFront(s: State, k: nat)
    requires Valid(s) && s.bufferSize <= 0 && (s.bufferSize == DISABLE || s.pos == |s.buf|)
    ensures var r := Read(s, k);
            && r.1.data + Pending(r.0) == Pending(s)
            && r.0.bufferSize == DISABLE && (r.0.src, r.1) == Pull(s.src, k)
  {
    hide Pull;
    assert s.buf[|s.buf|..] + s.src.remaining == s.src.remaining;
  }

  /** A read of a reader that is not buffering takes exactly the front of what is pending. */
  lemma ReadTakesFront(s: State, k: nat)
    requires Valid(s) && s.bufferSize <= 0
    ensures var r := Read(s, k);
            && r.0.bufferSize <= 0 && r.1.data + Pending(r.0) == Pending(s)
            && (s.bufferSize == DISABLE || s.pos == |s.buf| ==>
                  r.0.bufferSize == DISABLE && (r.0.src, r.1) == Pull(s.src, k))
  {
    hide Read, Pending, Pull;
    if s.bufferSize < 0 && s.pos < |s.buf| {
      DrainTakesFront(s, k);
    } else {
      PullTakesFront(s, k);
    }
  }

  lemma Front(b: Buf, i: nat, j: nat, rest: Buf)
    requires i <= j <= |b|
    ensures b[i..j] + (b[j..] + rest) == b[i..] + rest
  {
    assert b[i..] == b[i..j] + b[j..];
  }

  function ReadAll(s: State, sizes: seq<nat>): (r: (State, Buf))
    requires Valid(s)
    ensures Valid(r.0)
    decreases |sizes|
  {
    if sizes == [] then (s, [])
    else
      var first := Read(s, sizes[0]);
      var rest := ReadAll(first.0, sizes[1..]);
      (rest.0, first.1.data + rest.1)
  }

  lemma {:induction false} ReadsTakeFront(s: State, sizes: seq<nat>)
    requires Valid(s) && s.bufferSize <= 0
    ensures var r := ReadAll(s, sizes); r.0.bufferSize <= 0 && r.1 + Pending(r.0) == Pending(s)
    decreases |sizes|
  {
    hide Read, Pending;
    if sizes == [] {
      assert [] + Pending(s) == Pending(s);
    } else {
      ReadTakesFront(s, sizes[0]);
      var first := Read(s, sizes[0]);
      ReadsTakeFront(first.0, sizes[1..]);
      var rest := ReadAll(first.0, sizes[1..]);
      assert (first.1.data + rest.1) + Pending(rest.0) == first.1.data + (rest.1 + Pending(rest.0));
    }
  }

  /** Probe, reset, read: the reads return the stream from the probe point on, byte for byte. */
  lemma ProbeThenRead(s: State, probes: seq<Probe>, sizes: seq<nat>)
    requires AtProbePoint(s) && Session(s, probes).Some?
    ensures var r := ReadAll(Reset(Session(s, probes).value), sizes); r.1 + Pending(r.0) == Pending(s)
  {
    hide Session, ReadAll, Pending;
    ProbingIsTransparent(s, probes);
    ReadsTakeFront(Reset(Session(s, probes).value), sizes);
  }
}
