/**
 * The in-memory log (circularBuffer in internal/app/log.go): up to 16 chunks of 64 KiB, reused in a circle.
 * Proved against the full history: what WriteTo outputs is a suffix of everything written since the last
 * Reset, cut between two writes, and long enough whenever something was dropped.
 */
module RingLog {
  import opened Bytes

  const CHUNKS := 16
  const SIZE := 65536

  datatype Ring = Ring(chunks: seq<Buf>, r: nat, w: nat)

  predicate Valid(b: Ring) {
    1 <= |b.chunks| <= CHUNKS && b.r < |b.chunks| && b.w < |b.chunks| && (|b.chunks| < CHUNKS ==> b.r <= b.w)
  }

  const FRESH := Ring([[]], 0, 0)

  function Next(i: nat): (r: nat)
    requires i < CHUNKS
    ensures r < CHUNKS
  {
    if i + 1 == CHUNKS then 0 else i + 1
  }

  function Written(b: Ring, p: Buf): (c: Ring)
    requires Valid(b)
    ensures Valid(c)
  {
    if |b.chunks[b.w]| + |p| <= SIZE then b.(chunks := b.chunks[b.w := b.chunks[b.w] + p])
    else
      var w := Next(b.w);
      var r := if b.r == w then Next(b.r) else b.r;
      Ring(if w == |b.chunks| then b.chunks + [p] else b.chunks[w := p], r, w)
  }

  function Emptied(b: Ring): (c: Ring)
    requires Valid(b)
    ensures Valid(c)
  {
    Ring(b.chunks[0 := []], 0, 0)
  }

  /** The chunks from the one at `i` to the write chunk. */
  function ChunksFrom(b: Ring, i: nat): seq<Buf>
    requires Valid(b) && i < |b.chunks| && (|b.chunks| < CHUNKS ==> i <= b.w)
    decreases if i <= b.w then b.w - i else b.w + CHUNKS - i
  {
    if i == b.w then [b.chunks[i]] else [b.chunks[i]] + ChunksFrom(b, Next(i))
  }

  function Output(b: Ring): Buf
    requires Valid(b)
  {
    Concat(ChunksFrom(b, b.r))
  }

  class CircularBuffer {
    var chunks: seq<Buf>
    var r: nat
    var w: nat

    function State(): Ring
      reads this
    {
      Ring(chunks, r, w)
    }

    constructor ()
      ensures State() == FRESH
    {
      chunks, r, w := [[]], 0, 0;
    }

    method Write(p: Buf) returns (n: nat)
      requires Valid(State())
      modifies this
      ensures n == |p| && State() == Written(old(State()), p)
    {
      n := |p|;
      if |chunks[w]| + n > SIZE {
        w := w + 1;
        if w == CHUNKS {
          w := 0;
        }
        if r == w {
          r := r + 1;
          if r == CHUNKS {
            r := 0;
          }
        }
        if w == |chunks| {
          chunks := chunks + [[]];
        } else {
          chunks := chunks[w := []];
        }
      }
      assert [] + p == p;
      chunks := chunks[w := chunks[w] + p];
    }

    method WriteTo() returns (buf: Buf)
      requires Valid(State())
      ensures buf == Output(State())
    {
      buf := [];
      var i: nat := r;
      ghost var b := State();
      assert Concat(ChunksFrom(b, i)) == Output(b);
      hide Output, ChunksFrom, Concat;
      while true
        invariant i < |chunks| && (|chunks| < CHUNKS ==> i <= w)
        invariant buf + Concat(ChunksFrom(b, i)) == Output(b)
        decreases if i <= w then w - i else w + CHUNKS - i
      {
        ConcatFirst(buf, b, i);
        buf := buf + chunks[i];
        if i == w {
          break;
        }
        i := i + 1;
        if i == CHUNKS {
          i := 0;
        }
      }
    }

    method Reset()
      requires Valid(State())
      modifies this
      ensures State() == Emptied(old(State()))
    {
      chunks := chunks[0 := []];
      r := 0;
      w := 0;
    }
  }

  lemma ConcatFirst(buf: Buf, b: Ring, i: nat)
    requires Valid(b) && i < |b.chunks| && (|b.chunks| < CHUNKS ==> i <= b.w)
    ensures buf + Concat(ChunksFrom(b, i)) ==
            if i == b.w then buf + b.chunks[i] else buf + b.chunks[i] + Concat(ChunksFrom(b, Next(i)))
  {
    if i == b.w {
      assert Concat([b.chunks[i]]) == b.chunks[i] + Concat([]);
    } else {
      assert ChunksFrom(b, i) == [b.chunks[i]] + ChunksFrom(b, Next(i));
    }
  }

  // ---------------------------------------------------------------- history

  datatype Action = Write(p: Buf) | Reset

  function After(actions: seq<Action>): (b: Ring)
    ensures Valid(b)
  {
    if actions == [] then FRESH
    else
      var before, a := After(actions[..|actions| - 1]), actions[|actions| - 1];
      if a.Reset? then Emptied(before) else Written(before, a.p)
  }

  /** The writes since the last Reset. */
  function SinceReset(actions: seq<Action>): seq<Buf> {
    if actions == [] then []
    else
      var a := actions[|actions| - 1];
      if a.Reset? then [] else SinceReset(actions[..|actions| - 1]) + [a.p]
  }

  /** The bytes of each group of writes. */
  function Chunks(groups: seq<seq<Buf>>): (r: seq<Buf>)
    ensures |r| == |groups| && forall i: nat :: i < |r| ==> r[i] == Concat(groups[i])
  {
    if groups == [] then [] else [Concat(groups[0])] + Chunks(groups[1..])
  }

  function Flatten(groups: seq<seq<Buf>>): seq<Buf> {
    if groups == [] then [] else groups[0] + Flatten(groups[1..])
  }

  function Live(b: Ring): (r: seq<Buf>)
    requires Valid(b)
    ensures |r| >= 1
  {
    ChunksFrom(b, b.r)
  }

  function LiveCount(b: Ring): (n: nat)
    requires Valid(b)
    ensures 1 <= n <= CHUNKS
  {
    if b.r <= b.w then b.w - b.r + 1 else b.w + CHUNKS - b.r + 1
  }

  /** The chunk `k` places after the read chunk. */
  function Slot(b: Ring, k: nat): (i: nat)
    requires Valid(b) && k < LiveCount(b)
    ensures i < |b.chunks| && (|b.chunks| < CHUNKS ==> i <= b.w)
    ensures k + 1 == LiveCount(b) <==> i == b.w
  {
    if b.r + k < CHUNKS then b.r + k else b.r + k - CHUNKS
  }

  lemma {:induction false} ChunksFromAre(b: Ring, k: nat)
    requires Valid(b) && k < LiveCount(b)
    ensures var c := ChunksFrom(b, Slot(b, k));
            && |c| == LiveCount(b) - k
            && forall i: nat :: i < |c| ==> c[i] == b.chunks[Slot(b, k + i)]
    decreases LiveCount(b) - k
  {
    if k + 1 < LiveCount(b) {
      ChunksFromAre(b, k + 1);
      var c, rest := ChunksFrom(b, Slot(b, k)), ChunksFrom(b, Slot(b, k + 1));
      assert Next(Slot(b, k)) == Slot(b, k + 1);
      assert c == [b.chunks[Slot(b, k)]] + rest;
      forall i: nat | 0 < i < |c|
        ensures c[i] == b.chunks[Slot(b, k + i)]
      {
        assert c[i] == rest[i - 1] && k + 1 + (i - 1) == k + i;
      }
    }
  }

  lemma LiveAt(b: Ring)
    requires Valid(b)
    ensures |Live(b)| == LiveCount(b)
    ensures forall i: nat :: i < LiveCount(b) ==> Live(b)[i] == b.chunks[Slot(b, i)]
  {
    assert Slot(b, 0) == b.r;
    ChunksFromAre(b, 0);
  }

  lemma LiveIs(b: Ring, live: seq<Buf>)
    requires Valid(b) && |live| == LiveCount(b)
    requires forall i: nat :: i < LiveCount(b) ==> live[i] == b.chunks[Slot(b, i)]
    ensures Live(b) == live
  {
    LiveAt(b);
    hide Live, LiveCount, Slot;
  }

  lemma LiveJoined(b: Ring, p: Buf)
    requires Valid(b) && |b.chunks[b.w]| + |p| <= SIZE
    ensures |Live(b)| == LiveCount(b) && Live(b)[LiveCount(b) - 1] == b.chunks[b.w]
    ensures var n := LiveCount(b) - 1; Live(Written(b, p)) == Live(b)[..n] + [Live(b)[n] + p]
  {
    hide Live;
    LiveAt(b);
    var c, live, n := Written(b, p), Live(b), LiveCount(b) - 1;
    assert Slot(b, n) == b.w;
    LiveIs(c, live[..n] + [live[n] + p]);
  }

  lemma LiveOpened(b: Ring, p: Buf)
    requires Valid(b) && |b.chunks[b.w]| + |p| > SIZE
    ensures |Live(b)| == LiveCount(b) && Live(b)[LiveCount(b) - 1] == b.chunks[b.w]
    ensures Live(Written(b, p)) == (if LiveCount(b) == CHUNKS then Live(b)[1..] else Live(b)) + [p]
  {
    hide Live;
    LiveAt(b);
    var c, live := Written(b, p), Live(b);
    assert Slot(b, LiveCount(b) - 1) == b.w;
    var drop := if LiveCount(b) == CHUNKS then 1 else 0;
    assert LiveCount(c) == LiveCount(b) - drop + 1;
    var live' := (if LiveCount(b) == CHUNKS then live[1..] else live) + [p];
    forall i: nat | i < LiveCount(c)
      ensures live'[i] == c.chunks[Slot(c, i)]
    {
      if i + 1 < LiveCount(c) {
        assert Slot(c, i) == Slot(b, i + drop);
        assert live'[i] == live[i + drop];
      }
    }
    LiveIs(c, live');
  }

  /** A write, seen on the live chunks in order. */
  lemma LiveWritten(b: Ring, p: Buf)
    requires Valid(b)
    ensures var live, n := Live(b), LiveCount(b);
            && |live| == n
            && Live(Written(b, p)) ==
               if |live[n - 1]| + |p| <= SIZE then live[..n - 1] + [live[n - 1] + p]
               else (if n == CHUNKS then live[1..] else live) + [p]
  {
    hide Live, Written, Slot;
    LiveAt(b);
    if |b.chunks[b.w]| + |p| <= SIZE {
      LiveJoined(b, p);
    } else {
      LiveOpened(b, p);
    }
  }

  lemma LiveEmptied(b: Ring)
    requires Valid(b)
    ensures Live(Emptied(b)) == [[]]
  {
  }

  // ---------------------------------------------------------------- the output is a suffix of the history

  /** Two neighbours hold more than one chunk together: the second was opened because the first was too full. */
  predicate Crowded(live: seq<Buf>) {
    forall i: nat :: i + 1 < |live| ==> |live[i]| + |live[i + 1]| > SIZE
  }

  predicate Small(chunks: seq<Buf>) {
    forall i: nat :: i < |chunks| ==> |chunks[i]| <= SIZE
  }

  /** `groups` splits what is left of the history, chunk by chunk, after the first `dropped` writes. */
  ghost predicate Tracks(live: seq<Buf>, groups: seq<seq<Buf>>, history: seq<Buf>, dropped: nat) {
    && 1 <= |live| <= CHUNKS && live == Chunks(groups)
    && dropped <= |history| && history[dropped..] == Flatten(groups)
    && (dropped > 0 ==> |live| == CHUNKS)
    && Crowded(live) && (Small(history) ==> Small(live))
  }

  lemma {:induction false} FlattenSnoc(groups: seq<seq<Buf>>, last: seq<Buf>)
    ensures Flatten(groups + [last]) == Flatten(groups) + last
  {
    if groups == [] {
      assert groups + [last] == [last] && Flatten([last]) == last + Flatten([]);
    } else {
      assert (groups + [last])[1..] == groups[1..] + [last];
      FlattenSnoc(groups[1..], last);
    }
  }

  lemma ConcatSnoc(parts: seq<Buf>, p: Buf)
    ensures Concat(parts + [p]) == Concat(parts) + p
  {
    ConcatAppend(parts, [p]);
    assert Concat([p]) == p + Concat([]);
  }

  lemma HistoryGrows(history: seq<Buf>, p: Buf, dropped: nat, kept: seq<Buf>)
    requires dropped <= |history| && history[dropped..] == kept
    ensures (history + [p])[dropped..] == kept + [p]
    ensures Small(history + [p]) ==> Small(history) && |p| <= SIZE
  {
    assert forall i: nat :: i < |history| ==> (history + [p])[i] == history[i];
    assert (history + [p])[|history|] == p;
  }

  lemma ChunksOf(groups: seq<seq<Buf>>, live: seq<Buf>)
    requires |live| == |groups| && forall i: nat :: i < |live| ==> live[i] == Concat(groups[i])
    ensures live == Chunks(groups)
  {
    hide Concat;
  }

  lemma ChunksJoin(groups: seq<seq<Buf>>, p: Buf)
    requires groups != []
    ensures var n := |groups| - 1;
            Chunks(groups[..n] + [groups[n] + [p]]) == Chunks(groups)[..n] + [Chunks(groups)[n] + p]
  {
    hide Concat, Chunks;
    var n := |groups| - 1;
    var groups', live' := groups[..n] + [groups[n] + [p]], Chunks(groups)[..n] + [Chunks(groups)[n] + p];
    forall i: nat | i < |live'|
      ensures live'[i] == Concat(groups'[i])
    {
      if i == n {
        ConcatSnoc(groups[n], p);
      } else {
        assert groups'[i] == groups[i] && live'[i] == Chunks(groups)[i];
      }
    }
    ChunksOf(groups', live');
  }

  lemma ConcatOne(p: Buf)
    ensures Concat([p]) == p
  {
    assert Concat([p]) == p + Concat([]);
  }

  lemma ChunksOpen(groups: seq<seq<Buf>>, drop: nat, p: Buf)
    requires drop <= |groups|
    ensures Chunks(groups[drop..] + [[p]]) == Chunks(groups)[drop..] + [p]
  {
    hide Concat, Chunks;
    var groups', live' := groups[drop..] + [[p]], Chunks(groups)[drop..] + [p];
    forall i: nat | i < |live'|
      ensures live'[i] == Concat(groups'[i])
    {
      if i == |live'| - 1 {
        ConcatOne(p);
      } else {
        assert groups'[i] == groups[drop + i] && live'[i] == Chunks(groups)[drop + i];
      }
    }
    ChunksOf(groups', live');
  }

  lemma FlattenLonger(init: seq<seq<Buf>>, group: seq<Buf>, p: Buf)
    ensures Flatten(init + [group + [p]]) == Flatten(init + [group]) + [p]
  {
    hide Flatten;
    FlattenSnoc(init, group);
    FlattenSnoc(init, group + [p]);
    var a := Flatten(init);
    assert a + (group + [p]) == (a + group) + [p];
  }

  lemma FlattenJoin(groups: seq<seq<Buf>>, p: Buf)
    requires groups != []
    ensures var n := |groups| - 1; Flatten(groups[..n] + [groups[n] + [p]]) == Flatten(groups) + [p]
  {
    hide Flatten;
    var n := |groups| - 1;
    assert groups == groups[..n] + [groups[n]];
    FlattenLonger(groups[..n], groups[n], p);
  }

  lemma CrowdedJoin(live: seq<Buf>, p: Buf)
    requires live != [] && Crowded(live) && |live[|live| - 1]| + |p| <= SIZE
    ensures var n := |live| - 1;
            Crowded(live[..n] + [live[n] + p]) && (Small(live) ==> Small(live[..n] + [live[n] + p]))
  {
    var n := |live| - 1;
    var live' := live[..n] + [live[n] + p];
    assert forall i: nat :: i < n ==> live'[i] == live[i];
  }

  lemma CrowdedOpen(live: seq<Buf>, drop: nat, p: Buf)
    requires drop < |live| && Crowded(live) && |live[|live| - 1]| + |p| > SIZE
    ensures Crowded(live[drop..] + [p]) && (Small(live) && |p| <= SIZE ==> Small(live[drop..] + [p]))
  {
    var live' := live[drop..] + [p];
    forall i: nat | i + 1 < |live'|
      ensures |live'[i]| + |live'[i + 1]| > SIZE
    {
      assert live'[i] == live[drop + i];
      if i + 2 < |live'| {
        assert live'[i + 1] == live[(drop + i) + 1];
      }
    }
  }

  /** The write joins the last chunk. */
  lemma TracksJoin(live: seq<Buf>, groups: seq<seq<Buf>>, history: seq<Buf>, dropped: nat, p: Buf)
    requires Tracks(live, groups, history, dropped) && |live[|live| - 1]| + |p| <= SIZE
    ensures var n := |live| - 1;
            Tracks(live[..n] + [live[n] + p], groups[..n] + [groups[n] + [p]], history + [p], dropped)
  {
    hide Flatten, Concat, Chunks, Small, Crowded;
    HistoryGrows(history, p, dropped, Flatten(groups));
    FlattenJoin(groups, p);
    ChunksJoin(groups, p);
    CrowdedJoin(live, p);
  }

  /** The write opens a chunk, and the oldest one goes if all 16 are in use. */
  lemma TracksOpen(live: seq<Buf>, groups: seq<seq<Buf>>, history: seq<Buf>, dropped: nat, p: Buf)
    requires Tracks(live, groups, history, dropped) && |live[|live| - 1]| + |p| > SIZE
    ensures var drop := if |live| == CHUNKS then 1 else 0;
            Tracks(live[drop..] + [p], groups[drop..] + [[p]], history + [p],
                   dropped + if drop == 1 then |groups[0]| else 0)
  {
    var drop := if |live| == CHUNKS then 1 else 0;
    var dropped' := dropped + if drop == 1 then |groups[0]| else 0;
    DropFirst(groups, drop, history, dropped);
    hide Flatten, Concat, Chunks, Small, Crowded;
    HistoryGrows(history, p, dropped', Flatten(groups[drop..]));
    FlattenSnoc(groups[drop..], [p]);
    ChunksOpen(groups, drop, p);
    CrowdedOpen(live, drop, p);
  }

  lemma DropFirst(groups: seq<seq<Buf>>, drop: nat, history: seq<Buf>, dropped: nat)
    requires groups != [] && drop <= 1 && dropped <= |history| && history[dropped..] == Flatten(groups)
    ensures var dropped' := dropped + if drop == 1 then |groups[0]| else 0;
            dropped' <= |history| && history[dropped'..] == Flatten(groups[drop..])
  {
    if drop == 1 {
      assert history[dropped..][|groups[0]|..] == history[dropped + |groups[0]|..];
    } else {
      assert groups[0..] == groups;
    }
  }

  lemma {:induction false} RunTracks(actions: seq<Action>) returns (groups: seq<seq<Buf>>, dropped: nat)
    ensures Tracks(Live(After(actions)), groups, SinceReset(actions), dropped)
  {
    hide Written, Emptied, Live, Tracks;
    if actions == [] {
      groups, dropped := [[]], 0;
      TracksNothing();
      FreshLive();
    } else {
      var init, a := actions[..|actions| - 1], actions[|actions| - 1];
      groups, dropped := RunTracks(init);
      var b, history := After(init), SinceReset(init);
      if a.Reset? {
        LiveEmptied(b);
        TracksNothing();
        groups, dropped := [[]], 0;
      } else {
        LiveWritten(b, a.p);
        var live := Live(b);
        var n := |live| - 1;
        SameSize(live, groups, history, dropped);
        if |live[n]| + |a.p| <= SIZE {
          TracksJoin(live, groups, history, dropped, a.p);
          groups := groups[..n] + [groups[n] + [a.p]];
        } else {
          TracksOpen(live, groups, history, dropped, a.p);
          if |live| == CHUNKS {
            dropped := dropped + |groups[0]|;
            groups := groups[1..] + [[a.p]];
          } else {
            assert live[0..] == live && groups[0..] == groups;
            groups := groups + [[a.p]];
          }
        }
      }
    }
  }

  lemma SameSize(live: seq<Buf>, groups: seq<seq<Buf>>, history: seq<Buf>, dropped: nat)
    requires Tracks(live, groups, history, dropped)
    ensures |groups| == |live|
  {
  }

  lemma FreshLive()
    ensures Live(FRESH) == [[]]
  {
  }

  lemma TracksNothing()
    ensures Tracks([[]], [[]], [], 0)
  {
    assert Chunks([[]]) == [[]] && Flatten([[]]) == [];
  }

  lemma {:induction false} ConcatChunks(groups: seq<seq<Buf>>)
    ensures Concat(Chunks(groups)) == Concat(Flatten(groups))
  {
    if groups != [] {
      ConcatChunks(groups[1..]);
      ConcatAppend(groups[0], Flatten(groups[1..]));
    }
  }

  /** Eight pairs of neighbours. */
  lemma {:induction false} CrowdedLength(live: seq<Buf>, pairs: nat)
    requires Crowded(live) && |live| == 2 * pairs && pairs > 0
    ensures |Concat(live)| > pairs * SIZE
    decreases pairs
  {
    assert Concat(live) == live[0] + (live[1] + Concat(live[1..][1..]));
    assert live[1..][1..] == live[2..] && |live[0]| + |live[0 + 1]| > SIZE;
    if pairs > 1 {
      CrowdedLength(live[2..], pairs - 1);
    }
  }

  lemma {:induction false} SmallLength(live: seq<Buf>)
    requires Small(live)
    ensures |Concat(live)| <= |live| * SIZE
  {
    if live != [] {
      SmallLength(live[1..]);
    }
  }

  /**
   * After any writes and resets, WriteTo outputs what was written since the last reset but for some first
   * writes; if any were dropped more than half the capacity is left; and if no write exceeds a chunk, the
   * output does not exceed the capacity.
   */
  lemma OutputIsRecentHistory(actions: seq<Action>)
    ensures var history, out := SinceReset(actions), Output(After(actions));
            && (exists dropped: nat :: dropped <= |history| && out == Concat(history[dropped..])
                                       && (dropped > 0 ==> |out| > 8 * SIZE))
            && (Small(history) ==> |out| <= CHUNKS * SIZE)
  {
    var groups, dropped := RunTracks(actions);
    var live, history := Live(After(actions)), SinceReset(actions);
    ConcatChunks(groups);
    hide After, ChunksFrom, Chunks, Flatten, SinceReset, Concat;
    if dropped > 0 {
      CrowdedLength(live, 8);
    }
    if Small(history) {
      SmallLength(live);
    }
    assert dropped <= |history| && Output(After(actions)) == Concat(history[dropped..]);
  }

  /** Nothing is dropped while the history fits half the capacity. */
  lemma ShortHistoryIsWhole(actions: seq<Action>)
    requires |Concat(SinceReset(actions))| <= 8 * SIZE
    ensures Output(After(actions)) == Concat(SinceReset(actions))
  {
    OutputIsRecentHistory(actions);
    var history, out := SinceReset(actions), Output(After(actions));
    var dropped: nat :| dropped <= |history| && out == Concat(history[dropped..]) && (dropped > 0 ==> |out| > 8 * SIZE);
    ConcatAppend(history[..dropped], history[dropped..]);
    assert history[..dropped] + history[dropped..] == history;
  }
}
