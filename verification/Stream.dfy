/**
 * Admission, removal and linger of one stream (internal/streams/stream.go and add_consumer.go).
 *
 * `Core` is what `Stream.mu` guards, with one function per lock region; the class `Stream` performs the
 * same regions in place. The module StreamWorld puts them together with every other concurrent party.
 */
module StreamLifecycle {
  import opened Wrappers
  import opened Sequences
  import opened P = ProducerLifecycle

  type Consumer = nat

  /**
   * One parent-child edge of the track graph: a consumer's sender under a connection's track, or a
   * connection's sender under a track of consumer `consumer` (two-way audio).
   */
  datatype Link =
    | Reader(track: Track, consumer: Consumer)
    | Back(track: Track, consumer: Consumer, conn: Conn)

  // ---------------------------------------------------------------- the fields guarded by Stream.mu

  datatype Core = Core(consumers: seq<Consumer>, pending: int, linger: int, timer: bool, generation: nat)

  function CancelLinger(c: Core): Core {
    if c.timer then c.(timer := false, generation := c.generation + 1) else c
  }

  function BeginAdd(c: Core): Core {
    CancelLinger(c.(pending := c.pending + 1))
  }

  predicate MustStopNow(c: Core) {
    |c.consumers| != 0 || c.linger <= 0
  }

  function Arm(c: Core): Core {
    c.(timer := true, generation := c.generation + 1)
  }

  function SetLinger(c: Core, duration: int): Core {
    if duration <= 0 then CancelLinger(c).(linger := duration) else c.(linger := duration)
  }

  predicate HasChild(links: set<Link>, t: Track) {
    exists l <- links :: l.track == t
  }

  predicate HasReaders(p: Snapshot, links: set<Link>) {
    (exists t <- p.receivers :: HasChild(links, t)) || (exists t <- p.senders :: HasChild(links, t))
  }

  /** Stopping a connection closes its own receivers and senders. */
  function Detach(links: set<Link>, conn: Option<Conn>): set<Link> {
    set l <- links | conn.None? || !(if l.Back? then l.conn == conn.value else l.track.owner == OfConn(conn.value))
  }

  /** The loop of stopProducersLocked from index `i`, on the guarded fields of the producers. */
  function StopSnaps(ps: seq<Snapshot>, links: set<Link>, i: nat): (r: (seq<Snapshot>, set<Link>))
    requires i <= |ps|
    ensures |r.0| == |ps|
    decreases |ps| - i
  {
    if i == |ps| then (ps, links)
    else if HasReaders(ps[i], links) then StopSnaps(ps, links, i + 1)
    else StopSnaps(ps[i := P.Stop(ps[i])], Detach(links, Stopped(ps[i])), i + 1)
  }

  lemma StopSnapsStep(ps: seq<Snapshot>, links: set<Link>, i: nat)
    requires i <= |ps|
    ensures StopSnaps(ps, links, i) ==
            if i == |ps| then (ps, links)
            else if HasReaders(ps[i], links) then StopSnaps(ps, links, i + 1)
            else StopSnaps(ps[i := P.Stop(ps[i])], Detach(links, Stopped(ps[i])), i + 1)
  {
  }

  function Stopped(p: Snapshot): Option<Conn> {
    if p.state.StateExternal? || p.state.StateNone? then None else p.conn
  }

  // ---------------------------------------------------------------- whom the loop stops

  /** The two ends of a link are closed when connection `k` is stopped. */
  predicate ClosedWith(l: Link, k: Conn) {
    match l
    case Reader(track, _) => track.owner == OfConn(k)
    case Back(_, _, conn) => conn == k
  }

  /** The link hangs from a track that the producer lists. */
  predicate On(p: Snapshot, l: Link) {
    l.track in p.receivers || l.track in p.senders
  }

  /** Stopping this producer cuts the link. */
  predicate Cuts(p: Snapshot, l: Link) {
    !p.state.StateExternal? && !p.state.StateNone? && p.conn.Some? && ClosedWith(l, p.conn.value)
  }

  /** What becomes of a stopped producer; one driven from outside, or idle, is left as it is. */
  predicate IsStopped(before: Snapshot, after: Snapshot) {
    if before.state.StateExternal? || before.state.StateNone? then after == before
    else
      && after.state == StateNone && after.conn == None && after.receivers == [] && after.senders == []
      && after.workerID == before.workerID + (if before.state == StateStart then 1 else 0)
  }

  /** The producers at `gone` are those stopped by the loop that starts at index `m`. */
  ghost predicate StopsExactly(ps: seq<Snapshot>, links: set<Link>, m: nat, gone: set<nat>,
                               after: seq<Snapshot>, left: set<Link>) {
    && |after| == |ps|
    && (forall i <- gone :: m <= i < |ps|)
    && (forall i :: 0 <= i < |ps| ==> if i in gone then IsStopped(ps[i], after[i]) else after[i] == ps[i])
    && (forall i :: m <= i < |ps| ==> (i in gone <==> Unread(ps, links, gone, i)))
    && (forall l :: l in left <==> l in links && Uncut(ps, gone, l))
  }

  ghost predicate Uncut(ps: seq<Snapshot>, gone: set<nat>, l: Link) {
    forall j <- gone :: j < |ps| ==> !Cuts(ps[j], l)
  }

  ghost predicate CutBefore(ps: seq<Snapshot>, gone: set<nat>, i: nat, l: Link) {
    exists j <- gone :: j < i && j < |ps| && Cuts(ps[j], l)
  }

  /** Every link on its tracks is cut by an earlier producer of `gone`. */
  ghost predicate Unread(ps: seq<Snapshot>, links: set<Link>, gone: set<nat>, i: nat)
    requires i < |ps|
  {
    forall l <- links :: On(ps[i], l) ==> CutBefore(ps, gone, i, l)
  }

  lemma HasReadersIs(p: Snapshot, links: set<Link>)
    ensures HasReaders(p, links) <==> exists l <- links :: On(p, l)
  {
  }

  lemma DetachIs(p: Snapshot, links: set<Link>, l: Link)
    ensures l in Detach(links, Stopped(p)) <==> l in links && !Cuts(p, l)
  {
  }

  lemma StopIs(p: Snapshot)
    ensures IsStopped(p, P.Stop(p))
  {
  }

  lemma KeepsOne(ps: seq<Snapshot>, links: set<Link>, m: nat, gone: set<nat>, after: seq<Snapshot>, left: set<Link>, l: Link)
    requires m < |ps| && StopsExactly(ps, links, m + 1, gone, after, left) && l in links && On(ps[m], l)
    ensures StopsExactly(ps, links, m, gone, after, left)
  {
    hide On, Cuts, IsStopped;
    assert !CutBefore(ps, gone, m, l);
  }

  lemma StopsOne(ps: seq<Snapshot>, links: set<Link>, m: nat, gone: set<nat>, after: seq<Snapshot>, left: set<Link>,
                 p': Snapshot, rest: set<Link>)
    requires m < |ps| && IsStopped(ps[m], p') && StopsExactly(ps[m := p'], rest, m + 1, gone, after, left)
    requires forall l :: l in rest <==> l in links && !Cuts(ps[m], l)
    requires forall l <- links :: !On(ps[m], l)
    ensures StopsExactly(ps, links, m, gone + {m}, after, left)
  {
    hide On, Cuts, IsStopped;
    var next, gone' := ps[m := p'], gone + {m};
    forall i | m <= i < |ps|
      ensures i in gone' <==> Unread(ps, links, gone', i)
    {
      if i > m {
        forall l | l in links
          ensures CutBefore(ps, gone', i, l) <==> l !in rest || CutBefore(next, gone, i, l)
        {
          StopsOneCut(ps, m, gone, p', i, l);
        }
        assert Unread(ps, links, gone', i) <==> Unread(next, rest, gone, i);
      }
    }
    forall l
      ensures l in left <==> l in links && Uncut(ps, gone', l)
    {
      assert Uncut(ps, gone', l) <==> !Cuts(ps[m], l) && Uncut(next, gone, l);
    }
  }

  lemma StopsOneCut(ps: seq<Snapshot>, m: nat, gone: set<nat>, p': Snapshot, i: nat, l: Link)
    requires m < i < |ps| && forall j <- gone :: m < j
    ensures CutBefore(ps, gone + {m}, i, l) <==> Cuts(ps[m], l) || CutBefore(ps[m := p'], gone, i, l)
  {
    hide Cuts;
  }

  /**
   * The loop, stated without following it: a producer is stopped exactly if every link on the tracks it lists is
   * cut by the stop of an earlier one, and exactly the links cut by a stopped producer are gone.
   */
  lemma {:induction false} StopLoopStopsUnread(ps: seq<Snapshot>, links: set<Link>, m: nat) returns (gone: set<nat>)
    requires m <= |ps|
    ensures StopsExactly(ps, links, m, gone, StopSnaps(ps, links, m).0, StopSnaps(ps, links, m).1)
    decreases |ps| - m
  {
    hide HasReaders, Detach, On, Cuts, IsStopped, P.Stop, StopsExactly;
    StopSnapsStep(ps, links, m);
    hide StopSnaps;
    if m == |ps| {
      gone := {};
      NothingToStop(ps, links);
    } else {
      HasReadersIs(ps[m], links);
      if l :| l in links && On(ps[m], l) {
        gone := StopLoopStopsUnread(ps, links, m + 1);
        KeepsOne(ps, links, m, gone, StopSnaps(ps, links, m + 1).0, StopSnaps(ps, links, m + 1).1, l);
      } else {
        var p', rest := P.Stop(ps[m]), Detach(links, Stopped(ps[m]));
        StopIs(ps[m]);
        forall l ensures l in rest <==> l in links && !Cuts(ps[m], l) {
          DetachIs(ps[m], links, l);
        }
        gone := StopLoopStopsUnread(ps[m := p'], rest, m + 1);
        var r := StopSnaps(ps[m := p'], rest, m + 1);
        StopsOne(ps, links, m, gone, r.0, r.1, p', rest);
        gone := gone + {m};
      }
    }
  }

  lemma NothingToStop(ps: seq<Snapshot>, links: set<Link>)
    ensures StopsExactly(ps, links, |ps|, {}, ps, links)
  {
  }

  /** A producer with a link that no other connection cuts is left alone, and the link stays. */
  lemma ReadIsKept(ps: seq<Snapshot>, links: set<Link>, m: nat, i: nat, l: Link)
    requires m <= |ps| && i < |ps| && l in links && (l.track in ps[i].receivers || l.track in ps[i].senders)
    requires forall j, k :: 0 <= j < |ps| && j != i && ps[j].conn == Some(k) ==> !ClosedWith(l, k)
    ensures StopSnaps(ps, links, m).0[i] == ps[i] && l in StopSnaps(ps, links, m).1
  {
    var gone := StopLoopStopsUnread(ps, links, m);
    hide StopSnaps, IsStopped, ClosedWith;
    assert !CutBefore(ps, gone, i, l);
    assert Uncut(ps, gone, l);
  }

  /** A producer none of whose tracks has a link is stopped. */
  lemma UnreadIsStopped(ps: seq<Snapshot>, links: set<Link>, m: nat, i: nat)
    requires m <= i < |ps| && forall l <- links :: l.track !in ps[i].receivers && l.track !in ps[i].senders
    ensures IsStopped(ps[i], StopSnaps(ps, links, m).0[i])
  {
    var gone := StopLoopStopsUnread(ps, links, m);
    hide StopSnaps, IsStopped, ClosedWith;
    assert Unread(ps, links, gone, i);
  }

  method AnyAttached(tracks: seq<Track>, links: set<Link>) returns (found: bool)
    ensures found <==> exists t <- tracks :: HasChild(links, t)
  {
    for i := 0 to |tracks|
      invariant forall t <- tracks[..i] :: !HasChild(links, t)
    {
      if HasChild(links, tracks[i]) {
        return true;
      }
    }
    return false;
  }

  // ---------------------------------------------------------------- the object itself

  class Stream {
    var producers: seq<Producer>
    var consumers: seq<Consumer>
    var pending: int
    var linger: int
    var stopTimer: bool
    var stopGeneration: nat

    function Value(): Core
      reads this
    {
      Core(consumers, pending, linger, stopTimer, stopGeneration)
    }

    function Snaps(): seq<Snapshot>
      reads this, producers
    {
      seq(|producers|, i requires 0 <= i < |producers| reads this, producers => producers[i].Snap())
    }

    ghost predicate Valid()
      reads this
    {
      forall i, j :: 0 <= i < j < |producers| ==> producers[i] != producers[j]
    }

    method BeginConsumerAdd() returns (consN: int)
      modifies this`pending, this`stopTimer, this`stopGeneration
      ensures Value() == BeginAdd(old(Value())) && consN == old(pending)
    {
      pending := pending + 1;
      consN := pending - 1;
      CancelLingerStopLocked();
    }

    method CancelLingerStopLocked()
      modifies this`stopTimer, this`stopGeneration
      ensures Value() == CancelLinger(old(Value()))
    {
      if stopTimer {
        stopTimer := false;
        stopGeneration := stopGeneration + 1;
      }
    }

    method SetLingerLocked(duration: int)
      modifies this`linger, this`stopTimer, this`stopGeneration
      ensures Value() == SetLinger(old(Value()), duration)
      ensures linger == duration && (stopTimer <==> old(stopTimer) && duration > 0)
      ensures stopGeneration == old(stopGeneration) + if old(stopTimer) && duration <= 0 then 1 else 0
    {
      linger := duration;
      if duration <= 0 && stopTimer {
        stopTimer := false;
        stopGeneration := stopGeneration + 1;
      }
    }

    /** First lock region of scheduleStopProducers: either the caller must stop now, or a callback is armed. */
    method ScheduleLocked() returns (callback: Option<nat>)
      modifies this`stopTimer, this`stopGeneration
      ensures callback.None? <==> MustStopNow(old(Value()))
      ensures Value() == if MustStopNow(old(Value())) then old(Value()) else Arm(old(Value()))
      ensures callback == if consumers != [] || linger <= 0 then None else Some(old(stopGeneration) + 1)
      ensures callback.Some? ==> callback.value == stopGeneration && stopTimer
    {
      if |consumers| != 0 || linger <= 0 {
        return None;
      }
      stopGeneration := stopGeneration + 1;
      stopTimer := true;
      return Some(stopGeneration);
    }

    /** The body of the AfterFunc callback that was armed with `generation`. */
    method LingerExpired(generation: nat, links: set<Link>) returns (left: set<Link>)
      requires Valid()
      modifies this`stopTimer, producers
      ensures stopGeneration != generation ==>
                Value() == old(Value()) && Snaps() == old(Snaps()) && left == links
      ensures stopGeneration == generation ==>
                && Value() == old(Value()).(timer := false)
                && (Snaps(), left) == if pending > 0 then (old(Snaps()), links) else StopSnaps(old(Snaps()), links, 0)
    {
      if stopGeneration != generation {
        return links;
      }
      stopTimer := false;
      assert Snaps() == old(Snaps());
      left := StopProducersLocked(links);
    }

    /** `links` is the track graph as the loop finds it; `left` what remains after the stopped connections closed. */
    method StopProducersLocked(links: set<Link>) returns (left: set<Link>)
      requires Valid()
      modifies producers
      ensures (Snaps(), left) == if pending > 0 then (old(Snaps()), links) else StopSnaps(old(Snaps()), links, 0)
    {
      hide HasChild, Detach, P.Stop, StopSnaps;
      left := links;
      if pending > 0 {
        return;
      }
      for i := 0 to |producers|
        invariant StopSnaps(Snaps(), left, i) == StopSnaps(old(Snaps()), links, 0)
      {
        var p := producers[i];
        ghost var before := Snaps();
        StopSnapsStep(before, left, i);
        var received := AnyAttached(p.receivers, left);
        var sent := AnyAttached(p.senders, left);
        if !received && !sent {
          var stopped := p.StopLocked();
          assert Snaps() == before[i := P.Stop(before[i])];
          left := Detach(left, stopped);
        }
      }
      StopSnapsStep(Snaps(), left, |producers|);
    }

    method RemoveLocked(cons: Consumer)
      modifies this`consumers
      ensures Value() == old(Value()).(consumers := Without(old(consumers), cons))
    {
      for i := 0 to |consumers|
        invariant consumers == old(consumers)
        invariant cons !in consumers[..i]
      {
        if consumers[i] == cons {
          WithoutAt(consumers, cons, i);
          consumers := consumers[..i] + consumers[i + 1..];
          return;
        }
      }
    }
  }
}
