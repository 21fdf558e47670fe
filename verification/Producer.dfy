/**
 * One producer of a stream (internal/streams/producer.go): the fields guarded by `Producer.mu`,
 * every lock region that edits them, and the goroutines and retry timers a producer spawns.
 *
 * A lock region is a function on a `Snapshot` of the guarded fields; the class `Producer` performs
 * the same region in place. `System` adds what lives outside the lock: worker and retry chains, and a
 * ledger of the connections that were opened and how often each was stopped.
 */
module ProducerLifecycle {
  import opened Wrappers

  type Conn = nat
  type Thread = nat

  datatype State = StateNone | StateMedias | StateTracks | StateStart | StateExternal | StateInternal

  datatype Owner = OfConn(conn: Conn) | OfConsumer(consumer: nat)

  /** A track node: who created it, its codec (compared by identity) and a distinguishing number. */
  datatype Track = Track(owner: Owner, codec: nat, id: nat)

  datatype Snapshot = Snapshot(
    state: State, conn: Option<Conn>, receivers: seq<Track>, senders: seq<Track>, workerID: nat)

  /** What a successful redial yields: the new connection and the receiver list after the matching loops. */
  datatype Redial = Redial(conn: Conn, receivers: seq<Track>)

  const NEW := Snapshot(StateNone, None, [], [], 0)

  // ---------------------------------------------------------------- lock regions

  function Dial(p: Snapshot, dialled: Option<Conn>): Snapshot {
    if p.state.StateNone? && dialled.Some? then p.(conn := dialled, state := StateMedias) else p
  }

  function FirstWithCodec(tracks: seq<Track>, codec: nat): (r: Option<Track>)
    ensures r.Some? ==> exists i :: 0 <= i < |tracks| && tracks[i] == r.value && r.value.codec == codec
                                    && forall t <- tracks[..i] :: t.codec != codec
    ensures r.None? ==> forall t <- tracks :: t.codec != codec
  {
    if tracks == [] then None
    else if tracks[0].codec == codec then (assert tracks[..0] == []; Some(tracks[0]))
    else FirstWithCodec(tracks[1..], codec)
  }

  function Tracked(s: State): State {
    if s.StateMedias? then StateTracks else s
  }

  /** `got` is what the connection's own GetTrack would return; None stands for its error. */
  function GetTrack(p: Snapshot, codec: nat, got: Option<Track>): (Snapshot, Option<Track>) {
    if p.state.StateNone? then (p, None)
    else
      var known := FirstWithCodec(p.receivers, codec);
      if known.Some? then (p, known)
      else if got.None? then (p, None)
      else (p.(receivers := p.receivers + [got.value], state := Tracked(p.state)), got)
  }

  function AddTrack(p: Snapshot, track: Track, ok: bool): Snapshot {
    if p.state.StateNone? || !ok then p
    else p.(senders := p.senders + [track], state := Tracked(p.state))
  }

  function Start(p: Snapshot): Snapshot {
    if p.state.StateTracks? then p.(state := StateStart, workerID := p.workerID + 1) else p
  }

  function Stop(p: Snapshot): Snapshot {
    if p.state.StateExternal? || p.state.StateNone? then p
    else Snapshot(StateNone, None, [], [], if p.state.StateStart? then p.workerID + 1 else p.workerID)
  }

  function Reconnect(p: Snapshot, workerID: nat, redial: Option<Redial>): Snapshot {
    if p.workerID != workerID || redial.None? then p
    else p.(conn := Some(redial.value.conn), receivers := redial.value.receivers)
  }

  // ---------------------------------------------------------------- the object itself

  class Producer {
    var state: State
    var conn: Option<Conn>
    var receivers: seq<Track>
    var senders: seq<Track>
    var workerID: nat

    function Snap(): Snapshot
      reads this
    {
      Snapshot(state, conn, receivers, senders, workerID)
    }

    constructor ()
      ensures Snap() == NEW
    {
      state, conn, receivers, senders, workerID := StateNone, None, [], [], 0;
    }

    method DialLocked(dialled: Option<Conn>) returns (ok: bool)
      modifies this
      ensures Snap() == Dial(old(Snap()), dialled)
      ensures ok <==> !old(state).StateNone? || dialled.Some?
    {
      if state == StateNone {
        if dialled == None {
          return false;
        }
        conn := dialled;
        state := StateMedias;
      }
      return true;
    }

    method GetTrackLocked(codec: nat, got: Option<Track>) returns (track: Option<Track>)
      modifies this
      ensures (Snap(), track) == GetTrack(old(Snap()), codec, got)
    {
      if state == StateNone {
        return None;
      }
      for i := 0 to |receivers|
        invariant FirstWithCodec(receivers, codec) == FirstWithCodec(receivers[i..], codec)
      {
        assert receivers[i..][1..] == receivers[i + 1..];
        if receivers[i].codec == codec {
          return Some(receivers[i]);
        }
      }
      if got == None {
        return None;
      }
      receivers := receivers + [got.value];
      if state == StateMedias {
        state := StateTracks;
      }
      return got;
    }

    method AddTrackLocked(track: Track, ok: bool)
      modifies this
      ensures Snap() == AddTrack(old(Snap()), track, ok)
    {
      if state == StateNone || !ok {
        return;
      }
      senders := senders + [track];
      if state == StateMedias {
        state := StateTracks;
      }
    }

    /** `spawned` is the identifier handed to the new worker goroutine. */
    method StartLocked() returns (spawned: Option<nat>)
      modifies this
      ensures Snap() == Start(old(Snap()))
      ensures spawned == if old(state).StateTracks? then Some(workerID) else None
    {
      if state != StateTracks {
        return None;
      }
      state := StateStart;
      workerID := workerID + 1;
      return Some(workerID);
    }

    /** `stopped` is the connection whose Stop was called. */
    method StopLocked() returns (stopped: Option<Conn>)
      modifies this
      ensures Snap() == Stop(old(Snap()))
      ensures stopped == if old(state).StateExternal? || old(state).StateNone? then None else old(conn)
    {
      match state {
        case StateExternal => return None;
        case StateNone => return None;
        case StateStart => workerID := workerID + 1;
        case _ =>
      }
      stopped := conn;
      if conn.Some? {
        conn := None;
      }
      state := StateNone;
      receivers := [];
      senders := [];
    }

    method ReconnectLocked(id: nat, redial: Option<Redial>) returns (stopped: Option<Conn>)
      modifies this
      ensures Snap() == Reconnect(old(Snap()), id, redial)
      ensures stopped == if old(workerID) == id && redial.Some? then old(conn) else None
    {
      if workerID != id {
        return None;
      }
      if redial == None {
        return None;
      }
      receivers := redial.value.receivers;
      stopped := conn;
      conn := Some(redial.value.conn);
    }
  }

  // ---------------------------------------------------------------- chains and the connection ledger

  /**
   * Where one worker goroutine or retry timer stands: inside `conn.Start()`, between its error and the
   * closed check, about to enter `reconnect`, or waiting for the retry timer.
   */
  datatype Phase = Running(conn: Conn) | Failed | Reconnecting(retry: nat) | Waiting(retry: nat)

  datatype Chain = Chain(workerID: nat, phase: Phase)

  datatype System = System(p: Snapshot, chains: map<Thread, Chain>, acquired: set<Conn>, stops: multiset<Conn>)

  datatype Action =
    | ADial(dialled: Option<Conn>)
    | AGetTrack(codec: nat, got: Option<Track>)
    | AAddTrack(track: Track, ok: bool)
    | AStart(spawn: Thread)
    | AStop
    | AReturn(thread: Thread, failed: bool)
    | ACheck(thread: Thread)
    | AReconnect(thread: Thread, redial: Option<Redial>)
    | ARetry(thread: Thread)

  predicate FreshConn(s: System, k: Conn) {
    k !in s.acquired && k !in s.stops && s.p.conn != Some(k)
  }

  predicate Enabled(s: System, a: Action) {
    match a
    case ADial(dialled) => dialled.Some? ==> FreshConn(s, dialled.value)
    case AStart(spawn) => spawn !in s.chains
    case AReturn(thread, _) => thread in s.chains && s.chains[thread].phase.Running?
    case ACheck(thread) => thread in s.chains && s.chains[thread].phase.Failed?
    case AReconnect(thread, redial) =>
      && thread in s.chains && s.chains[thread].phase.Reconnecting?
      && (redial.Some? ==> FreshConn(s, redial.value.conn))
    case ARetry(thread) => thread in s.chains && s.chains[thread].phase.Waiting?
    case _ => true
  }

  function StopConn(stops: multiset<Conn>, conn: Option<Conn>): multiset<Conn> {
    if conn.Some? then stops + multiset{conn.value} else stops
  }

  function Apply(s: System, a: Action): System
    requires Enabled(s, a)
  {
    match a
    case ADial(dialled) =>
      if s.p.state.StateNone? && dialled.Some?
      then s.(p := Dial(s.p, dialled), acquired := s.acquired + {dialled.value})
      else s
    case AGetTrack(codec, got) => s.(p := GetTrack(s.p, codec, got).0)
    case AAddTrack(track, ok) => s.(p := AddTrack(s.p, track, ok))
    case AStart(spawn) =>
      if s.p.state.StateTracks? && s.p.conn.Some?
      then s.(p := Start(s.p), chains := s.chains[spawn := Chain(s.p.workerID + 1, Running(s.p.conn.value))])
      else s
    case AStop =>
      if s.p.state.StateExternal? || s.p.state.StateNone? then s
      else s.(p := Stop(s.p), stops := StopConn(s.stops, s.p.conn))
    case AReturn(thread, failed) =>
      Move(s, thread, if failed then Failed else Reconnecting(0))
    case ACheck(thread) =>
      if s.chains[thread].workerID != s.p.workerID then Die(s, thread) else Move(s, thread, Reconnecting(0))
    case AReconnect(thread, redial) =>
      if s.chains[thread].workerID != s.p.workerID then Die(s, thread)
      else if redial.None? then Move(s, thread, Waiting(s.chains[thread].phase.retry + 1))
      else Move(s.(p := Reconnect(s.p, s.chains[thread].workerID, redial),
                   acquired := s.acquired + {redial.value.conn},
                   stops := StopConn(s.stops, s.p.conn)), thread, Running(redial.value.conn))
    case ARetry(thread) => Move(s, thread, Reconnecting(s.chains[thread].phase.retry))
  }

  function Move(s: System, thread: Thread, phase: Phase): System
    requires thread in s.chains
  {
    s.(chains := s.chains[thread := s.chains[thread].(phase := phase)])
  }

  function Die(s: System, thread: Thread): System {
    s.(chains := s.chains - {thread})
  }

  // ---------------------------------------------------------------- invariant

  /** Thread `t` carries the identifier the producer currently honours. */
  predicate Live(s: System, t: Thread) {
    t in s.chains && s.chains[t].workerID == s.p.workerID
  }

  ghost predicate OneLiveChain(s: System) {
    exists t :: Live(s, t) && forall u :: Live(s, u) ==> u == t
  }

  ghost predicate NoLeak(s: System) {
    forall k <- s.acquired :: s.stops[k] == if s.p.conn == Some(k) then 0 else 1
  }

  ghost predicate Inv(s: System) {
    && (s.p.state.StateNone? <==> s.p.conn.None?)
    && (s.p.state.StateNone? ==> s.p.receivers == [] && s.p.senders == [])
    && (s.p.state.StateMedias? ==> s.p.receivers == [] && s.p.senders == [])
    && (s.p.state.StateTracks? ==> s.p.receivers != [] || s.p.senders != [])
    && (s.p.state.StateStart? <==> OneLiveChain(s))
    && (forall t :: Live(s, t) ==> s.p.state.StateStart?)
    && (forall t <- s.chains :: s.chains[t].workerID <= s.p.workerID)
    && (forall t :: Live(s, t) && s.chains[t].phase.Running? ==> s.p.conn == Some(s.chains[t].phase.conn))
    && NoLeak(s)
  }

  /** A producer as built by NewProducer, AddProducer or AddInternalProducer. */
  ghost predicate Init(s: System) {
    && s.chains == map[] && s.acquired == {} && s.stops == multiset{}
    && (s.p == NEW
        || exists k, st | st in {StateExternal, StateInternal} :: s.p == Snapshot(st, Some(k), [], [], 0))
  }

  lemma InitInv(s: System)
    requires Init(s)
    ensures Inv(s)
  {
  }

  lemma StartKeepsInv(s: System, spawn: Thread)
    requires Inv(s) && Enabled(s, AStart(spawn))
    ensures Inv(Apply(s, AStart(spawn)))
  {
    var s' := Apply(s, AStart(spawn));
    if s.p.state.StateTracks? {
      assert Live(s', spawn);
      assert forall u :: Live(s', u) ==> u == spawn;
    }
  }

  lemma ChainStepKeepsInv(s: System, a: Action)
    requires Inv(s) && Enabled(s, a)
    requires a.AReturn? || a.ACheck? || a.AReconnect? || a.ARetry?
    ensures Inv(Apply(s, a))
  {
    var s' := Apply(s, a);
    assert forall u :: Live(s', u) <==> Live(s, u);
    assert Live(s, a.thread) ==> s.p.state.StateStart?;
    if s.p.state.StateStart? {
      var t :| Live(s, t) && forall u :: Live(s, u) ==> u == t;
      assert Live(s', t);
    }
  }

  lemma StepKeepsInv(s: System, a: Action)
    requires Inv(s) && Enabled(s, a)
    ensures Inv(Apply(s, a))
  {
    if a.AStart? {
      StartKeepsInv(s, a.spawn);
    } else if a.AReturn? || a.ACheck? || a.AReconnect? || a.ARetry? {
      ChainStepKeepsInv(s, a);
    } else {
      var s' := Apply(s, a);
      if a.AStop? && s' != s {
        forall u
          ensures !Live(s', u)
        {
          assert Live(s, u) ==> s.p.state.StateStart?;
        }
      } else {
        assert forall u :: Live(s', u) <==> Live(s, u);
        if s.p.state.StateStart? {
          var t :| Live(s, t) && forall u :: Live(s, u) ==> u == t;
          assert Live(s', t);
        }
      }
    }
  }

  // ---------------------------------------------------------------- runs

  ghost predicate ValidRun(s: System, run: seq<Action>)
    decreases |run|
  {
    run == [] || (Enabled(s, run[0]) && ValidRun(Apply(s, run[0]), run[1..]))
  }

  ghost function Final(s: System, run: seq<Action>): System
    requires ValidRun(s, run)
    decreases |run|
  {
    if run == [] then s else Final(Apply(s, run[0]), run[1..])
  }

  lemma {:induction false} RunKeepsInv(s: System, run: seq<Action>)
    requires Inv(s) && ValidRun(s, run)
    ensures Inv(Final(s, run))
    decreases |run|
  {
    if run != [] {
      StepKeepsInv(s, run[0]);
      RunKeepsInv(Apply(s, run[0]), run[1..]);
    }
  }

  /**
   * Every run of one producer, however its calls, workers and retries interleave: it is started exactly
   * when one worker-or-retry chain carries the current identifier, and every connection it acquired is
   * the current one, never stopped, or was stopped exactly once.
   */
  lemma OneLiveWorkerNoLeakedConnection(s: System, run: seq<Action>)
    requires Init(s) && ValidRun(s, run)
    ensures var e := Final(s, run); e.p.state.StateStart? <==> OneLiveChain(e)
    ensures var e := Final(s, run); !e.p.state.StateStart? ==> forall t :: !Live(e, t)
    ensures var e := Final(s, run);
            forall k <- e.acquired :: e.stops[k] == if e.p.conn == Some(k) then 0 else 1
  {
    InitInv(s);
    RunKeepsInv(s, run);
  }

  // ---------------------------------------------------------------- a track means a worker

  /** The producer has been asked for a track and was not stopped since. */
  predicate Tracking(p: Snapshot) {
    !p.state.StateNone? && !p.state.StateMedias?
  }

  predicate NoStop(run: seq<Action>) {
    forall a <- run :: !a.AStop?
  }

  lemma {:induction false} TrackingStays(s: System, run: seq<Action>)
    requires Inv(s) && ValidRun(s, run) && NoStop(run) && Tracking(s.p)
    ensures Tracking(Final(s, run).p) && Inv(Final(s, run))
    ensures Final(s, run).p.state.StateExternal? || Final(s, run).p.state.StateInternal?
            <==> s.p.state.StateExternal? || s.p.state.StateInternal?
    decreases |run|
  {
    if run != [] {
      var a := run[0];
      StepKeepsInv(s, a);
      assert a in run && NoStop(run[1..]);
      TrackingStays(Apply(s, a), run[1..]);
    }
  }

  /** From then on the next start runs a worker, whatever came in between but a stop. */
  lemma TrackingStarts(s: System, run: seq<Action>, spawn: Thread)
    requires Inv(s) && ValidRun(s, run) && NoStop(run) && Tracking(s.p)
    requires spawn !in Final(s, run).chains
    ensures var e := Apply(Final(s, run), AStart(spawn));
            && Tracking(e.p)
            && (!s.p.state.StateExternal? && !s.p.state.StateInternal? ==> e.p.state.StateStart? && OneLiveChain(e))
  {
    TrackingStays(s, run);
    StepKeepsInv(Final(s, run), AStart(spawn));
  }

  /**
   * A track handed out means a running source. In every reachable system, a track that GetTrack returns is of
   * the codec asked for and among the receivers, to which at most that track was added; and if nothing stops the
   * producer, the next start leaves exactly one live worker, unless the producer is driven from outside.
   */
  lemma TrackMeansWorker(init: System, before: seq<Action>, codec: nat, got: Option<Track>, after: seq<Action>, spawn: Thread)
    requires Init(init) && ValidRun(init, before)
    requires got.Some? ==> got.value.codec == codec
    requires GetTrack(Final(init, before).p, codec, got).1.Some?
    requires ValidRun(Apply(Final(init, before), AGetTrack(codec, got)), after) && NoStop(after)
    requires spawn !in Final(Apply(Final(init, before), AGetTrack(codec, got)), after).chains
    ensures var s, track := Final(init, before), GetTrack(Final(init, before).p, codec, got).1.value;
            var s1 := Apply(s, AGetTrack(codec, got));
            && track.codec == codec && track in s1.p.receivers
            && s1.p.receivers == (if track in s.p.receivers then s.p.receivers else s.p.receivers + [track])
            && s1.p.senders == s.p.senders && s1.p.conn == s.p.conn && s1.p.workerID == s.p.workerID
            && var e := Apply(Final(s1, after), AStart(spawn));
               !s.p.state.StateExternal? && !s.p.state.StateInternal? ==> e.p.state.StateStart? && OneLiveChain(e)
  {
    InitInv(init);
    RunKeepsInv(init, before);
    var s := Final(init, before);
    StepKeepsInv(s, AGetTrack(codec, got));
    TrackingStarts(Apply(s, AGetTrack(codec, got)), after, spawn);
  }

  /** The same for a sender track: recorded once more, and the next start runs a worker. */
  lemma SenderMeansWorker(init: System, before: seq<Action>, track: Track, after: seq<Action>, spawn: Thread)
    requires Init(init) && ValidRun(init, before) && !Final(init, before).p.state.StateNone?
    requires ValidRun(Apply(Final(init, before), AAddTrack(track, true)), after) && NoStop(after)
    requires spawn !in Final(Apply(Final(init, before), AAddTrack(track, true)), after).chains
    ensures var s := Final(init, before);
            var s1 := Apply(s, AAddTrack(track, true));
            && s1.p.senders == s.p.senders + [track] && s1.p.receivers == s.p.receivers
            && s1.p.conn == s.p.conn && s1.p.workerID == s.p.workerID
            && var e := Apply(Final(s1, after), AStart(spawn));
               !s.p.state.StateExternal? && !s.p.state.StateInternal? ==> e.p.state.StateStart? && OneLiveChain(e)
  {
    InitInv(init);
    RunKeepsInv(init, before);
    var s := Final(init, before);
    StepKeepsInv(s, AAddTrack(track, true));
    TrackingStarts(Apply(s, AAddTrack(track, true)), after, spawn);
  }

  /** A track is refused exactly in stateNone, or when the codec is new and the connection has no track for it. */
  lemma TrackRefusedIff(p: Snapshot, codec: nat, got: Option<Track>)
    ensures GetTrack(p, codec, got).1.None? <==>
            p.state.StateNone? || (got.None? && forall t <- p.receivers :: t.codec != codec)
    ensures GetTrack(p, codec, got).1.None? ==> GetTrack(p, codec, got).0 == p
  {
    var known := FirstWithCodec(p.receivers, codec);
  }

  /**
   * A live chain that redials brings the new connection in with the receivers the matching left, stops the old
   * one once more, and leaves the rest of a started producer alone; a failed redial changes nothing.
   */
  lemma RedialReplaces(init: System, run: seq<Action>, thread: Thread, redial: Option<Redial>)
    requires Init(init) && ValidRun(init, run)
    requires Enabled(Final(init, run), AReconnect(thread, redial)) && Live(Final(init, run), thread)
    ensures var s := Final(init, run);
            var e := Apply(s, AReconnect(thread, redial));
            && s.p.conn.Some? && Live(e, thread) && OneLiveChain(e)
            && (redial.None? ==> e.p == s.p && e.acquired == s.acquired && e.stops == s.stops)
            && (redial.Some? ==>
                  && e.p.conn == Some(redial.value.conn) && redial.value.conn in e.acquired
                  && e.p.receivers == redial.value.receivers && e.p.senders == s.p.senders
                  && e.p.state.StateStart? && e.p.workerID == s.p.workerID
                  && e.chains[thread].phase == Running(redial.value.conn)
                  && e.stops == s.stops + multiset{s.p.conn.value})
  {
    InitInv(init);
    RunKeepsInv(init, run);
    StepKeepsInv(Final(init, run), AReconnect(thread, redial));
  }

  /** Without a track no start has an effect: the producer stays as it was dialled. */
  lemma NoTrackNoWorker(init: System, run: seq<Action>, spawn: Thread)
    requires Init(init) && ValidRun(init, run) && spawn !in Final(init, run).chains
    requires Final(init, run).p.receivers == [] && Final(init, run).p.senders == []
    ensures Apply(Final(init, run), AStart(spawn)) == Final(init, run)
  {
    InitInv(init);
    RunKeepsInv(init, run);
  }

  /** A chain that has been fenced off changes neither the producer nor the ledger. */
  lemma StaleChainTouchesNothing(s: System, a: Action)
    requires a.AReturn? || a.ACheck? || a.AReconnect? || a.ARetry?
    requires Enabled(s, a) && !Live(s, a.thread)
    ensures var s' := Apply(s, a); s'.p == s.p && s'.acquired == s.acquired && s'.stops == s.stops
    ensures a.ACheck? || a.AReconnect? ==> a.thread !in Apply(s, a).chains
    ensures forall t :: Live(Apply(s, a), t) <==> Live(s, t)
  {
  }

  /** `reconnect` stops `p.conn` without a nil check: a live chain implies there is a connection. */
  lemma ReconnectHasConnection(s: System, run: seq<Action>, t: Thread)
    requires Init(s) && ValidRun(s, run) && Live(Final(s, run), t)
    ensures Final(s, run).p.conn.Some?
    ensures Final(s, run).chains[t].phase.Running?
            ==> Final(s, run).p.conn == Some(Final(s, run).chains[t].phase.conn)
  {
    InitInv(s);
    RunKeepsInv(s, run);
  }
}
