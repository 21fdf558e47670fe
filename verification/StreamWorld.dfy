/**
 * The concurrent system around one stream: AddConsumer and RemoveConsumer calls at their program
 * points, outstanding linger callbacks, and every producer's worker and retry chains. A step is one
 * lock region (or one call into a consumer or connection); a run is any interleaving of steps.
 */
module StreamWorld {
  import opened Wrappers
  import opened Sequences
  import opened P = ProducerLifecycle
  import opened S = StreamLifecycle

  /** The program point of one call; `starts` is AddConsumer's prodStarts. */
  datatype Op =
    | Adding(c: Consumer, starts: seq<nat>)
    | AddSchedule(c: Consumer)
    | AddStop(c: Consumer, starts: seq<nat>)
    | AddAppend(c: Consumer, starts: seq<nat>)
    | AddStart(c: Consumer, starts: seq<nat>)
    | RemStop(c: Consumer)
    | RemList(c: Consumer)
    | RemSchedule(c: Consumer)
    | RemStopAll(c: Consumer)

  datatype World = World(
    core: Core, producers: seq<System>, links: set<Link>, callbacks: set<nat>, ops: map<Thread, Op>)

  datatype Action =
    | BeginAdd(t: Thread, c: Consumer)
    | DialProducer(t: Thread, i: nat, dialled: Option<Conn>)
    | GetProducerTrack(t: Thread, i: nat, codec: nat, got: Option<Track>)
    | AttachReader(t: Thread, i: nat, track: Track)
    | AttachBack(t: Thread, i: nat, track: Track)
    | EndMatching(t: Thread)
    | Schedule(t: Thread)
    | StopAll(t: Thread)
    | Append(t: Thread)
    | StartNext(t: Thread, spawn: Thread)
    | Finish(t: Thread)
    | BeginRemove(t: Thread, c: Consumer)
    | StopConsumer(t: Thread)
    | RemoveFromList(t: Thread)
    | Fire(generation: nat)
    | Drop(generation: nat)
    | ChainStep(i: nat, step: P.Action, links: set<Link>)
    | ChangeLinger(duration: int)

  // ---------------------------------------------------------------- steps

  predicate IsAdd(op: Op) {
    op.Adding? || op.AddSchedule? || op.AddStop? || op.AddAppend? || op.AddStart?
  }

  /**
   * What a chain step may do to the track graph: nothing, except that a reconnect may move readers to
   * tracks of the new connection, drop some, and put the new connection's senders under tracks that
   * `p.senders` still lists. Links of other producers stay.
   */
  ghost predicate Relinks(w: World, i: nat, step: P.Action, links: set<Link>)
    requires i < |w.producers|
  {
    var p := w.producers[i].p;
    if step.AReconnect? && step.redial.Some? && Live(w.producers[i], step.thread) then
      && (forall l <- links ::
            || l in w.links
            || (l.Reader? && exists l0 <- w.links :: l0.track in p.receivers && l0.Reader? && l0.consumer == l.consumer)
            || (l.Back? && l.track in p.senders && l.track.owner == OfConsumer(l.consumer)
                && l.conn == step.redial.value.conn))
      && (forall l <- w.links :: l.track !in p.receivers && l.track !in p.senders ==> l in links)
    else links == w.links
  }

  /** GetProducer returns a connection no producer has seen. */
  predicate NewConn(w: World, k: Conn) {
    forall i :: 0 <= i < |w.producers| ==> FreshConn(w.producers[i], k)
  }

  ghost predicate Enabled(w: World, a: Action) {
    match a
    case BeginAdd(t, c) =>
      t !in w.ops && c !in w.core.consumers && forall u <- w.ops :: w.ops[u].c != c
    case DialProducer(t, i, dialled) =>
      && t in w.ops && w.ops[t].Adding? && i < |w.producers|
      && P.Enabled(w.producers[i], ADial(dialled)) && (dialled.Some? ==> NewConn(w, dialled.value))
    case GetProducerTrack(t, i, _, _) => t in w.ops && w.ops[t].Adding? && i < |w.producers|
    case AttachReader(t, i, _) => t in w.ops && w.ops[t].Adding? && i < |w.producers|
    case AttachBack(t, i, track) =>
      && t in w.ops && w.ops[t].Adding? && i < |w.producers|
      && w.producers[i].p.conn.Some? && !w.producers[i].p.state.StateNone?
      && track.owner == OfConsumer(w.ops[t].c)
    case EndMatching(t) => t in w.ops && w.ops[t].Adding?
    case Schedule(t) => t in w.ops && (w.ops[t].AddSchedule? || w.ops[t].RemSchedule?)
    case StopAll(t) => t in w.ops && (w.ops[t].AddStop? || w.ops[t].RemStopAll?)
    case Append(t) => t in w.ops && w.ops[t].AddAppend?
    case StartNext(t, spawn) =>
      && t in w.ops && w.ops[t].AddStart? && w.ops[t].starts != []
      && w.ops[t].starts[0] < |w.producers|
      && P.Enabled(w.producers[w.ops[t].starts[0]], AStart(spawn))
    case Finish(t) => t in w.ops && w.ops[t].AddStart? && w.ops[t].starts == []
    case BeginRemove(t, c) => t !in w.ops && forall u <- w.ops :: IsAdd(w.ops[u]) ==> w.ops[u].c != c
    case StopConsumer(t) => t in w.ops && w.ops[t].RemStop?
    case RemoveFromList(t) => t in w.ops && w.ops[t].RemList?
    case Fire(generation) => generation in w.callbacks
    case Drop(generation) => generation in w.callbacks && (generation != w.core.generation || !w.core.timer)
    case ChainStep(i, step, links) =>
      && i < |w.producers| && (step.AReturn? || step.ACheck? || step.AReconnect? || step.ARetry?)
      && P.Enabled(w.producers[i], step) && Relinks(w, i, step, links)
      && (step.AReconnect? && step.redial.Some? ==> NewConn(w, step.redial.value.conn))
    case ChangeLinger(_) => true
  }

  function SetOp(w: World, t: Thread, op: Op): World {
    w.(ops := w.ops[t := op])
  }

  function EndOp(w: World, t: Thread): World {
    w.(ops := w.ops - {t})
  }

  function Step(w: World, i: nat, step: P.Action): World
    requires i < |w.producers| && P.Enabled(w.producers[i], step)
  {
    w.(producers := w.producers[i := P.Apply(w.producers[i], step)])
  }

  /** The loop of stopProducersLocked from producer `i`. */
  function StopFrom(ps: seq<System>, links: set<Link>, i: nat): (r: (seq<System>, set<Link>))
    requires i <= |ps|
    ensures |r.0| == |ps|
    decreases |ps| - i
  {
    if i == |ps| then (ps, links)
    else if HasReaders(ps[i].p, links) then StopFrom(ps, links, i + 1)
    else StopFrom(ps[i := P.Apply(ps[i], AStop)], Detach(links, Stopped(ps[i].p)), i + 1)
  }

  function SnapsOf(ps: seq<System>): (r: seq<Snapshot>)
    ensures |r| == |ps|
  {
    seq(|ps|, i requires 0 <= i < |ps| => ps[i].p)
  }

  /** On the guarded fields this is the loop that `Stream.StopProducersLocked` performs. */
  lemma {:induction false} StopFromIsStopSnaps(ps: seq<System>, links: set<Link>, i: nat)
    requires i <= |ps|
    ensures S.StopSnaps(SnapsOf(ps), links, i) == (SnapsOf(StopFrom(ps, links, i).0), StopFrom(ps, links, i).1)
    decreases |ps| - i
  {
    hide HasReaders, Detach;
    if i < |ps| {
      if HasReaders(ps[i].p, links) {
        StopFromIsStopSnaps(ps, links, i + 1);
      } else {
        var stopped := ps[i := P.Apply(ps[i], AStop)];
        StopFromIsStopSnaps(stopped, Detach(links, Stopped(ps[i].p)), i + 1);
        assert SnapsOf(stopped) == SnapsOf(ps)[i := P.Stop(ps[i].p)];
      }
    }
  }

  function StopLocked(w: World): (r: World)
    ensures r.core == w.core && r.ops == w.ops && r.callbacks == w.callbacks
  {
    if w.core.pending > 0 then w
    else var r := StopFrom(w.producers, w.links, 0); w.(producers := r.0, links := r.1)
  }

  ghost function Apply(w: World, a: Action): World
    requires Enabled(w, a)
  {
    match a
    case BeginAdd(t, c) => SetOp(w, t, Adding(c, [])).(core := S.BeginAdd(w.core))
    case DialProducer(t, i, dialled) => Step(w, i, ADial(dialled))
    case GetProducerTrack(t, i, codec, got) => Step(w, i, AGetTrack(codec, got))
    case AttachReader(t, i, track) =>
      SetOp(w, t, w.ops[t].(starts := w.ops[t].starts + [i]))
      .(links := w.links + {Reader(track, w.ops[t].c)})
    case AttachBack(t, i, track) =>
      SetOp(Step(w, i, AAddTrack(track, true)), t, w.ops[t].(starts := w.ops[t].starts + [i]))
      .(links := w.links + {Back(track, w.ops[t].c, w.producers[i].p.conn.value)})
    case EndMatching(t) =>
      var op := w.ops[t];
      var w1 := w.(core := w.core.(pending := w.core.pending - 1));
      if w1.core.pending == 0 then SetOp(w1, t, if op.starts == [] then AddSchedule(op.c) else AddStop(op.c, op.starts))
      else if op.starts == [] then EndOp(w1, t)
      else SetOp(w1, t, AddAppend(op.c, op.starts))
    case Schedule(t) =>
      if MustStopNow(w.core) then
        SetOp(w, t, if w.ops[t].AddSchedule? then AddStop(w.ops[t].c, []) else RemStopAll(w.ops[t].c))
      else
        var core := Arm(w.core);
        EndOp(w, t).(core := core, callbacks := w.callbacks + {core.generation})
    case StopAll(t) =>
      var op := w.ops[t];
      var w1 := StopLocked(w);
      if op.AddStop? && op.starts != [] then SetOp(w1, t, AddAppend(op.c, op.starts)) else EndOp(w1, t)
    case Append(t) =>
      SetOp(w, t, AddStart(w.ops[t].c, w.ops[t].starts))
      .(core := w.core.(consumers := w.core.consumers + [w.ops[t].c]))
    case StartNext(t, spawn) =>
      var op := w.ops[t];
      SetOp(Step(w, op.starts[0], AStart(spawn)), t, AddStart(op.c, op.starts[1..]))
    case Finish(t) => EndOp(w, t)
    case BeginRemove(t, c) => SetOp(w, t, RemStop(c))
    case StopConsumer(t) =>
      SetOp(w, t, RemList(w.ops[t].c)).(links := set l <- w.links | l.consumer != w.ops[t].c)
    case RemoveFromList(t) =>
      SetOp(w, t, RemSchedule(w.ops[t].c))
      .(core := w.core.(consumers := Without(w.core.consumers, w.ops[t].c)))
    case Fire(generation) =>
      var w1 := w.(callbacks := w.callbacks - {generation});
      if w.core.generation != generation then w1 else StopLocked(w1.(core := w.core.(timer := false)))
    case Drop(generation) => w.(callbacks := w.callbacks - {generation})
    case ChainStep(i, step, links) => Step(w, i, step).(links := links)
    case ChangeLinger(duration) => w.(core := SetLinger(w.core, duration))
  }

  // ---------------------------------------------------------------- invariants of every run

  ghost function AddingThreads(ops: map<Thread, Op>): set<Thread> {
    set t <- ops | ops[t].Adding?
  }

  ghost predicate TimerInv(w: World) {
    && (w.core.timer <==> w.core.generation in w.callbacks)
    && (forall g <- w.callbacks :: g <= w.core.generation)
  }

  ghost predicate OpsInv(core: Core, ops: map<Thread, Op>) {
    && core.pending == |AddingThreads(ops)|
    && (forall t, u :: t in ops && u in ops && t != u && IsAdd(ops[t]) ==> ops[u].c != ops[t].c)
    && (forall t <- ops :: IsAdd(ops[t]) ==> OpFits(core, ops[t]))
  }

  /** An add's consumer is listed exactly from the append on; an add only appends after matching something. */
  ghost predicate OpFits(core: Core, op: Op) {
    && (op.AddStart? <==> op.c in core.consumers)
    && (op.AddAppend? ==> op.starts != [])
  }

  ghost predicate ProducersInv(ps: seq<System>) {
    forall i :: 0 <= i < |ps| ==> P.Inv(ps[i])
  }

  ghost predicate Inv(w: World) {
    TimerInv(w) && OpsInv(w.core, w.ops) && ProducersInv(w.producers)
  }

  ghost predicate Init(w: World) {
    && w.core.consumers == [] && w.core.pending == 0 && !w.core.timer && w.core.generation == 0
    && w.links == {} && w.callbacks == {} && w.ops == map[]
    && forall i :: 0 <= i < |w.producers| ==> P.Init(w.producers[i])
  }

  lemma InitInv(w: World)
    requires Init(w)
    ensures Inv(w)
  {
    assert AddingThreads(w.ops) == {};
    forall i | 0 <= i < |w.producers| ensures P.Inv(w.producers[i]) {
      P.InitInv(w.producers[i]);
    }
  }

  lemma {:induction false} StopFromKeeps(ps: seq<System>, links: set<Link>, i: nat)
    requires i <= |ps| && ProducersInv(ps)
    ensures ProducersInv(StopFrom(ps, links, i).0)
    ensures StopFrom(ps, links, i).1 <= links
    decreases |ps| - i
  {
    if i < |ps| {
      if HasReaders(ps[i].p, links) {
        StopFromKeeps(ps, links, i + 1);
      } else {
        P.StepKeepsInv(ps[i], AStop);
        StopFromKeeps(ps[i := P.Apply(ps[i], AStop)], Detach(links, Stopped(ps[i].p)), i + 1);
      }
    }
  }

  lemma StepKeepsProducers(w: World, a: Action)
    requires Enabled(w, a) && ProducersInv(w.producers)
    ensures ProducersInv(Apply(w, a).producers)
  {
    match a {
      case DialProducer(t, i, dialled) => P.StepKeepsInv(w.producers[i], ADial(dialled));
      case GetProducerTrack(t, i, codec, got) => P.StepKeepsInv(w.producers[i], AGetTrack(codec, got));
      case AttachBack(t, i, track) => P.StepKeepsInv(w.producers[i], AAddTrack(track, true));
      case StartNext(t, spawn) => P.StepKeepsInv(w.producers[w.ops[t].starts[0]], AStart(spawn));
      case ChainStep(i, step, links) => P.StepKeepsInv(w.producers[i], step);
      case StopAll(t) => StopFromKeeps(w.producers, w.links, 0);
      case Fire(g) => StopFromKeeps(w.producers, w.links, 0);
      case _ =>
    }
  }

  lemma CountAfterSet(ops: map<Thread, Op>, t: Thread, op: Op)
    ensures |AddingThreads(ops[t := op])|
         == |AddingThreads(ops)| - (if t in ops && ops[t].Adding? then 1 else 0) + (if op.Adding? then 1 else 0)
  {
    var before, after := AddingThreads(ops), AddingThreads(ops[t := op]);
    assert after == if op.Adding? then before + {t} else before - {t};
  }

  lemma CountAfterRemove(ops: map<Thread, Op>, t: Thread)
    ensures |AddingThreads(ops - {t})| == |AddingThreads(ops)| - (if t in ops && ops[t].Adding? then 1 else 0)
  {
    assert AddingThreads(ops - {t}) == AddingThreads(ops) - {t};
  }

  lemma SetKeepsOps(core: Core, core': Core, ops: map<Thread, Op>, t: Thread, op: Op)
    requires OpsInv(core, ops)
    requires core'.pending ==
             core.pending - (if t in ops && ops[t].Adding? then 1 else 0) + (if op.Adding? then 1 else 0)
    requires forall u <- ops :: u != t && IsAdd(ops[u]) ==>
               (ops[u].c in core'.consumers <==> ops[u].c in core.consumers)
    requires forall u <- ops :: u != t && (IsAdd(op) || IsAdd(ops[u])) ==> ops[u].c != op.c
    requires IsAdd(op) ==> OpFits(core', op)
    ensures OpsInv(core', ops[t := op])
  {
    CountAfterSet(ops, t, op);
  }

  lemma RemoveKeepsOps(core: Core, core': Core, ops: map<Thread, Op>, t: Thread)
    requires OpsInv(core, ops) && core'.consumers == core.consumers
    requires core'.pending == core.pending - (if t in ops && ops[t].Adding? then 1 else 0)
    ensures OpsInv(core', ops - {t})
  {
    CountAfterRemove(ops, t);
  }

  lemma OthersStayListed(w: World, t: Thread)
    requires OpsInv(w.core, w.ops) && t in w.ops && !IsAdd(w.ops[t])
    ensures forall u <- w.ops :: IsAdd(w.ops[u]) ==>
              (w.ops[u].c in Without(w.core.consumers, w.ops[t].c) <==> w.ops[u].c in w.core.consumers)
  {
    forall u | u in w.ops && IsAdd(w.ops[u])
      ensures w.ops[u].c in Without(w.core.consumers, w.ops[t].c) <==> w.ops[u].c in w.core.consumers
    {
      WithoutKeepsOthers(w.core.consumers, w.ops[t].c, w.ops[u].c);
    }
  }

  predicate LeavesOps(a: Action) {
    a.DialProducer? || a.GetProducerTrack? || a.Fire? || a.Drop? || a.ChainStep? || a.ChangeLinger?
  }

  /** How a call's step moves the pending count, its own op and its consumer's listing. */
  lemma CallBooks(w: World, a: Action)
    requires Enabled(w, a) && !LeavesOps(a)
    ensures var w', t := Apply(w, a), a.t;
            && w'.core.pending == w.core.pending - (if t in w.ops && w.ops[t].Adding? then 1 else 0)
                                  + (if t in w'.ops && w'.ops[t].Adding? then 1 else 0)
            && w'.ops == (if t in w'.ops then w.ops[t := w'.ops[t]] else w.ops - {t})
            && (t in w.ops && t in w'.ops ==>
                  && w'.ops[t].c == w.ops[t].c && (IsAdd(w'.ops[t]) ==> IsAdd(w.ops[t]))
                  && (OpFits(w.core, w.ops[t]) && IsAdd(w'.ops[t]) ==> OpFits(w'.core, w'.ops[t])))
            && (t !in w.ops ==>
                  && t in w'.ops
                  && (forall u <- w.ops :: IsAdd(w.ops[u]) || IsAdd(w'.ops[t]) ==> w.ops[u].c != w'.ops[t].c)
                  && (IsAdd(w'.ops[t]) ==> OpFits(w'.core, w'.ops[t])))
            && (a.RemoveFromList? ==>
                  t in w.ops && !IsAdd(w.ops[t]) && t in w'.ops && !IsAdd(w'.ops[t])
                  && w'.core.consumers == Without(w.core.consumers, w.ops[t].c))
            && (a.Append? ==> t in w.ops && t in w'.ops && IsAdd(w.ops[t])
                              && w'.core.consumers == w.core.consumers + [w.ops[t].c])
            && (!a.RemoveFromList? && !a.Append? ==> w'.core.consumers == w.core.consumers)
  {
    hide StopLocked, P.Apply, P.Enabled, NewConn, Without;
  }

  lemma LeavesBooks(w: World, a: Action)
    requires Enabled(w, a) && LeavesOps(a)
    ensures var w' := Apply(w, a);
            w'.ops == w.ops && w'.core.pending == w.core.pending && w'.core.consumers == w.core.consumers
  {
    hide StopLocked, P.Apply, P.Enabled, NewConn;
  }

  lemma StepKeepsOps(w: World, a: Action)
    requires Enabled(w, a) && OpsInv(w.core, w.ops)
    ensures OpsInv(Apply(w, a).core, Apply(w, a).ops)
  {
    if LeavesOps(a) {
      LeavesBooks(w, a);
    } else {
      CallBooks(w, a);
      hide Apply, Enabled, Without;
      var w' := Apply(w, a);
      if a.RemoveFromList? {
        OthersStayListed(w, a.t);
      }
      if a.t in w'.ops {
        SetKeepsOps(w.core, w'.core, w.ops, a.t, w'.ops[a.t]);
      } else {
        RemoveKeepsOps(w.core, w'.core, w.ops, a.t);
      }
    }
  }

  lemma StepKeepsTimer(w: World, a: Action)
    requires Enabled(w, a) && TimerInv(w)
    ensures TimerInv(Apply(w, a))
  {
    hide StopLocked, P.Apply, P.Enabled, NewConn;
  }

  lemma StepKeepsInv(w: World, a: Action)
    requires Enabled(w, a) && Inv(w)
    ensures Inv(Apply(w, a))
  {
    hide Enabled, Apply, TimerInv, OpsInv, ProducersInv;
    StepKeepsTimer(w, a);
    StepKeepsProducers(w, a);
    StepKeepsOps(w, a);
  }

  // ---------------------------------------------------------------- runs

  ghost predicate ValidRun(w: World, run: seq<Action>)
    decreases |run|
  {
    run == [] || (Enabled(w, run[0]) && ValidRun(Apply(w, run[0]), run[1..]))
  }

  ghost function Final(w: World, run: seq<Action>): World
    requires ValidRun(w, run)
    decreases |run|
  {
    if run == [] then w else Final(Apply(w, run[0]), run[1..])
  }

  lemma {:induction false} RunKeepsInv(w: World, run: seq<Action>)
    requires Inv(w) && ValidRun(w, run)
    ensures Inv(Final(w, run))
    decreases |run|
  {
    if run != [] {
      StepKeepsInv(w, run[0]);
      RunKeepsInv(Apply(w, run[0]), run[1..]);
    }
  }

  // ---------------------------------------------------------------- admission beats expiry

  ghost predicate AddInProgress(w: World, t: Thread) {
    t in w.ops && w.ops[t].Adding?
  }

  /** Between an add's admission and its decrement no step takes a dialled producer back to stateNone. */
  lemma NoStopWhileAdding(w: World, a: Action, t: Thread)
    requires Inv(w) && Enabled(w, a) && AddInProgress(w, t)
    ensures |Apply(w, a).producers| == |w.producers|
    ensures forall i :: 0 <= i < |w.producers| && !w.producers[i].p.state.StateNone?
                        ==> !Apply(w, a).producers[i].p.state.StateNone?
  {
    assert t in AddingThreads(w.ops);
    assert w.core.pending > 0;
  }

  ghost predicate AddingThroughout(w: World, run: seq<Action>, t: Thread)
    requires ValidRun(w, run)
    decreases |run|
  {
    AddInProgress(w, t) && (run == [] || AddingThroughout(Apply(w, run[0]), run[1..], t))
  }

  lemma {:induction false} DialledStaysWhileAdding(w: World, run: seq<Action>, t: Thread, i: nat)
    requires Inv(w) && ValidRun(w, run) && AddingThroughout(w, run, t)
    requires i < |w.producers| && !w.producers[i].p.state.StateNone?
    ensures i < |Final(w, run).producers| && !Final(w, run).producers[i].p.state.StateNone?
    decreases |run|
  {
    if run != [] {
      NoStopWhileAdding(w, run[0], t);
      StepKeepsInv(w, run[0]);
      DialledStaysWhileAdding(Apply(w, run[0]), run[1..], t, i);
    }
  }

  /**
   * Admission beats expiry, over whole runs: once an add has been admitted, whatever else interleaves
   * until its decrement, a producer that is dialled stays dialled, so asking it for a track never meets
   * the "none state" error.
   */
  lemma AdmissionBeatsExpiry(
    init: World, before: seq<Action>, t: Thread, c: Consumer, after: seq<Action>, i: nat,
    codec: nat, got: Option<Track>)
    requires Init(init) && ValidRun(init, before)
    requires Enabled(Final(init, before), BeginAdd(t, c))
    requires ValidRun(Apply(Final(init, before), BeginAdd(t, c)), after)
    requires AddingThroughout(Apply(Final(init, before), BeginAdd(t, c)), after, t)
    requires i < |Final(init, before).producers| && !Final(init, before).producers[i].p.state.StateNone?
    ensures var w := Final(Apply(Final(init, before), BeginAdd(t, c)), after);
            && i < |w.producers| && !w.producers[i].p.state.StateNone?
            && (got.Some? ==> P.GetTrack(w.producers[i].p, codec, got).1.Some?)
  {
    InitInv(init);
    RunKeepsInv(init, before);
    var w := Final(init, before);
    StepKeepsInv(w, BeginAdd(t, c));
    DialledStaysWhileAdding(Apply(w, BeginAdd(t, c)), after, t, i);
  }

  /** In every reachable state the timer field is set exactly when one callback carries the generation. */
  lemma TimerMatchesOneCallback(w: World, run: seq<Action>)
    requires Init(w) && ValidRun(w, run)
    ensures var e := Final(w, run);
            e.core.timer <==> e.core.generation in e.callbacks
    ensures var e := Final(w, run); forall g <- e.callbacks :: g <= e.core.generation
  {
    InitInv(w);
    RunKeepsInv(w, run);
  }

  /** Admission, re-arming and SetLinger(0) make every earlier callback stale, for good. */
  lemma CancelledCallbacksStayStale(w: World, a: Action, g: nat)
    requires Inv(w) && Enabled(w, a) && g in w.callbacks && g < w.core.generation
    ensures g < Apply(w, a).core.generation
  {
  }

  lemma AdmissionMakesCallbacksStale(w: World, t: Thread, c: Consumer, g: nat)
    requires Inv(w) && Enabled(w, BeginAdd(t, c)) && g in w.callbacks
    ensures g < Apply(w, BeginAdd(t, c)).core.generation
    ensures !Apply(w, BeginAdd(t, c)).core.timer
  {
  }

  /** A stale callback that still runs stops nothing and cancels nothing. */
  lemma StaleCallbackStopsNothing(w: World, g: nat)
    requires Inv(w) && Enabled(w, Fire(g)) && g != w.core.generation
    ensures Apply(w, Fire(g)) == w.(callbacks := w.callbacks - {g})
  {
  }

  // ---------------------------------------------------------------- whom a stop step stops

  /** No connection is, or was, that of two producers. */
  ghost predicate Apart(ps: seq<System>) {
    forall i, j, k: Conn :: 0 <= i < |ps| && 0 <= j < |ps| && i != j ==> FreshConn(ps[i], k) || FreshConn(ps[j], k)
  }

  lemma ApartAfterSet(ps: seq<System>, i: nat, s: System)
    requires Apart(ps) && i < |ps|
    requires forall k: Conn :: FreshConn(ps[i], k) && !FreshConn(s, k) ==>
               forall j :: 0 <= j < |ps| ==> FreshConn(ps[j], k)
    ensures Apart(ps[i := s])
  {
    hide FreshConn;
  }

  /** What a step of one producer may add to the connections it knows. */
  lemma StepKnows(s: System, a: P.Action, k: Conn)
    requires P.Enabled(s, a) && FreshConn(s, k) && !FreshConn(P.Apply(s, a), k)
    ensures a == ADial(Some(k)) || (a.AReconnect? && a.redial.Some? && a.redial.value.conn == k)
  {
  }

  lemma ApartAfterStep(ps: seq<System>, i: nat, a: P.Action)
    requires Apart(ps) && i < |ps| && P.Enabled(ps[i], a)
    requires a.ADial? && a.dialled.Some? ==> forall j :: 0 <= j < |ps| ==> FreshConn(ps[j], a.dialled.value)
    requires a.AReconnect? && a.redial.Some? ==> forall j :: 0 <= j < |ps| ==> FreshConn(ps[j], a.redial.value.conn)
    ensures Apart(ps[i := P.Apply(ps[i], a)])
  {
    hide FreshConn, P.Enabled, P.Apply;
    forall k: Conn | FreshConn(ps[i], k) && !FreshConn(P.Apply(ps[i], a), k)
      ensures forall j :: 0 <= j < |ps| ==> FreshConn(ps[j], k)
    {
      StepKnows(ps[i], a, k);
    }
    ApartAfterSet(ps, i, P.Apply(ps[i], a));
  }

  lemma {:induction false} StopFromApart(ps: seq<System>, links: set<Link>, m: nat)
    requires m <= |ps| && Apart(ps)
    ensures Apart(StopFrom(ps, links, m).0)
    decreases |ps| - m
  {
    hide Apart, HasReaders, Detach;
    if m < |ps| {
      if HasReaders(ps[m].p, links) {
        StopFromApart(ps, links, m + 1);
      } else {
        ApartAfterStep(ps, m, AStop);
        StopFromApart(ps[m := P.Apply(ps[m], AStop)], Detach(links, Stopped(ps[m].p)), m + 1);
      }
    }
  }

  lemma StepKeepsApart(w: World, a: Action)
    requires Enabled(w, a) && Apart(w.producers)
    ensures Apart(Apply(w, a).producers)
  {
    hide Apart, FreshConn, P.Apply;
    match a {
      case DialProducer(t, i, dialled) => ApartAfterStep(w.producers, i, ADial(dialled));
      case GetProducerTrack(t, i, codec, got) => ApartAfterStep(w.producers, i, AGetTrack(codec, got));
      case AttachBack(t, i, track) => ApartAfterStep(w.producers, i, AAddTrack(track, true));
      case StartNext(t, spawn) => ApartAfterStep(w.producers, w.ops[t].starts[0], AStart(spawn));
      case ChainStep(i, step, links) => ApartAfterStep(w.producers, i, step);
      case StopAll(t) => StopFromApart(w.producers, w.links, 0);
      case Fire(g) => StopFromApart(w.producers, w.links, 0);
      case _ =>
    }
  }

  lemma {:induction false} RunKeepsApart(w: World, run: seq<Action>)
    requires ValidRun(w, run) && Apart(w.producers)
    ensures Apart(Final(w, run).producers)
    decreases |run|
  {
    hide Apart;
    if run != [] {
      StepKeepsApart(w, run[0]);
      RunKeepsApart(Apply(w, run[0]), run[1..]);
    }
  }

  /** A producer that the loop leaves as it is on the guarded fields is left as it is altogether. */
  lemma {:induction false} StopFromAll(ps: seq<System>, links: set<Link>, m: nat, i: nat)
    requires m <= |ps| && i < |ps|
    ensures StopFrom(ps, links, m).0[i] in {ps[i], P.Apply(ps[i], AStop)}
    decreases |ps| - m
  {
    hide HasReaders, Detach, P.Apply;
    if m < |ps| {
      if HasReaders(ps[m].p, links) {
        StopFromAll(ps, links, m + 1, i);
      } else {
        StopTwice(ps[m]);
        StopFromAll(ps[m := P.Apply(ps[m], AStop)], Detach(links, Stopped(ps[m].p)), m + 1, i);
      }
    }
  }

  lemma StopTwice(s: System)
    ensures P.Apply(P.Apply(s, AStop), AStop) == P.Apply(s, AStop)
  {
  }

  lemma ReadStaysUp(ps: seq<System>, links: set<Link>, m: nat, i: nat, l: Link)
    requires m <= |ps| && i < |ps| && l in links && (l.track in ps[i].p.receivers || l.track in ps[i].p.senders)
    requires forall j, k :: 0 <= j < |ps| && j != i && ps[j].p.conn == Some(k) ==> !ClosedWith(l, k)
    ensures StopFrom(ps, links, m).0[i] == ps[i] && l in StopFrom(ps, links, m).1
  {
    hide ClosedWith, StopFrom, StopSnaps;
    var snaps := SnapsOf(ps);
    StopFromIsStopSnaps(ps, links, m);
    ReadIsKept(snaps, links, m, i, l);
    assert StopFrom(ps, links, m).0[i].p == SnapsOf(StopFrom(ps, links, m).0)[i] == ps[i].p;
    StopFromAll(ps, links, m, i);
  }

  lemma UnreadStops(ps: seq<System>, links: set<Link>, m: nat, i: nat)
    requires m <= i < |ps| && forall l <- links :: l.track !in ps[i].p.receivers && l.track !in ps[i].p.senders
    ensures IsStopped(ps[i].p, StopFrom(ps, links, m).0[i].p)
  {
    hide StopFrom, StopSnaps, IsStopped;
    var snaps := SnapsOf(ps);
    StopFromIsStopSnaps(ps, links, m);
    UnreadIsStopped(snaps, links, m, i);
    assert StopFrom(ps, links, m).0[i].p == SnapsOf(StopFrom(ps, links, m).0)[i];
  }

  /**
   * Nobody is cut off. In every reachable state, whichever stop step comes next, the loop of a call or a linger
   * callback, a producer with a sender attached to one of its tracks goes on exactly as it is, and the sender
   * stays attached. The link must not be one that another producer's connection opened.
   */
  lemma ReadProducerKeepsRunning(init: World, run: seq<Action>, a: Action, i: nat, l: Link)
    requires Init(init) && Apart(init.producers) && ValidRun(init, run) && Enabled(Final(init, run), a)
    requires a.StopAll? || a.Fire?
    requires i < |Final(init, run).producers| && l in Final(init, run).links
    requires l.track in Final(init, run).producers[i].p.receivers || l.track in Final(init, run).producers[i].p.senders
    requires forall k: Conn :: ClosedWith(l, k) ==> !FreshConn(Final(init, run).producers[i], k)
    ensures var w, e := Final(init, run), Apply(Final(init, run), a);
            |e.producers| == |w.producers| && e.producers[i] == w.producers[i] && l in e.links
  {
    var w := Final(init, run);
    RunKeepsApart(init, run);
    forall j, k | 0 <= j < |w.producers| && j != i && w.producers[j].p.conn == Some(k)
      ensures !ClosedWith(l, k)
    {
      assert FreshConn(w.producers[i], k) || FreshConn(w.producers[j], k);
    }
    ReadStaysUp(w.producers, w.links, 0, i, l);
  }

  /** And nobody runs for nothing: unless an add is pending, a stop step stops every producer without a reader. */
  lemma UnreadProducerStops(w: World, a: Action, i: nat)
    requires Enabled(w, a) && (a.StopAll? || (a.Fire? && a.generation == w.core.generation)) && i < |w.producers|
    ensures |Apply(w, a).producers| == |w.producers|
    ensures w.core.pending <= 0 && (forall l <- w.links :: l.track !in w.producers[i].p.receivers
                                                           && l.track !in w.producers[i].p.senders)
            ==> IsStopped(w.producers[i].p, Apply(w, a).producers[i].p)
    ensures w.core.pending > 0 ==> Apply(w, a).producers == w.producers && Apply(w, a).links == w.links
  {
    hide StopFrom, IsStopped;
    if w.core.pending <= 0 && (forall l <- w.links :: l.track !in w.producers[i].p.receivers
                                                      && l.track !in w.producers[i].p.senders) {
      UnreadStops(w.producers, w.links, 0, i);
    }
  }

  /**
   * A call that has taken its consumer off the list goes on to the stop loop at once if consumers are left or
   * linger is off; otherwise it leaves one more callback, the only one that will not be stale.
   */
  lemma LastReaderArmsLinger(w: World, t: Thread)
    requires Inv(w) && Enabled(w, Schedule(t))
    ensures var e := Apply(w, Schedule(t));
            && e.producers == w.producers && e.links == w.links
            && e.core.consumers == w.core.consumers && e.core.pending == w.core.pending
            && if w.core.consumers != [] || w.core.linger <= 0 then Enabled(e, StopAll(t)) && e.callbacks == w.callbacks
               else
                 && t !in e.ops && e.core.timer && e.callbacks == w.callbacks + {e.core.generation}
                 && forall g <- w.callbacks :: g < e.core.generation
  {
  }

  /** An attached consumer holds the producer it was matched with, and that producer is in line to be started. */
  lemma AttachedHolds(w: World, t: Thread, i: nat, track: Track)
    requires Enabled(w, AttachReader(t, i, track)) && i < |w.producers| && Apart(w.producers)
    requires track in w.producers[i].p.receivers
    requires forall k: Conn :: track.owner == OfConn(k) ==> !FreshConn(w.producers[i], k)
    ensures var w1, l := Apply(w, AttachReader(t, i, track)), Reader(track, w.ops[t].c);
            && l in w1.links && w1.producers == w.producers && t in w1.ops && w1.ops[t].Adding? && i in w1.ops[t].starts
            && StopFrom(w1.producers, w1.links, 0).0[i] == w.producers[i]
  {
    var w1, l := Apply(w, AttachReader(t, i, track)), Reader(track, w.ops[t].c);
    forall j, k | 0 <= j < |w.producers| && j != i && w.producers[j].p.conn == Some(k)
      ensures !ClosedWith(l, k)
    {
      assert FreshConn(w.producers[i], k) || FreshConn(w.producers[j], k);
    }
    ReadStaysUp(w1.producers, w1.links, 0, i, l);
  }

  /** The start loop starts: the next producer in line that was tracked has a live worker afterwards. */
  lemma StartNextStarts(w: World, t: Thread, spawn: Thread)
    requires Inv(w) && Enabled(w, StartNext(t, spawn))
    ensures var i := w.ops[t].starts[0];
            var e := Apply(w, StartNext(t, spawn));
            && i < |e.producers| == |w.producers| && e.ops == w.ops[t := AddStart(w.ops[t].c, w.ops[t].starts[1..])]
            && (P.Tracking(w.producers[i].p)
                && !w.producers[i].p.state.StateExternal? && !w.producers[i].p.state.StateInternal?
                ==> e.producers[i].p.state.StateStart? && P.OneLiveChain(e.producers[i]))
  {
    var i := w.ops[t].starts[0];
    if P.Tracking(w.producers[i].p) {
      P.TrackingStarts(w.producers[i], [], spawn);
    }
    hide P.Apply, P.OneLiveChain, TimerInv, OpsInv;
  }

  // ---------------------------------------------------------------- no orphan producer

  predicate HoldsLinks(op: Op) {
    (op.Adding? || op.AddStop? || op.AddAppend?) && op.starts != []
  }

  predicate PastStop(op: Op) {
    op.RemList? || op.RemSchedule? || op.RemStopAll?
  }

  /** Consumer `c` is on its way in, or listed and not yet stopped. */
  ghost predicate Present(w: World, c: Consumer) {
    || (exists t :: t in w.ops && HoldsLinks(w.ops[t]) && w.ops[t].c == c)
    || (c in w.core.consumers && forall t <- w.ops :: PastStop(w.ops[t]) ==> w.ops[t].c != c)
  }

  ghost predicate LinksInv(w: World) {
    forall l <- w.links :: Present(w, l.consumer)
  }

  predicate Idle(p: Snapshot) {
    p.state.StateNone? || p.state.StateExternal? || p.state.StateInternal?
  }

  ghost predicate AllIdle(ps: seq<System>) {
    forall i :: 0 <= i < |ps| ==> Idle(ps[i].p)
  }

  /** No call in progress and nobody reading. */
  ghost predicate Quiet(w: World) {
    w.ops == map[] && w.core.consumers == []
  }

  ghost predicate CoverInv(w: World) {
    Quiet(w) && !w.core.timer ==> AllIdle(w.producers)
  }

  /** `p.senders`, which keeps the tracks of consumers that left, lists no consumer that is gone. */
  ghost predicate SendersPresent(w: World, p: Snapshot) {
    forall t <- p.senders :: t.owner.OfConsumer? ==> Present(w, t.owner.consumer)
  }

  /**
   * The two things that must hold before a step: a live chain redials only while no consumer of
   * `p.senders` is gone, and the linger is not switched off while a callback is armed.
   */
  ghost predicate Clean(w: World, a: Action) {
    && (a.ChainStep? && a.i < |w.producers| && a.step.AReconnect? && Live(w.producers[a.i], a.step.thread) ==>
          SendersPresent(w, w.producers[a.i].p))
    && (a.ChangeLinger? && a.duration <= 0 ==> !w.core.timer)
  }

  /** That is the exact condition for a redial, however it matches, to leave links of present consumers only. */
  lemma RelinksStayPresentIff(w: World, i: nat, thread: Thread, redial: Redial)
    requires LinksInv(w) && i < |w.producers| && Live(w.producers[i], thread)
    ensures (forall links: set<Link>, l: Link :: Relinks(w, i, AReconnect(thread, Some(redial)), links) && l in links ==>
               Present(w, l.consumer))
            <==> SendersPresent(w, w.producers[i].p)
  {
    hide Present;
    var p, step := w.producers[i].p, AReconnect(thread, Some(redial));
    if !SendersPresent(w, p) {
      var t :| t in p.senders && t.owner.OfConsumer? && !Present(w, t.owner.consumer);
      var l := Back(t, t.owner.consumer, redial.conn);
      assert Relinks(w, i, step, w.links + {l}) && l in w.links + {l};
    }
  }

  lemma {:induction false} StopFromIdles(ps: seq<System>, links: set<Link>, i: nat)
    requires i <= |ps| && links == {} && forall j :: 0 <= j < i ==> Idle(ps[j].p)
    ensures AllIdle(StopFrom(ps, links, i).0)
    decreases |ps| - i
  {
    if i < |ps| {
      assert !HasReaders(ps[i].p, links);
      StopFromIdles(ps[i := P.Apply(ps[i], AStop)], Detach(links, Stopped(ps[i].p)), i + 1);
    }
  }

  /** Presence survives a step that sets one op, when the links' consumer keeps its own standing. */
  lemma PresentAfterSet(w: World, w': World, t: Thread, c: Consumer)
    requires Present(w, c) && t in w'.ops && w'.ops == w.ops[t := w'.ops[t]]
    requires c in w.core.consumers ==> c in w'.core.consumers
    requires t in w.ops && HoldsLinks(w.ops[t]) && w.ops[t].c == c ==> Present(w', c)
    requires PastStop(w'.ops[t]) && w'.ops[t].c == c ==> t in w.ops && PastStop(w.ops[t]) && w.ops[t].c == c
    ensures Present(w', c)
  {
    if u :| u in w.ops && HoldsLinks(w.ops[u]) && w.ops[u].c == c {
      if u != t {
        assert u in w'.ops && HoldsLinks(w'.ops[u]) && w'.ops[u].c == c;
      }
    }
  }

  lemma PresentAfterEnd(w: World, w': World, t: Thread, c: Consumer)
    requires Present(w, c) && t in w.ops && w'.ops == w.ops - {t} && w'.core.consumers == w.core.consumers
    requires !HoldsLinks(w.ops[t])
    ensures Present(w', c)
  {
    if u :| u in w.ops && HoldsLinks(w.ops[u]) && w.ops[u].c == c {
      assert u in w'.ops && HoldsLinks(w'.ops[u]) && w'.ops[u].c == c;
    }
  }

  /** How a call's step moves its own op and the consumer list, as far as presence is concerned. */
  lemma CallEffect(w: World, a: Action)
    requires Enabled(w, a) && !LeavesOps(a)
    ensures var w', t := Apply(w, a), a.t;
            && (t in w'.ops ==>
                  && w'.ops == w.ops[t := w'.ops[t]]
                  && (t in w.ops ==> w'.ops[t].c == w.ops[t].c)
                  && (PastStop(w'.ops[t]) ==> a.StopConsumer? || a.RemoveFromList? || a.Schedule?)
                  && (t in w.ops && HoldsLinks(w.ops[t]) && !a.Append? ==> HoldsLinks(w'.ops[t])))
            && (t !in w'.ops ==> t in w.ops && w'.ops == w.ops - {t} && !HoldsLinks(w.ops[t]))
            && (a.RemoveFromList? ==> t in w.ops && w'.core.consumers == Without(w.core.consumers, w.ops[t].c))
            && (a.Append? ==> t in w.ops && w'.core.consumers == w.core.consumers + [w.ops[t].c])
            && (!a.RemoveFromList? && !a.Append? ==> w'.core.consumers == w.core.consumers)
            && (a.Schedule? && t in w'.ops && PastStop(w'.ops[t]) ==> t in w.ops && PastStop(w.ops[t]))
  {
    hide StopLocked, P.Apply, P.Enabled, NewConn;
  }

  lemma LeavesPresent(w: World, a: Action)
    requires Enabled(w, a) && LeavesOps(a)
    ensures Apply(w, a).ops == w.ops && Apply(w, a).core.consumers == w.core.consumers
  {
    hide StopLocked, P.Apply, P.Enabled, NewConn;
  }

  lemma AppendingIsPresent(w: World, a: Action)
    requires OpsInv(w.core, w.ops) && Enabled(w, a) && a.Append?
    ensures a.t in w.ops && Present(Apply(w, a), w.ops[a.t].c)
  {
    hide StopLocked, P.Apply, P.Enabled, NewConn;
  }

  lemma StepKeepsPresent(w: World, a: Action, c: Consumer)
    requires Inv(w) && Enabled(w, a) && Present(w, c)
    requires !((a.StopConsumer? || a.RemoveFromList?) && w.ops[a.t].c == c)
    ensures Present(Apply(w, a), c)
  {
    if LeavesOps(a) {
      LeavesPresent(w, a);
    } else {
      CallEffect(w, a);
      if a.Append? {
        AppendingIsPresent(w, a);
      }
      hide Apply, Enabled, OpsInv, TimerInv, ProducersInv, HoldsLinks, PastStop;
      var w' := Apply(w, a);
      if a.RemoveFromList? {
        WithoutKeepsOthers(w.core.consumers, w.ops[a.t].c, c);
      }
      if a.t in w'.ops {
        PresentAfterSet(w, w', a.t, c);
      } else {
        PresentAfterEnd(w, w', a.t, c);
      }
    }
  }

  lemma CleanRelinks(w: World, a: Action)
    requires LinksInv(w) && Enabled(w, a) && Clean(w, a) && a.ChainStep?
    ensures forall l <- a.links :: Present(w, l.consumer)
  {
    hide Present, P.Enabled, NewConn;
  }

  lemma StepKeepsLinks(w: World, a: Action)
    requires Inv(w) && LinksInv(w) && Enabled(w, a) && Clean(w, a)
    ensures LinksInv(Apply(w, a))
  {
    var w' := Apply(w, a);
    if a.StopAll? || a.Fire? {
      StopFromKeeps(w.producers, w.links, 0);
    }
    if a.ChainStep? {
      CleanRelinks(w, a);
    }
    forall l | l in w'.links ensures Present(w', l.consumer) {
      if a.AttachReader? || a.AttachBack? {
        assert HoldsLinks(w'.ops[a.t]);
      }
      if !(a.AttachReader? || a.AttachBack?) || l in w.links {
        if a.RemoveFromList? {
          assert PastStop(w.ops[a.t]);
        }
        StepKeepsPresent(w, a, l.consumer);
      }
    }
  }

  lemma QuietMeansNoLinks(w: World)
    requires LinksInv(w) && w.core.consumers == []
    requires forall t <- w.ops :: !HoldsLinks(w.ops[t])
    ensures w.links == {}
  {
    assert forall c :: !Present(w, c);
  }

  /** A call that does not end in the stop loop leaves an op, a listed consumer or an armed callback. */
  lemma OtherCallsStayCovered(w: World, a: Action)
    requires Inv(w) && Enabled(w, a) && !LeavesOps(a) && !a.StopAll?
    ensures !Quiet(Apply(w, a)) || Apply(w, a).core.timer
  {
    var w' := Apply(w, a);
    StepKeepsOps(w, a);
    if a.t !in w'.ops {
      if a.EndMatching? {
        assert w'.core.pending == |AddingThreads(w'.ops)| != 0;
      } else if a.Finish? {
        assert OpFits(w.core, w.ops[a.t]);
      }
    }
  }

  lemma StopLoopIdles(w: World, a: Action)
    requires Inv(w) && LinksInv(w) && Enabled(w, a)
    requires a.StopAll? || (a.Fire? && a.generation == w.core.generation)
    requires Quiet(Apply(w, a))
    ensures AllIdle(Apply(w, a).producers)
  {
    var w' := Apply(w, a);
    StepKeepsOps(w, a);
    assert AddingThreads(w'.ops) == {};
    assert forall t <- w.ops :: t !in w'.ops ==> !HoldsLinks(w.ops[t]);
    QuietMeansNoLinks(w);
    StopFromIdles(w.producers, w.links, 0);
  }

  lemma StepKeepsCover(w: World, a: Action)
    requires Inv(w) && LinksInv(w) && CoverInv(w) && Enabled(w, a) && Clean(w, a)
    ensures CoverInv(Apply(w, a))
  {
    var w' := Apply(w, a);
    if Quiet(w') && !w'.core.timer {
      if a.StopAll? || (a.Fire? && a.generation == w.core.generation) {
        StopLoopIdles(w, a);
      } else if !LeavesOps(a) {
        OtherCallsStayCovered(w, a);
      } else if a.ChainStep? {
        StaleChainKeepsIdle(w, a);
      } else {
        assert w.core.timer == w'.core.timer && w'.producers == w.producers;
      }
    }
  }

  /** With every producer idle all chains are fenced off. */
  lemma StaleChainKeepsIdle(w: World, a: Action)
    requires Inv(w) && AllIdle(w.producers) && Enabled(w, a) && a.ChainStep?
    ensures AllIdle(Apply(w, a).producers)
  {
    var s := w.producers[a.i];
    assert P.Inv(s) && Idle(s.p) && !Live(s, a.step.thread);
    P.StaleChainTouchesNothing(s, a.step);
  }

  ghost predicate CleanRun(w: World, run: seq<Action>)
    requires ValidRun(w, run)
    decreases |run|
  {
    run == [] || (Clean(w, run[0]) && CleanRun(Apply(w, run[0]), run[1..]))
  }

  lemma {:induction false} CleanRunKeepsCover(w: World, run: seq<Action>)
    requires Inv(w) && LinksInv(w) && CoverInv(w) && ValidRun(w, run) && CleanRun(w, run)
    ensures Inv(Final(w, run)) && LinksInv(Final(w, run)) && CoverInv(Final(w, run))
    decreases |run|
  {
    if run != [] {
      StepKeepsInv(w, run[0]);
      StepKeepsLinks(w, run[0]);
      StepKeepsCover(w, run[0]);
      CleanRunKeepsCover(Apply(w, run[0]), run[1..]);
    }
  }

  /**
   * No orphan producer. After any clean run, when no add or remove is in progress and nobody is
   * listed, either every producer that is neither external nor internal is back in stateNone, or exactly one outstanding
   * callback carries the current generation.
   */
  lemma NoOrphanProducer(w: World, run: seq<Action>)
    requires Init(w) && ValidRun(w, run) && CleanRun(w, run)
    requires Quiet(Final(w, run))
    ensures var e := Final(w, run);
            || (forall i :: 0 <= i < |e.producers|
                            && !e.producers[i].p.state.StateExternal? && !e.producers[i].p.state.StateInternal?
                            ==> e.producers[i].p.state.StateNone?)
            || (e.core.timer && e.core.generation in e.callbacks
                && forall g <- e.callbacks :: g != e.core.generation ==> g < e.core.generation)
  {
    InitInv(w);
    CleanRunKeepsCover(w, run);
  }

  // ---------------------------------------------------------------- why runs must be clean

  lemma {:induction false} PinnedSurvivesStop(ps: seq<System>, links: set<Link>, i: nat, m: nat, l: Link)
    requires m <= |ps| && i < |ps| && l in links && l.Back? && l.track in ps[i].p.senders
    requires forall j :: 0 <= j < |ps| && j != i ==> ps[j].p.conn != Some(l.conn)
    ensures StopFrom(ps, links, m).0[i] == ps[i]
    decreases |ps| - m
  {
    if m < |ps| {
      if HasReaders(ps[m].p, links) {
        PinnedSurvivesStop(ps, links, i, m + 1, l);
      } else {
        assert HasChild(links, l.track) && m != i;
        PinnedSurvivesStop(
          ps[m := P.Apply(ps[m], AStop)], Detach(links, Stopped(ps[m].p)), i, m + 1, l);
      }
    }
  }

  /** The producer's live chain is about to redial while only the linger callback keeps the stream warm. */
  ghost predicate WarmRedial(w: World, i: nat, thread: Thread, redial: Redial, links: set<Link>) {
    && Inv(w) && Quiet(w) && w.core.timer && w.links == {} && i < |w.producers|
    && Live(w.producers[i], thread)
    && Enabled(w, ChainStep(i, AReconnect(thread, Some(redial)), links))
  }

  ghost function Redialled(w: World, i: nat, thread: Thread, redial: Redial, links: set<Link>): World
    requires WarmRedial(w, i, thread, redial, links)
  {
    Apply(w, ChainStep(i, AReconnect(thread, Some(redial)), links))
  }

  lemma AfterRedial(w: World, i: nat, thread: Thread, redial: Redial, links: set<Link>)
    requires WarmRedial(w, i, thread, redial, links)
    ensures var w1 := Redialled(w, i, thread, redial, links);
            && w1.core == w.core && w1.core.pending == 0 && w1.ops == w.ops && w1.callbacks == w.callbacks
            && w1.links == links && |w1.producers| == |w.producers|
            && w1.producers[i].p.state.StateStart? && w1.producers[i].p.conn == Some(redial.conn)
            && w1.producers[i].p.senders == w.producers[i].p.senders
            && (forall j :: 0 <= j < |w1.producers| && j != i ==> w1.producers[j].p.conn != Some(redial.conn))
            && (forall l <- links :: l.Back? && l.track in w1.producers[i].p.senders && l.conn == redial.conn)
  {
    assert AddingThreads(w.ops) == {};
    assert P.Inv(w.producers[i]);
    forall j | 0 <= j < |w.producers| ensures w.producers[j].p.conn != Some(redial.conn) {
      assert FreshConn(w.producers[j], redial.conn);
    }
  }

  /**
   * The exact condition. With every consumer gone and the linger running, a reconnect followed by the
   * expiry stops the producer if and only if the reconnect put no sender under a departed consumer's track.
   */
  lemma ExpiryStopsIffNothingReattached(w: World, i: nat, thread: Thread, redial: Redial, links: set<Link>)
    requires WarmRedial(w, i, thread, redial, links)
    ensures var w1 := Redialled(w, i, thread, redial, links);
            var e := Expired(w1);
            && Enabled(w1, Fire(w.core.generation)) && e == Apply(w1, Fire(w.core.generation))
            && |e.producers| == |w.producers|
            && (e.producers[i].p.state.StateNone? <==> links == {})
            && (links != {} ==> e.producers[i].p == w1.producers[i].p)
  {
    var w1 := Redialled(w, i, thread, redial, links);
    AfterRedial(w, i, thread, redial, links);
    assert w.core.generation in w.callbacks;
    StopFromStates(w1.producers, links, 0, i);
    if links == {} {
      StopFromIdles(w1.producers, links, 0);
    } else {
      var l :| l in links;
      PinnedSurvivesStop(w1.producers, links, i, 0, l);
    }
  }

  /** What the current callback does when no add is in progress. */
  ghost function Expired(w: World): World {
    StopLocked(w.(callbacks := w.callbacks - {w.core.generation}, core := w.core.(timer := false)))
  }

  /** The loop either leaves a producer alone or stops it. */
  lemma {:induction false} StopFromStates(ps: seq<System>, links: set<Link>, m: nat, i: nat)
    requires m <= |ps| && i < |ps|
    ensures StopFrom(ps, links, m).0[i].p in {ps[i].p, P.Stop(ps[i].p)}
    decreases |ps| - m
  {
    if m < |ps| {
      if HasReaders(ps[m].p, links) {
        StopFromStates(ps, links, m + 1, i);
      } else {
        StopFromStates(ps[m := P.Apply(ps[m], AStop)], Detach(links, Stopped(ps[m].p)), m + 1, i);
      }
    }
  }

  /** A track of `p.senders` that a consumer handed in. */
  predicate FromConsumer(t: Track) {
    t.owner.OfConsumer?
  }

  /**
   * The condition before the redial. With every consumer gone and the linger running, the expiry stops the
   * producer however its redial matches, if and only if `p.senders` lists no consumer's track.
   */
  lemma ExpiryStopsIffNoConsumerTrack(w: World, i: nat, thread: Thread, redial: Redial)
    requires WarmRedial(w, i, thread, redial, {})
    ensures (forall links :: WarmRedial(w, i, thread, redial, links) ==>
               Expired(Redialled(w, i, thread, redial, links)).producers[i].p.state.StateNone?)
            <==> (forall t <- w.producers[i].p.senders :: !FromConsumer(t))
  {
    var senders := w.producers[i].p.senders;
    if t :| t in senders && FromConsumer(t) {
      var links := {Back(t, t.owner.consumer, redial.conn)};
      PinningRedial(w, i, thread, redial, t);
      ExpiryStopsIffNothingReattached(w, i, thread, redial, links);
      hide WarmRedial, Redialled, Expired;
    } else {
      forall links | WarmRedial(w, i, thread, redial, links)
        ensures Expired(Redialled(w, i, thread, redial, links)).producers[i].p.state.StateNone?
      {
        NothingToPin(w, i, thread, redial, links);
        ExpiryStopsIffNothingReattached(w, i, thread, redial, links);
        hide WarmRedial, Redialled, Expired;
      }
    }
  }

  lemma PinningRedial(w: World, i: nat, thread: Thread, redial: Redial, t: Track)
    requires WarmRedial(w, i, thread, redial, {}) && t in w.producers[i].p.senders && FromConsumer(t)
    ensures WarmRedial(w, i, thread, redial, {Back(t, t.owner.consumer, redial.conn)})
  {
    hide P.Enabled, NewConn, Inv;
  }

  lemma NothingToPin(w: World, i: nat, thread: Thread, redial: Redial, links: set<Link>)
    requires WarmRedial(w, i, thread, redial, links) && forall t <- w.producers[i].p.senders :: !FromConsumer(t)
    ensures links == {}
  {
    hide P.Enabled, NewConn, Inv;
  }

  // ---------------------------------------------------------------- from a pinned producer to an orphan

  lemma {:induction false} StopFromKeepsNew(ps: seq<System>, links: set<Link>, m: nat, k: Conn)
    requires m <= |ps| && forall j :: 0 <= j < |ps| ==> FreshConn(ps[j], k)
    ensures forall j :: 0 <= j < |ps| ==> FreshConn(StopFrom(ps, links, m).0[j], k)
    decreases |ps| - m
  {
    if m < |ps| {
      if HasReaders(ps[m].p, links) {
        StopFromKeepsNew(ps, links, m + 1, k);
      } else {
        var stopped := P.Apply(ps[m], AStop);
        assert FreshConn(stopped, k);
        StopFromKeepsNew(ps[m := stopped], Detach(links, Stopped(ps[m].p)), m + 1, k);
      }
    }
  }

  lemma {:induction false} StopFromDetaches(ps: seq<System>, links: set<Link>, m: nat)
    requires m <= |ps|
    ensures StopFrom(ps, links, m).1 <= links
    decreases |ps| - m
  {
    if m < |ps| {
      if HasReaders(ps[m].p, links) {
        StopFromDetaches(ps, links, m + 1);
      } else {
        StopFromDetaches(ps[m := P.Apply(ps[m], AStop)], Detach(links, Stopped(ps[m].p)), m + 1);
      }
    }
  }

  /** The world after the redial pinned the producer and the linger expired: the chain runs on. */
  ghost predicate Pinned(w: World, i: nat, thread: Thread, k: Conn) {
    && Quiet(w) && !w.core.timer && i < |w.producers| && NewConn(w, k)
    && Live(w.producers[i], thread) && w.producers[i].chains[thread].phase.Running?
    && w.producers[i].p.state.StateStart?
    && forall l <- w.links :: l.track in w.producers[i].p.senders
  }

  lemma ExpiryLeavesPinned(w: World, i: nat, thread: Thread, redial: Redial, links: set<Link>, k: Conn)
    requires WarmRedial(w, i, thread, redial, links) && links != {}
    requires NewConn(w, k) && k != redial.conn
    ensures var w1 := Redialled(w, i, thread, redial, links);
            Enabled(w1, Fire(w.core.generation)) && Pinned(Apply(w1, Fire(w.core.generation)), i, thread, k)
    ensures Apply(Redialled(w, i, thread, redial, links), Fire(w.core.generation)).callbacks ==
            w.callbacks - {w.core.generation}
  {
    var w1 := Redialled(w, i, thread, redial, links);
    AfterRedial(w, i, thread, redial, links);
    ExpiryStopsIffNothingReattached(w, i, thread, redial, links);
    RedialKeepsNew(w, i, thread, redial, links, k);
    var l :| l in links;
    hide WarmRedial, P.Enabled, Relinks, Inv, HasReaders;
    PinnedSurvivesStop(w1.producers, links, i, 0, l);
    StopFromKeepsNew(w1.producers, links, 0, k);
    StopFromDetaches(w1.producers, links, 0);
  }

  lemma RedialKeepsNew(w: World, i: nat, thread: Thread, redial: Redial, links: set<Link>, k: Conn)
    requires WarmRedial(w, i, thread, redial, links) && NewConn(w, k) && k != redial.conn
    ensures var w1 := Redialled(w, i, thread, redial, links);
            && NewConn(w1, k) && i < |w1.producers| && Live(w1.producers[i], thread)
            && w1.producers[i].chains[thread].phase.Running?
  {
    hide Inv, Relinks;
  }

  /** The connection drops and the second redial leaves no link. */
  lemma PinnedToOrphan(w: World, i: nat, thread: Thread, again: Redial)
    requires Pinned(w, i, thread, again.conn)
    ensures var drop := ChainStep(i, AReturn(thread, false), w.links);
            && Enabled(w, drop)
            && var w1 := Apply(w, drop);
               var redial := ChainStep(i, AReconnect(thread, Some(again)), {});
               && Enabled(w1, redial) && Orphaned(Apply(w1, redial), i)
               && Apply(w1, redial).callbacks == w.callbacks && |Apply(w1, redial).producers| == |w.producers|
  {
  }

  /** A started producer, nobody reading, and neither call nor callback left to stop it. */
  ghost predicate Orphaned(w: World, i: nat) {
    Quiet(w) && !w.core.timer && w.links == {} && i < |w.producers| && w.producers[i].p.state.StateStart?
  }

  ghost function OrphanRun(w: World, i: nat, thread: Thread, redial: Redial, links: set<Link>, again: Redial): seq<Action>
    requires WarmRedial(w, i, thread, redial, links)
  {
    [ChainStep(i, AReconnect(thread, Some(redial)), links),
     Fire(w.core.generation),
     ChainStep(i, AReturn(thread, false), Expired(Redialled(w, i, thread, redial, links)).links),
     ChainStep(i, AReconnect(thread, Some(again)), {})]
  }

  /** In general: once a redial re-attaches anything, the expiry, a drop and a second redial make an orphan. */
  lemma ReattachedBecomesOrphan(w: World, i: nat, thread: Thread, redial: Redial, links: set<Link>, again: Redial)
    requires WarmRedial(w, i, thread, redial, links) && links != {}
    requires NewConn(w, again.conn) && again.conn != redial.conn
    ensures var run := OrphanRun(w, i, thread, redial, links, again);
            && ValidRun(w, run) && Orphaned(Final(w, run), i)
            && Final(w, run).callbacks == w.callbacks - {w.core.generation}
            && |Final(w, run).producers| == |w.producers|
  {
    var run := OrphanRun(w, i, thread, redial, links, again);
    var w1 := Redialled(w, i, thread, redial, links);
    ExpiryStopsIffNothingReattached(w, i, thread, redial, links);
    ExpiryLeavesPinned(w, i, thread, redial, links, again.conn);
    var w2 := Apply(w1, run[1]);
    PinnedToOrphan(w2, i, thread, again);
    hide Apply, Orphaned, Pinned, Redialled, Expired, StopLocked;
    FourSteps(w, run[0], run[1], run[2], run[3]);
  }

  lemma FourSteps(w: World, a: Action, b: Action, c: Action, d: Action)
    requires Enabled(w, a) && Enabled(Apply(w, a), b) && Enabled(Apply(Apply(w, a), b), c)
    requires Enabled(Apply(Apply(Apply(w, a), b), c), d)
    ensures ValidRun(w, [a, b, c, d])
    ensures Final(w, [a, b, c, d]) == Apply(Apply(Apply(Apply(w, a), b), c), d)
  {
    hide Enabled, Apply, ValidRun, Final;
    var w1, w2, w3 := Apply(w, a), Apply(Apply(w, a), b), Apply(Apply(Apply(w, a), b), c);
    assert [d] + [] == [d] && [c] + [d] == [c, d] && [b] + [c, d] == [b, c, d] && [a] + [b, c, d] == [a, b, c, d];
    NoSteps(Apply(w3, d));
    OneStep(w3, d, []);
    OneStep(w2, c, [d]);
    OneStep(w1, b, [c, d]);
    OneStep(w, a, [b, c, d]);
  }

  lemma OneStep(w: World, a: Action, rest: seq<Action>)
    requires Enabled(w, a) && ValidRun(Apply(w, a), rest)
    ensures ValidRun(w, [a] + rest) && Final(w, [a] + rest) == Final(Apply(w, a), rest)
  {
    hide Enabled, Apply;
    assert ([a] + rest)[1..] == rest;
  }

  lemma NoSteps(w: World)
    ensures ValidRun(w, []) && Final(w, []) == w
  {
  }

  lemma {:induction false} RunConcat(w: World, a: seq<Action>, b: seq<Action>)
    requires ValidRun(w, a) && ValidRun(Final(w, a), b)
    ensures ValidRun(w, a + b) && Final(w, a + b) == Final(Final(w, a), b)
    decreases |a|
  {
    hide Enabled, Apply;
    if a == [] {
      assert a + b == b;
    } else {
      assert (a + b)[1..] == a[1..] + b && (a + b)[0] == a[0];
      RunConcat(Apply(w, a[0]), a[1..], b);
    }
  }

  const BACK_TRACK := Track(OfConsumer(7), 0, 0)

  function OneProducer(core: Core, p: Snapshot, chains: map<Thread, Chain>, acquired: set<Conn>,
                       stops: multiset<Conn>, links: set<Link>, callbacks: set<nat>, ops: map<Thread, Op>): World
  {
    World(core, [System(p, chains, acquired, stops)], links, callbacks, ops)
  }

  /**
   * The counterexample, step by step: a two-way consumer comes and goes, its producer keeps running for
   * the linger, its connection drops, and the redial re-attaches the departed consumer's track.
   */
  function Script(k: nat): Action {
    match k
    case 0 => BeginAdd(0, 7)
    case 1 => DialProducer(0, 0, Some(1))
    case 2 => AttachBack(0, 0, BACK_TRACK)
    case 3 => EndMatching(0)
    case 4 => StopAll(0)
    case 5 => Append(0)
    case 6 => StartNext(0, 0)
    case 7 => Finish(0)
    case 8 => BeginRemove(0, 7)
    case 9 => StopConsumer(0)
    case 10 => RemoveFromList(0)
    case 11 => Schedule(0)
    case _ => ChainStep(0, AReturn(0, false), {})
  }

  function At(k: nat): World {
    var idle := Core([], 0, 1, false, 0);
    var busy := Core([7], 0, 1, false, 0);
    var tracks := Snapshot(StateTracks, Some(1), [], [BACK_TRACK], 0);
    var started := Snapshot(StateStart, Some(1), [], [BACK_TRACK], 1);
    var running := map[0 := Chain(1, Running(1))];
    var link := {Back(BACK_TRACK, 7, 1)};
    match k
    case 0 => OneProducer(idle, NEW, map[], {}, multiset{}, {}, {}, map[])
    case 1 => OneProducer(idle.(pending := 1), NEW, map[], {}, multiset{}, {}, {}, map[0 := Adding(7, [])])
    case 2 => OneProducer(idle.(pending := 1), Snapshot(StateMedias, Some(1), [], [], 0), map[], {1}, multiset{}, {}, {},
                          map[0 := Adding(7, [])])
    case 3 => OneProducer(idle.(pending := 1), tracks, map[], {1}, multiset{}, link, {}, map[0 := Adding(7, [0])])
    case 4 => OneProducer(idle, tracks, map[], {1}, multiset{}, link, {}, map[0 := AddStop(7, [0])])
    case 5 => OneProducer(idle, tracks, map[], {1}, multiset{}, link, {}, map[0 := AddAppend(7, [0])])
    case 6 => OneProducer(busy, tracks, map[], {1}, multiset{}, link, {}, map[0 := AddStart(7, [0])])
    case 7 => OneProducer(busy, started, running, {1}, multiset{}, link, {}, map[0 := AddStart(7, [])])
    case 8 => OneProducer(busy, started, running, {1}, multiset{}, link, {}, map[])
    case 9 => OneProducer(busy, started, running, {1}, multiset{}, link, {}, map[0 := RemStop(7)])
    case 10 => OneProducer(busy, started, running, {1}, multiset{}, {}, {}, map[0 := RemList(7)])
    case 11 => OneProducer(idle, started, running, {1}, multiset{}, {}, {}, map[0 := RemSchedule(7)])
    case 12 => OneProducer(Core([], 0, 1, true, 1), started, running, {1}, multiset{}, {}, {1}, map[])
    case _ => OneProducer(Core([], 0, 1, true, 1), started, map[0 := Chain(1, Reconnecting(0))],
                          {1}, multiset{}, {}, {1}, map[])
  }

  ghost predicate StepOk(k: nat) {
    Enabled(At(k), Script(k)) && Same(Apply(At(k), Script(k)), At(k + 1))
  }

  lemma ScriptAdmits()
    ensures StepOk(0)
  {
    hide StopLocked, StopFrom;
  }

  lemma ScriptDials()
    ensures StepOk(1)
  {
    hide StopLocked, StopFrom;
  }

  lemma ScriptAttaches()
    ensures StepOk(2)
  {
    hide StopLocked, StopFrom;
    assert At(2).ops[0].starts + [0] == [0];
  }

  lemma ScriptEndsMatching()
    ensures StepOk(3)
  {
    hide StopLocked, StopFrom;
  }

  lemma ScriptStopsNothing()
    ensures StepOk(4)
  {
    BusyProducerSkipped(At(4), Back(BACK_TRACK, 7, 1));
  }

  lemma ScriptAppends()
    ensures StepOk(5)
  {
    hide StopLocked, StopFrom;
  }

  lemma ScriptStarts()
    ensures StepOk(6)
  {
    hide StopLocked, StopFrom;
    assert At(6).ops[0].starts[1..] == [];
  }

  lemma ScriptFinishes()
    ensures StepOk(7)
  {
    hide StopLocked, StopFrom;
  }

  lemma ScriptBeginsRemoving()
    ensures StepOk(8)
  {
    hide StopLocked, StopFrom;
  }

  lemma ScriptStopsConsumer()
    ensures StepOk(9)
  {
    hide StopLocked, StopFrom;
  }

  lemma ScriptDelists()
    ensures StepOk(10)
  {
    hide StopLocked, StopFrom;
  }

  lemma ScriptLingers()
    ensures StepOk(11)
  {
    hide StopLocked, StopFrom;
  }

  lemma ScriptLosesConnection()
    ensures StepOk(12)
  {
    hide StopLocked, StopFrom;
  }

  lemma ScriptSteps(k: nat)
    requires k <= 12
    ensures StepOk(k)
  {
    hide StepOk;
    match k {
      case 0 => ScriptAdmits();
      case 1 => ScriptDials();
      case 2 => ScriptAttaches();
      case 3 => ScriptEndsMatching();
      case 4 => ScriptStopsNothing();
      case 5 => ScriptAppends();
      case 6 => ScriptStarts();
      case 7 => ScriptFinishes();
      case 8 => ScriptBeginsRemoving();
      case 9 => ScriptStopsConsumer();
      case 10 => ScriptDelists();
      case 11 => ScriptLingers();
      case _ => ScriptLosesConnection();
    }
  }

  lemma BusyProducerSkipped(w: World, l: Link)
    requires |w.producers| == 1 && l in w.links && l.track in w.producers[0].p.senders
    ensures StopFrom(w.producers, w.links, 0) == (w.producers, w.links)
  {
    assert HasChild(w.links, l.track);
    assert StopFrom(w.producers, w.links, 0) == StopFrom(w.producers, w.links, 1);
  }

  ghost predicate Same(w: World, v: World) {
    && w.core == v.core && w.links == v.links && w.callbacks == v.callbacks && w.ops == v.ops
    && |w.producers| == |v.producers| == 1
    && w.producers[0].p == v.producers[0].p && w.producers[0].chains == v.producers[0].chains
    && w.producers[0].acquired == v.producers[0].acquired && w.producers[0].stops == v.producers[0].stops
  }

  ghost function ScriptFrom(k: nat): seq<Action>
    requires k <= 13
    decreases 13 - k
  {
    if k == 13 then [] else [Script(k)] + ScriptFrom(k + 1)
  }

  lemma SameIsEqual(w: World, v: World)
    requires Same(w, v)
    ensures w == v
  {
    assert w.producers == v.producers;
  }

  lemma {:induction false} ScriptRuns(k: nat, w: World)
    requires k <= 13 && Same(w, At(k))
    ensures ValidRun(w, ScriptFrom(k)) && Same(Final(w, ScriptFrom(k)), At(13))
    decreases 13 - k
  {
    hide Apply, Enabled, Script, Same, At;
    if k < 13 {
      SameIsEqual(w, At(k));
      ScriptSteps(k);
      ScriptRuns(k + 1, Apply(w, Script(k)));
      assert ScriptFrom(k)[1..] == ScriptFrom(k + 1);
    }
  }

  lemma ScriptBegins()
    ensures Init(At(0)) && Same(At(0), At(0))
  {
  }

  const PINNING := {Back(BACK_TRACK, 7, 2)}

  lemma ScriptWarms(w: World)
    requires Same(w, At(13)) && Inv(w)
    ensures WarmRedial(w, 0, 0, Redial(2, []), PINNING) && NewConn(w, 3) && w.core.generation == 1 && w.callbacks == {1}
  {
    hide Inv;
    SameIsEqual(w, At(13));
  }

  /** The run of 17 steps: the script, then the general way from a re-attached track to an orphan. */
  ghost function OrphanScript(): seq<Action>
    requires ValidRun(At(0), ScriptFrom(0))
    requires WarmRedial(Final(At(0), ScriptFrom(0)), 0, 0, Redial(2, []), PINNING)
  {
    ScriptFrom(0) + OrphanRun(Final(At(0), ScriptFrom(0)), 0, 0, Redial(2, []), PINNING, Redial(3, []))
  }

  /**
   * Without the condition the property fails: the first redial re-attaches the departed consumer's
   * track, the expiry therefore skips the producer, the next redial drops the track, and a producer
   * nobody reads keeps its worker with no call and no callback left to stop it.
   */
  lemma OrphanWithoutCleanReconnect()
    ensures Init(At(0)) && ValidRun(At(0), ScriptFrom(0))
    ensures WarmRedial(Final(At(0), ScriptFrom(0)), 0, 0, Redial(2, []), PINNING)
    ensures ValidRun(At(0), OrphanScript())
    ensures var e := Final(At(0), OrphanScript());
            Orphaned(e, 0) && e.callbacks == {} && |e.producers| == 1
  {
    hide Init, At, Same, Orphaned, OrphanRun, WarmRedial, ScriptFrom, ValidRun, Final, Inv, NewConn;
    ScriptBegins();
    ScriptRuns(0, At(0));
    InitInv(At(0));
    RunKeepsInv(At(0), ScriptFrom(0));
    var warm := Final(At(0), ScriptFrom(0));
    ScriptWarms(warm);
    SameSize1(warm);
    ReattachedBecomesOrphan(warm, 0, 0, Redial(2, []), PINNING, Redial(3, []));
    RunConcat(At(0), ScriptFrom(0), OrphanRun(warm, 0, 0, Redial(2, []), PINNING, Redial(3, [])));
  }

  lemma SameSize1(w: World)
    requires Same(w, At(13))
    ensures |w.producers| == 1
  {
  }
}
