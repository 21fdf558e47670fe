/**
 * The steps of migrate_legacy_bind_state and _secure_write (deploy/linux/config_tool.py) as they are taken
 * on the volume, one file operation at a time, each of which may be the last.
 */
module MigrationRun {
  import opened Wrappers
  import opened Identity
  import opened Migration

  predicate CutAt(fault: Fault, n: nat) {
    !fault.NoFault? && fault.k == n
  }

  class Volume {
    var disk: Disk
    /** File operations of the current run. */
    var done: nat

    constructor (disk: Disk)
      ensures this.disk == disk
    {
      this.disk := disk;
      done := 0;
    }

    /** So far the run has performed the first `done` of `ops`, and was not to be cut earlier. */
    ghost predicate At(start: Disk, ops: seq<Op>, fault: Fault)
      reads this
    {
      && done <= |ops| && disk == PerformAll(start, ops[..done])
      && (fault.NoFault? || done <= fault.k)
    }

    /** One file operation, unless the run ends before it. */
    method Do(op: Op, fault: Fault, ghost start: Disk, ghost ops: seq<Op>) returns (alive: bool)
      requires At(start, ops, fault) && done < |ops| && ops[done] == op
      modifies this
      ensures At(start, ops, fault)
      ensures alive ==> done == old(done) + 1
      ensures !alive ==> done == old(done) && CutAt(fault, done)
    {
      hide Perform;
      alive := !CutAt(fault, done);
      if alive {
        disk := Perform(disk, op);
        assert ops[..done + 1] == ops[..done] + [op];
        PerformAppend(start, ops[..done], [op]);
        One(PerformAll(start, ops[..done]), op, Snapshot("", None), false);
        done := done + 1;
      }
    }

    /** Write a temporary, then replace the file with it. */
    method SecureWrite(file: File, put: Op, fault: Fault, ghost start: Disk, ghost ops: seq<Op>)
      returns (alive: bool)
      requires At(start, ops, fault) && done + 2 <= |ops| && ops[done] == Open(file) && ops[done + 1] == put
      modifies this
      ensures At(start, ops, fault)
      ensures alive ==> done == old(done) + 2
      ensures !alive ==> old(done) <= done < old(done) + 2 && CutAt(fault, done)
    {
      hide At;
      alive := Do(Open(file), fault, start, ops);
      if !alive {
        return;
      }
      alive := Do(put, fault, start, ops);
    }

    method DropTemps(fault: Fault, ghost start: Disk, ghost ops: seq<Op>) returns (alive: bool)
      requires At(start, ops, fault) && done == 0 && SWEEP <= ops
      modifies this
      ensures At(start, ops, fault)
      ensures alive ==> done == |SWEEP|
      ensures !alive ==> done < |SWEEP| && CutAt(fault, done)
    {
      hide At;
      assert forall i: nat :: i < |SWEEP| ==> ops[i] == SWEEP[i];
      alive := Do(DropTemp(MarkerName), fault, start, ops);
      if alive {
        alive := Do(DropTemp(ConfigName), fault, start, ops);
      }
      if alive {
        alive := Do(DropTemp(TokenName), fault, start, ops);
      }
      if alive {
        alive := Do(DropTemp(AuthName), fault, start, ops);
      }
    }

    /** Sweep, and make the marker name this run's source. */
    method MarkVolume(m: Marker, fault: Fault, ghost start: Disk, ghost ops: seq<Op>) returns (alive: bool)
      requires At(start, ops, fault) && done == 0 && disk == start && Prelude(start, m) <= ops
      modifies this
      ensures At(start, ops, fault)
      ensures alive ==> done == |Prelude(start, m)|
      ensures !alive ==> done < |Prelude(start, m)| && CutAt(fault, done)
    {
      hide At, Perform;
      var marker := disk.marker;
      ghost var prelude := Prelude(start, m);
      assert forall i: nat :: i < |prelude| ==> ops[i] == prelude[i];
      alive := DropTemps(fault, start, ops);
      if !alive {
        return;
      }
      if marker.Some? {
        if marker.value != m {
          alive := Do(Unlink(TokenName), fault, start, ops);
          if alive {
            alive := Do(Unlink(AuthName), fault, start, ops);
          }
          if alive {
            alive := SecureWrite(MarkerName, PutMarker(m), fault, start, ops);
          }
        }
      } else {
        alive := SecureWrite(MarkerName, PutMarker(m), fault, start, ops);
      }
    }

    /** The try block: credentials, then the config, then the marker goes. */
    method CopySnapshot(s: Snapshot, fault: Fault, ghost start: Disk, ghost ops: seq<Op>, ghost before: nat)
      returns (alive: bool)
      requires At(start, ops, fault) && done == before && before <= |ops| && ops[before..] == Guarded(s)
      modifies this
      ensures At(start, ops, fault)
      ensures alive ==> done == |ops|
      ensures !alive ==> before <= done < |ops| && CutAt(fault, done)
    {
      hide At, Perform;
      ghost var guarded := Guarded(s);
      assert forall i: nat :: i < |guarded| ==> ops[before + i] == guarded[i];
      alive := true;
      if s.credentials.Some? {
        alive := SecureWrite(TokenName, PutToken(s.credentials.value.token), fault, start, ops);
        if alive {
          alive := SecureWrite(AuthName, PutAuth(s.credentials.value.binding), fault, start, ops);
        }
      }
      if alive {
        alive := SecureWrite(ConfigName, PutConfig(s.config), fault, start, ops);
      }
      if alive {
        alive := Do(Unlink(MarkerName), fault, start, ops);
      }
    }

    /** What an exception sets off, itself cut after `limit` operations. */
    method CleanUp(ops: seq<Op>, limit: nat)
      modifies this
      ensures disk == PerformAll(old(disk), Upto(ops, limit))
    {
      hide Perform, PerformAll;
      var i := 0;
      ghost var start := disk;
      assert disk == PerformAll(start, ops[..0]) by {
        NoneDone(start, ops);
      }
      while i < |ops| && i < limit
        invariant 0 <= i <= |ops| && i <= limit
        invariant disk == PerformAll(start, ops[..i])
      {
        assert ops[..i + 1] == ops[..i] + [ops[i]];
        PerformAppend(start, ops[..i], [ops[i]]);
        One(disk, ops[i], Snapshot("", None), false);
        disk := Perform(disk, ops[i]);
        i := i + 1;
      }
      assert ops[..|ops|] == ops;
    }

    /** One run on the volume; the outcome is known to the caller only if nothing cut it. */
    method Migrate(source: Source, env: Env, fault: Fault) returns (outcome: Option<Outcome>)
      modifies this
      ensures disk == After(old(disk), Run(source, env, fault))
      ensures fault.NoFault? ==> outcome == Some(PlanOf(old(disk), source, env).outcome)
    {
      hide Perform, PerformAll, Prelude, Guarded, ReadSource, MarkerOf;
      ghost var start := disk;
      ghost var plan := PlanOf(start, source, env);
      ghost var ops := plan.prelude + plan.guarded;
      done := 0;
      outcome := None;
      NoneDone(start, ops);
      if disk.config.Some? {
        if disk.marker.Some? {
          var alive := Do(Unlink(MarkerName), fault, start, ops);
        }
        CutPlain(start, plan, fault, done);
        return if CutAt(fault, done) then None else Some(AlreadyCommitted);
      }
      if source.config.NoConfig? {
        CutPlain(start, plan, fault, done);
        return Some(NoSource);
      }
      var reading := ReadSource(source, env);
      if reading.Failure? {
        CutPlain(start, plan, fault, done);
        return Some(Failed(reading.error));
      }
      var s := reading.value;
      if disk.marker.Some? && disk.others != {} {
        CutPlain(start, plan, fault, done);
        return Some(Failed(UnrelatedState));
      }
      if disk.marker.None? && (disk.others != {} || disk.token.Some? || disk.auth.Some?) {
        CutPlain(start, plan, fault, done);
        return Some(Failed(NotEmpty));
      }
      var m := MarkerOf(s, env);
      var steps := Plan(Prelude(disk, m), Guarded(s), Committed);
      var alive := MarkVolume(m, fault, start, ops);
      if alive {
        alive := CopySnapshot(s, fault, start, ops, |plan.prelude|);
      }
      CutCommitting(start, plan, fault, done);
      if alive && !CutAt(fault, done) {
        outcome := Some(Committed);
      } else if fault.Raise? {
        CleanUp(Cleanup(steps, done), fault.j);
      }
    }
  }

  lemma NoneDone(start: Disk, ops: seq<Op>)
    ensures PerformAll(start, ops[..0]) == start
  {
  }

  /** A run without a try block needs no clean-up. */
  lemma CutPlain(start: Disk, plan: Plan, fault: Fault, done: nat)
    requires plan.guarded == [] && forall op <- plan.prelude :: op == Unlink(MarkerName)
    requires done <= |plan.prelude| && (fault.NoFault? || done <= fault.k)
    requires done == |plan.prelude| || CutAt(fault, done)
    ensures PerformAll(start, Performed(plan, fault)) == PerformAll(start, (plan.prelude + plan.guarded)[..done])
  {
    hide PerformAll;
    var ops := plan.prelude + plan.guarded;
    assert ops == plan.prelude && ops[..|ops|] == ops;
    if fault.Raise? && fault.k <= |ops| {
      if 0 < fault.k {
        assert ops[fault.k - 1] in plan.prelude;
      }
      assert Cleanup(plan, fault.k) == [];
      assert fault.k == done;
      assert Performed(plan, fault) == ops[..done];
    }
  }

  /** What a run that goes ahead has performed when it ends, at `done`. */
  lemma CutCommitting(start: Disk, plan: Plan, fault: Fault, done: nat)
    requires done <= |plan.prelude + plan.guarded| && (fault.NoFault? || done <= fault.k)
    requires done == |plan.prelude + plan.guarded| || CutAt(fault, done)
    ensures var reached := PerformAll(start, (plan.prelude + plan.guarded)[..done]);
            PerformAll(start, Performed(plan, fault)) ==
            if fault.Raise? && CutAt(fault, done) then PerformAll(reached, Upto(Cleanup(plan, done), fault.j)) else reached
  {
    hide PerformAll, Cleanup;
    var ops := plan.prelude + plan.guarded;
    assert ops[..|ops|] == ops;
    if fault.Raise? && CutAt(fault, done) {
      PerformAppend(start, ops[..done], Upto(Cleanup(plan, done), fault.j));
    }
  }
}
