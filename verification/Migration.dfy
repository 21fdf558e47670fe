/**
 * The one-time migration of the old bind state into a named volume (migrate_legacy_bind_state in
 * deploy/linux/config_tool.py): a marker names the source being copied, token and auth state are written
 * first, and the config is the commit mark. Files are cells, os.replace is atomic, and a run may crash or
 * raise between any two file operations.
 */
module Migration {
  import opened Wrappers
  import opened Identity

  // ---------------------------------------------------------------- the source directory

  datatype ConfigFile = NoConfig | BadConfig | Config(content: string)

  /** NoSession: a private JSON object without a usable session_id. */
  datatype TokenFile = NoToken | BadToken | NoSession | Token(content: string)

  datatype AuthFile = NoAuth | BadAuth | AuthFile(serial: string, region: string, state: string)

  datatype Source = Source(config: ConfigFile, token: TokenFile, auth: AuthFile)

  /** EZVIZ_SERIAL and EZVIZ_REGION of the run. */
  datatype Env = Env(serial: string, region: string)

  // ---------------------------------------------------------------- the target volume

  datatype Binding = Unbound | Bound(serial: string, region: string)

  /** The marker payload, with each digest standing for the content it digests. */
  datatype Marker = Marker(config: string, token: Option<string>, serial: string, region: string)

  datatype File = ConfigName | TokenName | AuthName | MarkerName

  /** `temps` are the leftover `.name.tmp` files; `others` are entries the migration knows nothing about. */
  datatype Disk = Disk(config: Option<string>, token: Option<string>, auth: Option<Binding>,
                       marker: Option<Marker>, temps: set<File>, others: set<string>)

  // ---------------------------------------------------------------- reading the source

  datatype Credentials = Credentials(token: string, binding: Binding)

  /** What one consistent reading of the source puts into the target. */
  datatype Snapshot = Snapshot(config: string, credentials: Option<Credentials>) {
    function Token(): Option<string> {
      if credentials.Some? then Some(credentials.value.token) else None
    }

    function Auth(): Option<Binding> {
      if credentials.Some? then Some(credentials.value.binding) else None
    }
  }

  datatype Reason =
    | ConfigUnusable | TokenUnusable | AuthWithoutToken | RegionInvalid | SessionMissing | AuthUnusable
    | BoundSerialInvalid | SerialMismatch | RegionMismatch | UnrelatedState | NotEmpty

  /** The binding carried over: a complete one that agrees with the environment, or none. */
  function ReadAuth(auth: AuthFile, serial: string, region: string): Result<Binding, Reason>
    requires !auth.NoAuth?
  {
    if auth.BadAuth? then Failure(AuthUnusable)
    else
      var boundSerial := NormalizeSerial(auth.serial);
      var boundRegion, state := Strip(auth.region), Strip(auth.state);
      if boundSerial != "" && !SerialOk(boundSerial) then Failure(BoundSerialInvalid)
      else if boundSerial != "" && boundRegion != "" && state == "" then
        var normalized := NormalizeRegion(boundRegion);
        if normalized.None? then Failure(RegionInvalid)
        else if SerialOk(serial) && boundSerial != serial then Failure(SerialMismatch)
        else if normalized.value != region then Failure(RegionMismatch)
        else Success(Bound(boundSerial, normalized.value))
      else Success(Unbound)
  }

  function ReadSource(source: Source, env: Env): (r: Result<Snapshot, Reason>)
    ensures r.Success? ==> NormalizeRegion(env.region).Some?
  {
    if !source.config.Config? then Failure(ConfigUnusable)
    else if source.token.BadToken? then Failure(TokenUnusable)
    else if source.token.NoToken? && !source.auth.NoAuth? then Failure(AuthWithoutToken)
    else if NormalizeRegion(env.region).None? then Failure(RegionInvalid)
    else if source.token.NoSession? then Failure(SessionMissing)
    else if source.token.NoToken? then Success(Snapshot(source.config.content, None))
    else if source.auth.NoAuth? then Success(Snapshot(source.config.content, Some(Credentials(source.token.content, Unbound))))
    else
      match ReadAuth(source.auth, NormalizeSerial(env.serial), NormalizeRegion(env.region).value)
      case Failure(e) => Failure(e)
      case Success(b) => Success(Snapshot(source.config.content, Some(Credentials(source.token.content, b))))
  }

  /** The payload names the source files and the environment, but not the auth file. */
  function MarkerOf(s: Snapshot, env: Env): Marker
    requires NormalizeRegion(env.region).Some?
  {
    var serial := NormalizeSerial(env.serial);
    Marker(s.config, s.Token(), if SerialOk(serial) then serial else "", NormalizeRegion(env.region).value)
  }

  /** The auth file can go along: absent, incomplete, or complete and in agreement with the environment. */
  predicate AuthUsable(auth: AuthFile, env: Env) {
    || auth.NoAuth?
    || (auth.AuthFile?
        && var serial := NormalizeSerial(auth.serial);
           && (serial == "" || SerialOk(serial))
           && (serial != "" && Strip(auth.region) != "" && Strip(auth.state) == "" ==>
                 && NormalizeRegion(Strip(auth.region)).Some?
                 && NormalizeRegion(Strip(auth.region)) == NormalizeRegion(env.region)
                 && (SerialOk(NormalizeSerial(env.serial)) ==> serial == NormalizeSerial(env.serial))))
  }

  /** Each file is copied to its own name, and a source is refused for exactly these reasons. */
  lemma SourceCopiedIff(source: Source, env: Env)
    ensures ReadSource(source, env).Success? <==>
            && source.config.Config? && NormalizeRegion(env.region).Some?
            && if source.token.NoToken? then source.auth.NoAuth?
               else source.token.Token? && AuthUsable(source.auth, env)
    ensures ReadSource(source, env).Success? ==>
              var s := ReadSource(source, env).value;
              && source.config == Config(s.config) && (s.credentials.None? <==> source.token.NoToken?)
              && (s.credentials.Some? ==> source.token == Token(s.credentials.value.token))
              && (s.credentials.Some? && source.auth.NoAuth? ==> s.credentials.value.binding == Unbound)
  {
    hide NormalizeRegion, NormalizeSerial, Strip, SerialOk;
  }

  /** The marker tells apart whatever config, token, valid serial or region a run would copy for. */
  lemma MarkerDistinguishes(s: Snapshot, env: Env, s': Snapshot, env': Env)
    requires NormalizeRegion(env.region).Some? && NormalizeRegion(env'.region).Some?
    ensures MarkerOf(s, env) == MarkerOf(s', env') ==>
              && s.config == s'.config && NormalizeRegion(env.region) == NormalizeRegion(env'.region)
              && (s.credentials.Some? <==> s'.credentials.Some?)
              && (s.credentials.Some? ==> s.credentials.value.token == s'.credentials.value.token)
              && (SerialOk(NormalizeSerial(env.serial)) ==> NormalizeSerial(env.serial) == NormalizeSerial(env'.serial))
  {
    hide NormalizeRegion, NormalizeSerial;
  }

  /** A binding is carried over exactly from a complete auth file, normalised, and matching the environment. */
  lemma BindingCarriedIff(source: Source, env: Env)
    requires ReadSource(source, env).Success? && ReadSource(source, env).value.credentials.Some?
    ensures var binding := ReadSource(source, env).value.credentials.value.binding;
            && (binding.Bound? <==>
                  && source.auth.AuthFile? && NormalizeSerial(source.auth.serial) != ""
                  && Strip(source.auth.region) != "" && Strip(source.auth.state) == "")
            && (binding.Bound? ==>
                  && binding.serial == NormalizeSerial(source.auth.serial) && SerialOk(binding.serial)
                  && NormalizeRegion(Strip(source.auth.region)) == Some(binding.region) == NormalizeRegion(env.region)
                  && (SerialOk(NormalizeSerial(env.serial)) ==> binding.serial == NormalizeSerial(env.serial)))
  {
    hide NormalizeRegion, NormalizeSerial, Strip, SerialOk;
  }

  // ---------------------------------------------------------------- file operations

  /** Open leaves a temporary; the Put operations are the atomic replacements. */
  datatype Op =
    | Open(file: File) | DropTemp(file: File) | Unlink(file: File)
    | PutConfig(content: string) | PutToken(content: string) | PutAuth(binding: Binding) | PutMarker(marker: Marker)

  function Perform(d: Disk, op: Op): Disk {
    match op
    case Open(f) => d.(temps := d.temps + {f})
    case DropTemp(f) => d.(temps := d.temps - {f})
    case PutConfig(c) => d.(config := Some(c), temps := d.temps - {ConfigName})
    case PutToken(t) => d.(token := Some(t), temps := d.temps - {TokenName})
    case PutAuth(b) => d.(auth := Some(b), temps := d.temps - {AuthName})
    case PutMarker(m) => d.(marker := Some(m), temps := d.temps - {MarkerName})
    case Unlink(f) =>
      match f
      case ConfigName => d.(config := None)
      case TokenName => d.(token := None)
      case AuthName => d.(auth := None)
      case MarkerName => d.(marker := None)
  }

  function PerformAll(d: Disk, ops: seq<Op>): Disk
    decreases |ops|
  {
    if ops == [] then d else PerformAll(Perform(d, ops[0]), ops[1..])
  }

  lemma {:induction false} PerformAppend(d: Disk, a: seq<Op>, b: seq<Op>)
    ensures PerformAll(d, a + b) == PerformAll(PerformAll(d, a), b)
    decreases |a|
  {
    hide Perform;
    if a == [] {
      assert a + b == b;
    } else {
      assert (a + b)[1..] == a[1..] + b && (a + b)[0] == a[0];
      PerformAppend(Perform(d, a[0]), a[1..], b);
    }
  }

  // ---------------------------------------------------------------- one run

  datatype Outcome = AlreadyCommitted | NoSource | Failed(reason: Reason) | Committed

  /** `prelude` runs outside the try block, `guarded` inside it. */
  datatype Plan = Plan(prelude: seq<Op>, guarded: seq<Op>, outcome: Outcome)

  const SWEEP := [DropTemp(MarkerName), DropTemp(ConfigName), DropTemp(TokenName), DropTemp(AuthName)]

  function Prelude(d: Disk, m: Marker): seq<Op> {
    SWEEP
    + (if d.marker.None? then [Open(MarkerName), PutMarker(m)]
       else if d.marker.value != m then [Unlink(TokenName), Unlink(AuthName), Open(MarkerName), PutMarker(m)]
       else [])
  }

  function CopyOps(s: Snapshot): seq<Op> {
    if s.credentials.None? then []
    else
      var c := s.credentials.value;
      [Open(TokenName), PutToken(c.token), Open(AuthName), PutAuth(c.binding)]
  }

  function Guarded(s: Snapshot): seq<Op> {
    CopyOps(s) + [Open(ConfigName), PutConfig(s.config), Unlink(MarkerName)]
  }

  function PlanOf(d: Disk, source: Source, env: Env): Plan {
    if d.config.Some? then Plan(if d.marker.Some? then [Unlink(MarkerName)] else [], [], AlreadyCommitted)
    else if source.config.NoConfig? then Plan([], [], NoSource)
    else
      match ReadSource(source, env)
      case Failure(e) => Plan([], [], Failed(e))
      case Success(s) =>
        if d.marker.Some? && d.others != {} then Plan([], [], Failed(UnrelatedState))
        else if d.marker.None? && (d.others != {} || d.token.Some? || d.auth.Some?) then Plan([], [], Failed(NotEmpty))
        else Plan(Prelude(d, MarkerOf(s, env)), Guarded(s), Committed)
  }

  /** A crash after `k` operations, or an exception there followed by `j` operations of the clean-up. */
  datatype Fault = NoFault | Crash(k: nat) | Raise(k: nat, j: nat)

  const ROLLBACK := [Unlink(ConfigName), Unlink(TokenName), Unlink(AuthName), Unlink(MarkerName)]

  /** The temporary of an unfinished write goes first; the handler of the try block follows. */
  function Cleanup(plan: Plan, k: nat): seq<Op>
    requires k <= |plan.prelude + plan.guarded|
  {
    var ops := plan.prelude + plan.guarded;
    (if 0 < k && ops[k - 1].Open? then [DropTemp(ops[k - 1].file)] else [])
    + (if plan.guarded != [] && k >= |plan.prelude| then ROLLBACK else [])
  }

  function Upto(ops: seq<Op>, k: nat): seq<Op> {
    if k <= |ops| then ops[..k] else ops
  }

  function Performed(plan: Plan, fault: Fault): seq<Op> {
    var ops := plan.prelude + plan.guarded;
    match fault
    case NoFault => ops
    case Crash(k) => Upto(ops, k)
    case Raise(k, j) => if k <= |ops| then ops[..k] + Upto(Cleanup(plan, k), j) else ops
  }

  datatype Run = Run(source: Source, env: Env, fault: Fault)

  function After(d: Disk, run: Run): Disk {
    PerformAll(d, Performed(PlanOf(d, run.source, run.env), run.fault))
  }

  function AfterAll(d: Disk, runs: seq<Run>): Disk {
    if runs == [] then d else After(AfterAll(d, runs[..|runs| - 1]), runs[|runs| - 1])
  }

  // ---------------------------------------------------------------- safety

  /** The three files are those of the snapshot. */
  predicate Holds(d: Disk, s: Snapshot) {
    d.config == Some(s.config) && d.token == s.Token() && d.auth == s.Auth()
  }

  /** A marker that names no token stands over no token and no auth state. */
  predicate MarkerHonest(d: Disk) {
    d.marker.Some? && d.marker.value.token.None? ==> d.token.None? && d.auth.None?
  }

  /** Without config or marker there is no token and no auth state either, so that the next run may go ahead. */
  predicate Resumable(d: Disk) {
    d.others == {} && (d.config.None? && d.marker.None? ==> d.token.None? && d.auth.None?)
  }

  predicate Good(d: Disk, s: Snapshot, resumable: bool) {
    (d.config.Some? ==> Holds(d, s)) && MarkerHonest(d) && (resumable ==> Resumable(d))
  }

  /** When an operation keeps Resumable. */
  predicate Resumes(d: Disk, op: Op) {
    match op
    case PutToken(_) => d.marker.Some? || d.config.Some?
    case PutAuth(_) => d.marker.Some? || d.config.Some?
    case Unlink(f) =>
      (f == ConfigName ==> d.marker.Some? || (d.token.None? && d.auth.None?))
      && (f == MarkerName ==> d.config.Some? || (d.token.None? && d.auth.None?))
    case _ => true
  }

  /** When an operation keeps Good. */
  predicate Safe(d: Disk, op: Op, s: Snapshot, resumable: bool) {
    (resumable ==> Resumes(d, op)) &&
    match op
    case Open(_) => true
    case DropTemp(_) => true
    case PutConfig(c) => c == s.config && d.token == s.Token() && d.auth == s.Auth()
    case PutToken(_) => d.config.None? && (d.marker.Some? ==> d.marker.value.token.Some?)
    case PutAuth(_) => d.config.None? && (d.marker.Some? ==> d.marker.value.token.Some?)
    case PutMarker(m) => m.token.None? ==> d.token.None? && d.auth.None?
    case Unlink(f) => f in {ConfigName, MarkerName} || d.config.None?
  }

  predicate SafeAll(d: Disk, ops: seq<Op>, s: Snapshot, resumable: bool)
    decreases |ops|
  {
    ops == [] || (Safe(d, ops[0], s, resumable) && SafeAll(Perform(d, ops[0]), ops[1..], s, resumable))
  }

  lemma {:induction false} SafeAppend(d: Disk, a: seq<Op>, b: seq<Op>, s: Snapshot, resumable: bool)
    requires SafeAll(d, a, s, resumable) && SafeAll(PerformAll(d, a), b, s, resumable)
    ensures SafeAll(d, a + b, s, resumable)
    decreases |a|
  {
    hide Perform, Safe;
    if a == [] {
      assert a + b == b;
    } else {
      assert (a + b)[1..] == a[1..] + b && (a + b)[0] == a[0];
      SafeAppend(Perform(d, a[0]), a[1..], b, s, resumable);
    }
  }

  lemma {:induction false} SafePrefix(d: Disk, ops: seq<Op>, k: nat, s: Snapshot, resumable: bool)
    requires SafeAll(d, ops, s, resumable) && k <= |ops|
    ensures SafeAll(d, ops[..k], s, resumable)
    decreases k
  {
    hide Perform, Safe;
    if k > 0 {
      SafePrefix(Perform(d, ops[0]), ops[1..], k - 1, s, resumable);
      assert ops[..k][1..] == ops[1..][..k - 1];
    }
  }

  lemma {:induction false} SafeKeepsGood(d: Disk, ops: seq<Op>, s: Snapshot, resumable: bool)
    requires Good(d, s, resumable) && SafeAll(d, ops, s, resumable)
    ensures Good(PerformAll(d, ops), s, resumable)
    decreases |ops|
  {
    if ops != [] {
      SafeKeepsGood(Perform(d, ops[0]), ops[1..], s, resumable);
    }
  }

  function Swept(d: Disk): Disk {
    d.(temps := d.temps - {MarkerName} - {ConfigName} - {TokenName} - {AuthName})
  }

  lemma One(d: Disk, a: Op, s: Snapshot, resumable: bool)
    ensures PerformAll(d, [a]) == Perform(d, a)
    ensures SafeAll(d, [a], s, resumable) <==> Safe(d, a, s, resumable)
  {
    hide Perform, Safe;
    assert PerformAll(Perform(d, a), []) == Perform(d, a);
  }

  lemma Two(d: Disk, a: Op, b: Op, s: Snapshot, resumable: bool)
    ensures PerformAll(d, [a, b]) == Perform(Perform(d, a), b)
    ensures SafeAll(d, [a, b], s, resumable) <==> Safe(d, a, s, resumable) && Safe(Perform(d, a), b, s, resumable)
  {
    hide Perform, Safe;
    assert [a, b][1..] == [b];
    One(Perform(d, a), b, s, resumable);
  }

  lemma Four(d: Disk, a: Op, b: Op, c: Op, e: Op, s: Snapshot, resumable: bool)
    ensures PerformAll(d, [a, b, c, e]) == Perform(Perform(Perform(Perform(d, a), b), c), e)
    ensures SafeAll(d, [a, b, c, e], s, resumable) <==>
            && Safe(d, a, s, resumable) && Safe(Perform(d, a), b, s, resumable)
            && Safe(Perform(Perform(d, a), b), c, s, resumable) && Safe(Perform(Perform(Perform(d, a), b), c), e, s, resumable)
  {
    hide Perform, Safe;
    assert [a, b, c, e][1..] == [b, c, e] && [b, c, e][1..] == [c, e];
    Two(Perform(Perform(d, a), b), c, e, s, resumable);
  }

  lemma Sweep(d: Disk, s: Snapshot, resumable: bool)
    ensures PerformAll(d, SWEEP) == Swept(d) && SafeAll(d, SWEEP, s, resumable)
  {
    Four(d, SWEEP[0], SWEEP[1], SWEEP[2], SWEEP[3], s, resumable);
    assert SWEEP == [SWEEP[0], SWEEP[1], SWEEP[2], SWEEP[3]];
  }

  /** A disk on which a run may go ahead with this snapshot. */
  predicate MayStart(d: Disk) {
    && d.config.None? && d.others == {}
    && (d.marker.None? ==> d.token.None? && d.auth.None?)
  }

  /** After the prelude the marker is the run's own, and stands over nothing it does not name. */
  function Marked(d: Disk, m: Marker): Disk {
    var swept := Swept(d).(marker := Some(m));
    if d.marker.Some? && d.marker.value != m then swept.(token := None, auth := None) else swept
  }

  lemma MarkTarget(d: Disk, m: Marker, s: Snapshot, resumable: bool)
    requires MayStart(d) && MarkerHonest(d)
    ensures PerformAll(d, Prelude(d, m)) == Marked(d, m) && SafeAll(d, Prelude(d, m), s, resumable)
    ensures m.token.None? ==> Marked(d, m).token.None? && Marked(d, m).auth.None?
  {
    Sweep(d, s, resumable);
    var w := Swept(d);
    var ops := Prelude(d, m)[|SWEEP|..];
    assert Prelude(d, m) == SWEEP + ops;
    PerformAppend(d, SWEEP, ops);
    if d.marker.None? {
      Two(w, Open(MarkerName), PutMarker(m), s, resumable);
    } else if d.marker.value != m {
      Four(w, Unlink(TokenName), Unlink(AuthName), Open(MarkerName), PutMarker(m), s, resumable);
    } else {
      assert ops == [];
    }
    SafeAppend(d, SWEEP, ops, s, resumable);
  }

  /** The target once a run has committed and dropped its marker. */
  function Migrated(s: Snapshot): Disk {
    Disk(Some(s.config), s.Token(), s.Auth(), None, {}, {})
  }

  lemma CopyCredentials(d: Disk, s: Snapshot, resumable: bool)
    requires d.config.None? && d.marker.Some? && d.marker.value.token == s.Token() && MarkerHonest(d)
    ensures PerformAll(d, CopyOps(s)) ==
            d.(token := s.Token(), auth := s.Auth(),
               temps := if s.credentials.None? then d.temps else d.temps - {TokenName} - {AuthName})
    ensures SafeAll(d, CopyOps(s), s, resumable)
  {
    if s.credentials.Some? {
      var c := s.credentials.value;
      Four(d, Open(TokenName), PutToken(c.token), Open(AuthName), PutAuth(c.binding), s, resumable);
    }
  }

  lemma CommitConfig(d: Disk, s: Snapshot, resumable: bool)
    requires d.token == s.Token() && d.auth == s.Auth()
    ensures var ops := [Open(ConfigName), PutConfig(s.config), Unlink(MarkerName)];
            && PerformAll(d, ops) == d.(config := Some(s.config), marker := None, temps := d.temps - {ConfigName})
            && SafeAll(d, ops, s, resumable)
  {
    var ops := [Open(ConfigName), PutConfig(s.config), Unlink(MarkerName)];
    assert ops == [Open(ConfigName), PutConfig(s.config)] + [Unlink(MarkerName)];
    Two(d, Open(ConfigName), PutConfig(s.config), s, resumable);
    var e := Perform(Perform(d, Open(ConfigName)), PutConfig(s.config));
    One(e, Unlink(MarkerName), s, resumable);
    PerformAppend(d, [Open(ConfigName), PutConfig(s.config)], [Unlink(MarkerName)]);
    SafeAppend(d, [Open(ConfigName), PutConfig(s.config)], [Unlink(MarkerName)], s, resumable);
  }

  lemma CopyState(d: Disk, s: Snapshot, resumable: bool)
    requires d.config.None? && d.marker.Some? && d.marker.value.token == s.Token() && MarkerHonest(d)
    requires d.temps == {} && d.others == {}
    ensures PerformAll(d, Guarded(s)) == Migrated(s) && SafeAll(d, Guarded(s), s, resumable)
  {
    var rest := [Open(ConfigName), PutConfig(s.config), Unlink(MarkerName)];
    assert Guarded(s) == CopyOps(s) + rest;
    CopyCredentials(d, s, resumable);
    CommitConfig(PerformAll(d, CopyOps(s)), s, resumable);
    PerformAppend(d, CopyOps(s), rest);
    SafeAppend(d, CopyOps(s), rest, s, resumable);
  }

  lemma NoTempsLeft(d: Disk, m: Marker)
    ensures Marked(d, m).temps == {}
  {
    forall f: File
      ensures f !in Swept(d).temps
    {
      assert f == MarkerName || f == ConfigName || f == TokenName || f == AuthName;
    }
  }

  /** A whole run, uninterrupted: every operation is safe, and it ends committed. */
  lemma PlanRuns(d: Disk, source: Source, env: Env, s: Snapshot, resumable: bool)
    requires MayStart(d) && MarkerHonest(d) && ReadSource(source, env) == Success(s)
    ensures var plan := PlanOf(d, source, env);
            && plan == Plan(Prelude(d, MarkerOf(s, env)), Guarded(s), Committed)
            && SafeAll(d, plan.prelude + plan.guarded, s, resumable)
            && PerformAll(d, plan.prelude + plan.guarded) == Migrated(s)
  {
    hide Perform, Safe, Prelude, Guarded, NormalizeRegion, NormalizeSerial, SerialOk;
    var m := MarkerOf(s, env);
    MarkTarget(d, m, s, resumable);
    NoTempsLeft(d, m);
    CopyState(Marked(d, m), s, resumable);
    PerformAppend(d, Prelude(d, m), Guarded(s));
    SafeAppend(d, Prelude(d, m), Guarded(s), s, resumable);
  }

  /** The rollback is safe from any good disk. */
  lemma RollbackSafe(d: Disk, ops: seq<Op>, s: Snapshot, resumable: bool)
    requires Good(d, s, resumable) && (resumable ==> d.marker.Some?)
    requires (ops == ROLLBACK || exists f :: ops == [DropTemp(f)] + ROLLBACK)
    ensures SafeAll(d, ops, s, resumable)
  {
    if ops == ROLLBACK {
      Four(d, ROLLBACK[0], ROLLBACK[1], ROLLBACK[2], ROLLBACK[3], s, resumable);
    } else {
      var f :| ops == [DropTemp(f)] + ROLLBACK;
      One(d, DropTemp(f), s, resumable);
      Four(Perform(d, DropTemp(f)), ROLLBACK[0], ROLLBACK[1], ROLLBACK[2], ROLLBACK[3], s, resumable);
      SafeAppend(d, [DropTemp(f)], ROLLBACK, s, resumable);
    }
  }

  lemma CleanupSafe(d: Disk, plan: Plan, k: nat, s: Snapshot, resumable: bool)
    requires k <= |plan.prelude + plan.guarded| && Good(d, s, resumable)
    requires resumable && plan.guarded != [] && k >= |plan.prelude| ==> d.marker.Some?
    ensures SafeAll(d, Cleanup(plan, k), s, resumable)
  {
    hide Good, Safe, Perform;
    var ops := plan.prelude + plan.guarded;
    if 0 < k && ops[k - 1].Open? {
      var drop := [DropTemp(ops[k - 1].file)];
      if plan.guarded != [] && k >= |plan.prelude| {
        RollbackSafe(d, drop + ROLLBACK, s, resumable);
      } else {
        One(d, drop[0], s, resumable);
        assert drop + [] == drop;
        DropIsSafe(d, drop[0].file, s, resumable);
      }
    } else if plan.guarded != [] && k >= |plan.prelude| {
      assert [] + ROLLBACK == ROLLBACK;
      RollbackSafe(d, ROLLBACK, s, resumable);
    }
  }

  lemma DropIsSafe(d: Disk, f: File, s: Snapshot, resumable: bool)
    ensures Safe(d, DropTemp(f), s, resumable)
  {
  }

  /** The marker is on disk for the whole of the try block, up to its last operation. */
  ghost predicate MarkerKept(d: Disk, plan: Plan) {
    var ops := plan.prelude + plan.guarded;
    forall k: nat :: |plan.prelude| <= k < |ops| ==> PerformAll(d, ops[..k]).marker.Some?
  }

  /** An exception after the marker is gone but before the try block is left. */
  predicate LateRaise(plan: Plan, fault: Fault) {
    plan.guarded != [] && fault.Raise? && fault.k == |plan.prelude + plan.guarded|
  }

  /** Wherever a safe plan is cut, and however far its clean-up gets, the disk stays good. */
  lemma CutKeepsGood(d: Disk, plan: Plan, fault: Fault, s: Snapshot, resumable: bool)
    requires Good(d, s, resumable) && SafeAll(d, plan.prelude + plan.guarded, s, resumable)
    requires resumable ==> MarkerKept(d, plan) && !LateRaise(plan, fault)
    ensures Good(PerformAll(d, Performed(plan, fault)), s, resumable)
  {
    hide Good, Perform, Safe, Cleanup, SafeAll, PerformAll;
    var ops := plan.prelude + plan.guarded;
    var k := if fault.NoFault? || fault.k > |ops| then |ops| else fault.k;
    assert ops[..|ops|] == ops;
    SafePrefix(d, ops, k, s, resumable);
    SafeKeepsGood(d, ops[..k], s, resumable);
    if fault.Raise? && fault.k <= |ops| {
      var e := PerformAll(d, ops[..k]);
      var cleanup := Cleanup(plan, k);
      CleanupSafe(e, plan, k, s, resumable);
      var j := if fault.j > |cleanup| then |cleanup| else fault.j;
      assert cleanup[..|cleanup|] == cleanup;
      SafePrefix(e, cleanup, j, s, resumable);
      SafeKeepsGood(e, cleanup[..j], s, resumable);
      PerformAppend(d, ops[..k], cleanup[..j]);
    }
  }

  /** The snapshot some run of the list took of its source. */
  ghost predicate Taken(runs: seq<Run>, s: Snapshot) {
    exists k: nat :: k < |runs| && ReadSource(runs[k].source, runs[k].env) == Success(s)
  }

  ghost predicate Consistent(d: Disk, runs: seq<Run>) {
    MarkerHonest(d) && (d.config.Some? ==> exists s :: Taken(runs, s) && Holds(d, s))
  }

  lemma TakenLonger(runs: seq<Run>, run: Run, s: Snapshot)
    requires Taken(runs, s)
    ensures Taken(runs + [run], s)
  {
    var k: nat :| k < |runs| && ReadSource(runs[k].source, runs[k].env) == Success(s);
    assert (runs + [run])[k] == runs[k];
  }

  /** A committed target is never rewritten: at most the marker goes. */
  lemma CommittedStays(d: Disk, run: Run)
    requires d.config.Some?
    ensures var e := After(d, run);
            && e.config == d.config && e.token == d.token && e.auth == d.auth && e.temps == d.temps
            && e.others == d.others && (e.marker == d.marker || e.marker == None)
            && (run.fault.NoFault? ==> e.marker == None)
            && PlanOf(d, run.source, run.env).outcome == AlreadyCommitted
  {
    var plan := PlanOf(d, run.source, run.env);
    var ops := Performed(plan, run.fault);
    if d.marker.None? {
      NothingPerformed(plan, run.fault);
    } else {
      One(d, Unlink(MarkerName), Snapshot("", None), false);
      assert plan.prelude + plan.guarded == [Unlink(MarkerName)];
      match run.fault
      case NoFault =>
      case Crash(k) => assert ops == [] || ops == [Unlink(MarkerName)];
      case Raise(k, j) =>
        if k <= 1 {
          assert Cleanup(plan, k) == [];
        }
        assert ops == [] || ops == [Unlink(MarkerName)];
    }
  }

  lemma NothingPerformed(plan: Plan, fault: Fault)
    requires plan.prelude == [] && plan.guarded == []
    ensures Performed(plan, fault) == []
  {
    if fault.Raise? && fault.k == 0 {
      assert Cleanup(plan, 0) == [];
    }
  }

  lemma RunKeepsConsistent(d: Disk, runs: seq<Run>, run: Run)
    requires Consistent(d, runs)
    ensures Consistent(After(d, run), runs + [run])
  {
    var plan := PlanOf(d, run.source, run.env);
    if d.config.Some? {
      CommittedStays(d, run);
      var s :| Taken(runs, s) && Holds(d, s);
      TakenLonger(runs, run, s);
      assert Holds(After(d, run), s);
    } else if plan.outcome == Committed {
      hide Perform, Prelude, Guarded, ReadSource, MarkerOf, Performed;
      var s := ReadSource(run.source, run.env).value;
      PlanRuns(d, run.source, run.env, s, false);
      CutKeepsGood(d, plan, run.fault, s, false);
      assert (runs + [run])[|runs|] == run;
      assert Taken(runs + [run], s);
    } else {
      NothingPerformed(plan, run.fault);
    }
  }

  /**
   * Safety over any sequence of runs, with any crash or exception in each and any change of source between
   * them: whenever the config exists, the token and auth state are those of the very snapshot it came from.
   */
  lemma {:induction false} ConfigMeansSnapshot(d: Disk, runs: seq<Run>)
    requires d.config.None? && d.marker.None?
    ensures Consistent(AfterAll(d, runs), runs)
  {
    hide After;
    if runs != [] {
      var init := runs[..|runs| - 1];
      ConfigMeansSnapshot(d, init);
      RunKeepsConsistent(AfterAll(d, init), init, runs[|runs| - 1]);
      assert init + [runs[|runs| - 1]] == runs;
    }
  }

  /** The target files are the files of the source; a binding comes from its auth file. */
  ghost predicate CopyOf(d: Disk, source: Source)
    requires d.config.Some?
  {
    && source.config == Config(d.config.value)
    && (d.token.None? <==> source.token.NoToken?) && (d.token.Some? ==> source.token == Token(d.token.value))
    && (d.auth.None? <==> source.token.NoToken?)
    && (d.auth.Some? && d.auth.value.Bound? ==>
          && source.auth.AuthFile? && Strip(source.auth.state) == ""
          && d.auth.value.serial == NormalizeSerial(source.auth.serial)
          && NormalizeRegion(Strip(source.auth.region)) == Some(d.auth.value.region))
  }

  lemma SnapshotIsCopy(d: Disk, source: Source, env: Env)
    requires ReadSource(source, env).Success? && Holds(d, ReadSource(source, env).value)
    ensures CopyOf(d, source)
  {
    hide NormalizeRegion, NormalizeSerial, Strip, SerialOk;
    SourceCopiedIff(source, env);
    if source.token.Token? {
      BindingCarriedIff(source, env);
    }
    hide ReadSource;
  }

  /**
   * The same on the files: over any runs, crashes, exceptions and changes of source, a config on disk is the
   * config file of some run's source, and token and auth state are those of that very source.
   */
  lemma ConfigMeansSources(d: Disk, runs: seq<Run>)
    requires d.config.None? && d.marker.None?
    ensures var e := AfterAll(d, runs);
            e.config.Some? ==> exists k :: 0 <= k < |runs| && CopyOf(e, runs[k].source)
  {
    hide AfterAll, ReadSource, CopyOf, Holds;
    ConfigMeansSnapshot(d, runs);
    var e := AfterAll(d, runs);
    if e.config.Some? {
      var s :| Taken(runs, s) && Holds(e, s);
      var k: nat :| k < |runs| && ReadSource(runs[k].source, runs[k].env) == Success(s);
      SnapshotIsCopy(e, runs[k].source, runs[k].env);
    }
  }

  /** A volume with entries of others is never touched before it has a config. */
  lemma UnrelatedStateUntouched(d: Disk, run: Run)
    requires d.config.None? && d.others != {}
    ensures After(d, run) == d
  {
    NothingPerformed(PlanOf(d, run.source, run.env), run.fault);
  }

  /** What is copied depends on the source alone: the environment can only refuse it. */
  lemma EnvironmentNeverAuthenticates(source: Source, env: Env, env': Env)
    requires ReadSource(source, env).Success? && ReadSource(source, env').Success?
    ensures ReadSource(source, env) == ReadSource(source, env')
  {
    hide NormalizeRegion, NormalizeSerial, Strip, SerialOk;
  }

  // ---------------------------------------------------------------- recovery

  predicate LeavesMarker(op: Op) {
    op != Unlink(MarkerName) && !op.PutMarker?
  }

  lemma {:induction false} MarkerUntouched(d: Disk, ops: seq<Op>)
    requires forall op <- ops :: LeavesMarker(op)
    ensures PerformAll(d, ops).marker == d.marker
    decreases |ops|
  {
    if ops != [] {
      assert LeavesMarker(ops[0]);
      MarkerUntouched(Perform(d, ops[0]), ops[1..]);
    }
  }

  lemma PlanKeepsMarker(d: Disk, m: Marker, s: Snapshot)
    requires MayStart(d) && MarkerHonest(d)
    ensures MarkerKept(d, Plan(Prelude(d, m), Guarded(s), Committed))
  {
    hide Perform, PerformAll;
    var prelude, guarded := Prelude(d, m), Guarded(s);
    var ops := prelude + guarded;
    MarkTarget(d, m, s, false);
    forall k: nat | |prelude| <= k < |ops|
      ensures PerformAll(d, ops[..k]).marker.Some?
    {
      var part := guarded[..k - |prelude|];
      assert ops[..k] == prelude + part;
      PerformAppend(d, prelude, part);
      MarkerUntouched(Marked(d, m), part);
    }
  }

  /** A run from a resumable disk leaves one, unless an exception strikes in the last gap of the try block. */
  lemma RunKeepsResumable(d: Disk, run: Run)
    requires Resumable(d) && MarkerHonest(d) && !LateRaise(PlanOf(d, run.source, run.env), run.fault)
    ensures Resumable(After(d, run)) && MarkerHonest(After(d, run))
  {
    var plan := PlanOf(d, run.source, run.env);
    if d.config.Some? {
      CommittedStays(d, run);
    } else if plan.outcome == Committed {
      hide Perform, Prelude, Guarded, ReadSource, MarkerOf, Performed;
      var s := ReadSource(run.source, run.env).value;
      PlanRuns(d, run.source, run.env, s, true);
      PlanKeepsMarker(d, MarkerOf(s, run.env), s);
      CutKeepsGood(d, plan, run.fault, s, true);
    } else {
      NothingPerformed(plan, run.fault);
    }
  }

  /** The volume no run will ever touch again. */
  predicate Stuck(d: Disk) {
    d.config.None? && d.marker.None? && (d.token.Some? || d.auth.Some?)
  }

  lemma StuckForEver(d: Disk, run: Run)
    requires Stuck(d)
    ensures After(d, run) == d && PlanOf(d, run.source, run.env).outcome != Committed
  {
    NothingPerformed(PlanOf(d, run.source, run.env), run.fault);
  }

  lemma RolledBack(d: Disk, j: nat)
    ensures var e := PerformAll(d, Upto(ROLLBACK, j));
            e == d.(config := if j >= 1 then None else d.config, token := if j >= 2 then None else d.token,
                    auth := if j >= 3 then None else d.auth, marker := if j >= 4 then None else d.marker)
  {
    var none := Snapshot("", None);
    var ops := Upto(ROLLBACK, j);
    if j == 0 {
      assert ops == [];
    } else if j == 1 {
      One(d, Unlink(ConfigName), none, false);
      assert ops == [Unlink(ConfigName)];
    } else if j == 2 {
      Two(d, Unlink(ConfigName), Unlink(TokenName), none, false);
      assert ops == [Unlink(ConfigName), Unlink(TokenName)];
    } else if j == 3 {
      Two(d, Unlink(ConfigName), Unlink(TokenName), none, false);
      One(Perform(Perform(d, Unlink(ConfigName)), Unlink(TokenName)), Unlink(AuthName), none, false);
      assert ops == [Unlink(ConfigName), Unlink(TokenName)] + [Unlink(AuthName)];
      PerformAppend(d, [Unlink(ConfigName), Unlink(TokenName)], [Unlink(AuthName)]);
    } else {
      Four(d, ROLLBACK[0], ROLLBACK[1], ROLLBACK[2], ROLLBACK[3], none, false);
      assert ops == ROLLBACK;
    }
  }

  /**
   * The last gap: an exception between the removal of the marker and the end of the try block rolls the
   * finished migration back without a marker, and a crash in that rollback wedges the volume exactly when
   * the config is gone and token or auth state is not.
   */
  lemma LateRaiseSticksIff(d: Disk, source: Source, env: Env, j: nat)
    requires MayStart(d) && MarkerHonest(d) && ReadSource(source, env).Success?
    ensures var plan := PlanOf(d, source, env);
            var e := After(d, Run(source, env, Raise(|plan.prelude + plan.guarded|, j)));
            && LateRaise(plan, Raise(|plan.prelude + plan.guarded|, j)) && MarkerHonest(e)
            && (Stuck(e) <==> ReadSource(source, env).value.credentials.Some? && 1 <= j <= 2)
            && (Resumable(e) <==> !Stuck(e))
  {
    var s := ReadSource(source, env).value;
    PlanRuns(d, source, env, s, false);
    var plan := PlanOf(d, source, env);
    var ops := plan.prelude + plan.guarded;
    assert ops[..|ops|] == ops && ops[|ops| - 1] == Unlink(MarkerName);
    assert Cleanup(plan, |ops|) == ROLLBACK;
    PerformAppend(d, ops, Upto(ROLLBACK, j));
    hide ReadSource, PlanOf, Guarded, Prelude;
    RolledBack(Migrated(s), j);
  }

  /** The run is raised in the last gap and its rollback cut with the config gone and credentials left. */
  predicate Wedges(d: Disk, run: Run) {
    && LateRaise(PlanOf(d, run.source, run.env), run.fault) && 1 <= run.fault.j <= 2
    && ReadSource(run.source, run.env).Success? && ReadSource(run.source, run.env).value.credentials.Some?
  }

  lemma RunWedgesIff(d: Disk, run: Run)
    requires Resumable(d) && MarkerHonest(d)
    ensures var e := After(d, run);
            MarkerHonest(e) && (Resumable(e) <==> !Wedges(d, run)) && (Wedges(d, run) ==> Stuck(e))
  {
    var plan := PlanOf(d, run.source, run.env);
    if LateRaise(plan, run.fault) {
      LateRaiseSticksIff(d, run.source, run.env, run.fault.j);
    } else {
      RunKeepsResumable(d, run);
    }
  }

  /** No run of the list wedged the volume. */
  ghost predicate NeverWedged(d: Disk, runs: seq<Run>) {
    forall k: nat :: k < |runs| ==> !Wedges(AfterAll(d, runs[..k]), runs[k])
  }

  lemma NeverWedgedSnoc(d: Disk, runs: seq<Run>)
    requires runs != []
    ensures var n := |runs| - 1;
            NeverWedged(d, runs) <==> NeverWedged(d, runs[..n]) && !Wedges(AfterAll(d, runs[..n]), runs[n])
  {
    hide Wedges, AfterAll;
    var n := |runs| - 1;
    assert forall k: nat :: k < n ==> runs[..n][..k] == runs[..k] && runs[..n][k] == runs[k];
  }

  lemma {:induction false} RunsWedgeIff(d: Disk, runs: seq<Run>)
    requires Resumable(d) && MarkerHonest(d)
    ensures var e := AfterAll(d, runs);
            if NeverWedged(d, runs) then Resumable(e) && MarkerHonest(e) else Stuck(e)
  {
    hide After, Resumable, MarkerHonest, Wedges, NeverWedged, Stuck;
    if runs == [] {
      NothingWedged(d);
    } else {
      var init, last := runs[..|runs| - 1], runs[|runs| - 1];
      RunsWedgeIff(d, init);
      NeverWedgedSnoc(d, runs);
      if NeverWedged(d, init) {
        RunWedgesIff(AfterAll(d, init), last);
      } else {
        StuckForEver(AfterAll(d, init), last);
      }
    }
  }

  lemma NothingWedged(d: Disk)
    ensures NeverWedged(d, [])
  {
  }

  /**
   * Recovery, over any runs, crashes and exceptions: the next run that is not cut leaves a config exactly if no
   * run wedged the volume, and if there was none yet it commits exactly its own source.
   */
  lemma NextRunCommitsIff(d: Disk, runs: seq<Run>, source: Source, env: Env)
    requires Resumable(d) && MarkerHonest(d) && ReadSource(source, env).Success?
    ensures var e := AfterAll(d, runs);
            var next := After(e, Run(source, env, NoFault));
            && (next.config.Some? <==> NeverWedged(d, runs))
            && (NeverWedged(d, runs) && e.config.None? ==>
                  next == Migrated(ReadSource(source, env).value) && CopyOf(next, source))
            && (e.config.Some? ==> next.config == e.config && next.token == e.token && next.auth == e.auth)
  {
    hide Perform, PerformAll, Prelude, Guarded, ReadSource, MarkerOf, AfterAll, NeverWedged;
    RunsWedgeIff(d, runs);
    var e, run := AfterAll(d, runs), Run(source, env, NoFault);
    if e.config.Some? {
      CommittedStays(e, run);
    } else if NeverWedged(d, runs) {
      PlanRuns(e, source, env, ReadSource(source, env).value, false);
      SnapshotIsCopy(Migrated(ReadSource(source, env).value), source, env);
    } else {
      StuckForEver(e, run);
    }
  }
}
