/**
 * The token/auth binding transaction (persist_bound_token and token_matches_identity in
 * deploy/linux/runtime_settings.py): under one lock the auth file is marked as updating, the token replaced,
 * the auth file rewritten for the new pair; a crash between any two replacements must never leave a token
 * that looks bound to a camera it was not persisted for.
 */
module TokenBinding {
  import opened Wrappers
  import opened Identity

  datatype Token = Token(content: string, hasSession: bool)

  datatype Auth = Auth(state: string, serial: string, region: string)

  const UPDATING := Auth("updating", "", "")

  /** The two files, and whether each is closed to group and others. */
  datatype Disk = Disk(token: Option<Token>, tokenPrivate: bool, auth: Option<Auth>, authPrivate: bool)

  // ---------------------------------------------------------------- reading

  /** What token_matches_identity concludes from the auth file alone. */
  predicate AuthMatches(disk: Disk, serial: string, region: string) {
    && NormalizeRegion(region).Some? && NormalizeSerial(serial) != ""
    && disk.auth.Some? && disk.authPrivate && disk.auth.value.state == ""
    && NormalizeSerial(disk.auth.value.serial) == NormalizeSerial(serial)
    && NormalizeRegion(disk.auth.value.region) == NormalizeRegion(region)
  }

  predicate Ready(disk: Disk) {
    disk.token.Some? && disk.tokenPrivate && disk.token.value.hasSession
  }

  // ---------------------------------------------------------------- the transaction

  datatype Request = Request(token: Token, serial: string, region: string)

  /** The checks made before the lock is taken. */
  predicate Valid(q: Request) {
    SerialOk(NormalizeSerial(q.serial)) && NormalizeRegion(q.region).Some? && q.token.hasSession
  }

  function Bound(q: Request): Auth
    requires Valid(q)
  {
    Auth("", NormalizeSerial(q.serial), NormalizeRegion(q.region).value)
  }

  const REPLACEMENTS := 3

  /** The file replacement number `pc` of a transaction. */
  function Replace(disk: Disk, q: Request, pc: nat): Disk
    requires Valid(q) && pc < REPLACEMENTS
  {
    if pc == 0 then disk.(auth := Some(UPDATING), authPrivate := true)
    else if pc == 1 then disk.(token := Some(q.token), tokenPrivate := true)
    else disk.(auth := Some(Bound(q)), authPrivate := true)
  }

  function ReplaceUpTo(disk: Disk, q: Request, pc: nat): Disk
    requires Valid(q) && pc <= REPLACEMENTS
  {
    if pc == 0 then disk else Replace(ReplaceUpTo(disk, q, pc - 1), q, pc - 1)
  }

  /**
   * The data directory. A transaction may be cut off after any number of replacements, by a crash or by an
   * exception (a chmod that fails after its replacement counts that replacement).
   */
  class Directory {
    var disk: Disk

    constructor (disk: Disk)
      ensures this.disk == disk
    {
      this.disk := disk;
    }

    /** Returns false when the checks refuse the request. */
    method PersistBoundToken(q: Request, survives: nat) returns (accepted: bool)
      modifies this
      ensures accepted == Valid(q)
      ensures !accepted ==> disk == old(disk)
      ensures accepted ==>
                disk == ReplaceUpTo(old(disk), q, if survives < REPLACEMENTS then survives else REPLACEMENTS)
    {
      var normalizedSerial := NormalizeSerial(q.serial);
      if !SerialOk(normalizedSerial) {
        return false;
      }
      var normalizedRegion := NormalizeRegion(q.region);
      if normalizedRegion.None? || !q.token.hasSession {
        return false;
      }
      accepted := true;
      ghost var d0 := disk;
      assert ReplaceUpTo(d0, q, 0) == d0;
      if survives == 0 {
        return;
      }
      disk := Disk(disk.token, disk.tokenPrivate, Some(UPDATING), true);
      assert disk == ReplaceUpTo(d0, q, 1);
      if survives == 1 {
        return;
      }
      disk := Disk(Some(q.token), true, disk.auth, disk.authPrivate);
      assert disk == ReplaceUpTo(d0, q, 2);
      if survives == 2 {
        return;
      }
      disk := Disk(disk.token, disk.tokenPrivate, Some(Auth("", normalizedSerial, normalizedRegion.value)), true);
      assert disk == ReplaceUpTo(d0, q, 3);
    }

    method TokenMatchesIdentity(serial: string, region: string) returns (matches: bool)
      ensures matches <==> AuthMatches(disk, serial, region) && Ready(disk)
    {
      var expectedSerial := NormalizeSerial(serial);
      var expectedRegion := NormalizeRegion(region);
      if expectedRegion.None? {
        return false;
      }
      if expectedSerial == "" || !Ready(disk) {
        return false;
      }
      if disk.auth.None? || !disk.authPrivate {
        return false;
      }
      var value := disk.auth.value;
      if value.state != "" {
        return false;
      }
      var boundRegion := NormalizeRegion(value.region);
      if boundRegion.None? {
        return false;
      }
      return NormalizeSerial(value.serial) == expectedSerial && boundRegion == expectedRegion;
    }
  }

  /** When a token counts as bound: both files closed to others, no state pending, and the very pair asked for. */
  lemma MatchesIff(disk: Disk, serial: string, region: string)
    ensures AuthMatches(disk, serial, region) && Ready(disk) <==>
            && disk.token.Some? && disk.tokenPrivate && disk.token.value.hasSession
            && disk.auth.Some? && disk.authPrivate && disk.auth.value.state == ""
            && Strip(serial) != "" && SameUpToCase(Strip(disk.auth.value.serial), Strip(serial))
            && NormalizeRegion(region).Some? && NormalizeRegion(disk.auth.value.region) == NormalizeRegion(region)
  {
    if disk.auth.Some? {
      SameSerialIff(disk.auth.value.serial, serial);
    }
    hide Strip, NormalizeRegion, SameUpToCase;
  }

  // ---------------------------------------------------------------- interleavings

  /** The request holding the lock, and how many of its replacements are done. */
  datatype Active = Active(request: Request, pc: nat)

  datatype World = World(disk: Disk, active: Option<Active>)

  /** A lock holder begins, makes its next replacement, ends normally, or dies; the kernel then drops the lock. */
  datatype Action = Begin(request: Request) | Step | End | Die

  predicate Enabled(w: World, a: Action) {
    match a
    case Begin(q) => Valid(q) && w.active.None?
    case Step => w.active.Some? && w.active.value.pc < REPLACEMENTS && Valid(w.active.value.request)
    case End => w.active.Some? && w.active.value.pc == REPLACEMENTS
    case Die => w.active.Some?
  }

  function Apply(w: World, a: Action): World
    requires Enabled(w, a)
  {
    match a
    case Begin(q) => World(w.disk, Some(Active(q, 0)))
    case Step =>
      var s := w.active.value;
      World(Replace(w.disk, s.request, s.pc), Some(Active(s.request, s.pc + 1)))
    case End => World(w.disk, None)
    case Die => World(w.disk, None)
  }

  /** The world after a trace, None when the trace cannot happen. */
  function After(w: World, trace: seq<Action>): Option<World> {
    if trace == [] then Some(w)
    else
      var before := After(w, trace[..|trace| - 1]);
      if before.Some? && Enabled(before.value, trace[|trace| - 1]) then Some(Apply(before.value, trace[|trace| - 1]))
      else None
  }

  predicate SameIdentity(q: Request, serial: string, region: string) {
    NormalizeSerial(q.serial) == NormalizeSerial(serial) && NormalizeRegion(q.region) == NormalizeRegion(region)
  }

  /** Some transaction of the trace was asked to persist this token for this camera and region. */
  ghost predicate PersistedFor(trace: seq<Action>, token: Token, serial: string, region: string) {
    exists k: nat :: k < |trace| && trace[k].Begin? && trace[k].request.token == token
                     && SameIdentity(trace[k].request, serial, region)
  }

  ghost predicate Begun(trace: seq<Action>, q: Request) {
    exists k: nat :: k < |trace| && trace[k] == Begin(q)
  }

  /**
   * No auth state without a marker but from a request whose token is the one on disk; while a transaction is
   * between its first and last replacement, the auth file says so.
   */
  ghost predicate Inv(w: World, trace: seq<Action>) {
    && (w.disk.auth.Some? && w.disk.auth.value.state == "" ==>
          exists k: nat :: k < |trace| && trace[k].Begin? && Valid(trace[k].request)
                           && w.disk.auth.value == Bound(trace[k].request)
                           && w.disk.token == Some(trace[k].request.token))
    && (w.active.Some? ==>
          var s := w.active.value;
          && Valid(s.request) && Begun(trace, s.request) && s.pc <= REPLACEMENTS
          && (1 <= s.pc <= 2 ==> w.disk.auth == Some(UPDATING))
          && (s.pc >= 2 ==> w.disk.token == Some(s.request.token))
          && (s.pc == 3 ==> w.disk.auth == Some(Bound(s.request))))
  }

  lemma StepKeepsInv(w: World, trace: seq<Action>, a: Action)
    requires Inv(w, trace) && Enabled(w, a)
    ensures Inv(Apply(w, a), trace + [a])
  {
    hide Valid, Bound;
    var trace', w' := trace + [a], Apply(w, a);
    assert forall k: nat :: k < |trace| ==> trace'[k] == trace[k];
    if a.Begin? {
      assert trace'[|trace|] == a;
      assert Begun(trace', a.request);
    } else if w.active.Some? {
      var k: nat :| k < |trace| && trace[k] == Begin(w.active.value.request);
      assert trace'[k] == Begin(w.active.value.request);
    }
    if w'.disk.auth.Some? && w'.disk.auth.value.state == "" {
      if a.Step? {
        assert w.active.value.pc == 2 by {
          BoundIsClear(w.active.value.request);
        }
        var k: nat :| k < |trace| && trace[k] == Begin(w.active.value.request);
        assert trace'[k].request == w.active.value.request;
      } else {
        var k: nat :| k < |trace| && trace[k].Begin? && Valid(trace[k].request)
                      && w.disk.auth.value == Bound(trace[k].request) && w.disk.token == Some(trace[k].request.token);
        assert trace'[k] == trace[k];
      }
    }
  }

  lemma BoundIsClear(q: Request)
    requires Valid(q)
    ensures Bound(q).state == "" && UPDATING.state != ""
  {
  }

  lemma {:induction false} RunKeepsInv(w: World, trace: seq<Action>)
    requires Inv(w, []) && After(w, trace).Some?
    ensures Inv(After(w, trace).value, trace)
  {
    hide Inv, Apply, Enabled;
    if trace != [] {
      var init := trace[..|trace| - 1];
      RunKeepsInv(w, init);
      StepKeepsInv(After(w, init).value, init, trace[|trace| - 1]);
      assert init + [trace[|trace| - 1]] == trace;
    }
  }

  /** A disk whose auth file is absent, or carries a state such as an unbound import. */
  predicate NothingBound(disk: Disk) {
    disk.auth.None? || disk.auth.value.state != ""
  }

  /**
   * Over every interleaving of transactions and deaths: if the auth file matches a camera and region, the
   * token on disk is one that was persisted for that camera and region.
   */
  lemma MatchMeansPersisted(disk: Disk, trace: seq<Action>, serial: string, region: string)
    requires NothingBound(disk) && After(World(disk, None), trace).Some?
    requires AuthMatches(After(World(disk, None), trace).value.disk, serial, region)
    ensures var now := After(World(disk, None), trace).value.disk;
            now.token.Some? && PersistedFor(trace, now.token.value, serial, region)
  {
    RunKeepsInv(World(disk, None), trace);
    var now := After(World(disk, None), trace).value.disk;
    var k: nat :| k < |trace| && trace[k].Begin? && Valid(trace[k].request)
                  && now.auth.value == Bound(trace[k].request) && now.token == Some(trace[k].request.token);
    var q := trace[k].request;
    SerialIsStable(q.serial);
    RegionIsStable(q.region);
    assert SameIdentity(q, serial, region);
  }

  /** An uninterrupted transaction, from any disk, leaves exactly its own pair matching and its token ready. */
  lemma UninterruptedBinds(disk: Disk, q: Request, serial: string, region: string)
    requires Valid(q) && NormalizeRegion(region).Some? && NormalizeSerial(serial) != ""
    ensures var now := ReplaceUpTo(disk, q, REPLACEMENTS);
            && now.token == Some(q.token) && Ready(now)
            && (AuthMatches(now, serial, region) <==> SameIdentity(q, serial, region))
  {
    assert ReplaceUpTo(disk, q, 1) == Replace(disk, q, 0);
    assert ReplaceUpTo(disk, q, 2) == Replace(ReplaceUpTo(disk, q, 1), q, 1);
    assert ReplaceUpTo(disk, q, 3) == Replace(ReplaceUpTo(disk, q, 2), q, 2);
    SerialIsStable(q.serial);
    RegionIsStable(q.region);
  }

  /** A transaction cut off after the first replacement and before the last leaves nothing matching. */
  lemma InterruptedMatchesNothing(disk: Disk, q: Request, survives: nat, serial: string, region: string)
    requires Valid(q) && 1 <= survives < REPLACEMENTS
    ensures !AuthMatches(ReplaceUpTo(disk, q, survives), serial, region)
  {
    assert ReplaceUpTo(disk, q, 1) == Replace(disk, q, 0);
    if survives == 2 {
      assert ReplaceUpTo(disk, q, 2) == Replace(ReplaceUpTo(disk, q, 1), q, 1);
    }
  }

  /** The trace of one transaction that makes `survives` replacements; it ends as the method leaves the disk. */
  function TransactionTrace(q: Request, survives: nat): seq<Action>
    requires survives <= REPLACEMENTS
  {
    if survives == 0 then [Begin(q)] else TransactionTrace(q, survives - 1) + [Step]
  }

  lemma {:induction false} TraceReaches(disk: Disk, q: Request, survives: nat)
    requires Valid(q) && survives <= REPLACEMENTS
    ensures After(World(disk, None), TransactionTrace(q, survives)) ==
            Some(World(ReplaceUpTo(disk, q, survives), Some(Active(q, survives))))
  {
    hide Valid, Replace;
    var w := World(disk, None);
    if survives == 0 {
      assert After(w, []) == Some(w);
      assert [Begin(q)][..0] == [];
    } else {
      var init := TransactionTrace(q, survives - 1);
      TraceReaches(disk, q, survives - 1);
      assert (init + [Step])[..|init|] == init;
    }
  }
}
