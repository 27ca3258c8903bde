/** Admission of scarce transfer capacity: internal/job/governor.go. */
module Governor {
  import opened Text
  import opened Jobs

  const DEFAULT_GLOBAL_LIMIT := 3
  const DEFAULT_YTDLP_LIMIT := 2

  type Engine = string

  datatype Acquire = Granted | AlreadyHeld | Refused | NoJobId

  // ---------- the accounting as values ----------

  /** What the governor remembers; usage is derived from the leases. */
  datatype Ledger = Ledger(globalLimit: int, engineLimits: map<Engine, int>, leases: map<JobId, Engine>)

  function HoldersOf(leases: map<JobId, Engine>, e: Engine): set<JobId> {
    set j | j in leases && leases[j] == e
  }

  function Usage(leases: map<JobId, Engine>, e: Engine): nat {
    |HoldersOf(leases, e)|
  }

  /** The global limit, given the answer of globalLimitFn if one is installed. */
  function EffectiveGlobal(fallback: int, dynamic: Option<int>): (n: int)
    ensures n > 0
  {
    if dynamic.Some? && dynamic.value > 0 then dynamic.value
    else if fallback > 0 then fallback
    else DEFAULT_GLOBAL_LIMIT
  }

  function EffectiveEngine(limits: map<Engine, int>, fallback: int, dynamic: Option<int>, e: Engine): (n: int)
    ensures n > 0
  {
    if e in limits && limits[e] > 0 then limits[e] else EffectiveGlobal(fallback, dynamic)
  }

  predicate Admissible(l: Ledger, e: Engine, dynamic: Option<int>) {
    && |l.leases| < EffectiveGlobal(l.globalLimit, dynamic)
    && (e != "" ==> Usage(l.leases, e) < EffectiveEngine(l.engineLimits, l.globalLimit, dynamic, e))
  }

  /** Fewer than the global limit: a positive answer of globalLimitFn wins, then the stored limit,
      then 3. */
  predicate BelowGlobal(n: int, stored: int, dynamic: Option<int>) {
    && (dynamic.Some? && dynamic.value > 0 ==> n < dynamic.value)
    && ((dynamic.Some? ==> dynamic.value <= 0) && stored > 0 ==> n < stored)
    && ((dynamic.Some? ==> dynamic.value <= 0) && stored <= 0 ==> n < 3)
  }

  /** There is room for one more transfer on e: below the global limit in all, and on e below the
      engine's own limit, or else below the global one again. */
  predicate HasRoom(l: Ledger, e: Engine, dynamic: Option<int>) {
    && BelowGlobal(|l.leases|, l.globalLimit, dynamic)
    && (e != "" && e in l.engineLimits && l.engineLimits[e] > 0 ==> Usage(l.leases, e) < l.engineLimits[e])
    && (e != "" && (e in l.engineLimits ==> l.engineLimits[e] <= 0) ==>
          BelowGlobal(Usage(l.leases, e), l.globalLimit, dynamic))
  }

  datatype Op =
    | TryAcquireOp(job: JobId, engine: Engine, dynamic: Option<int>)
    | ReleaseOp(job: JobId)
    | ReconstructOp(job: JobId, engine: Engine, status: JobStatus)
    | SetGlobalOp(limit: int)
    | SetEngineOp(engine: Engine, limit: int)

  predicate ConsumesTransfer(s: JobStatus) {
    s == Downloading || s == Processing
  }

  function Step(l: Ledger, op: Op): Ledger {
    match op
    case TryAcquireOp(j, e, dyn) =>
      if j != "" && j !in l.leases && Admissible(l, e, dyn) then l.(leases := l.leases[j := e]) else l
    case ReleaseOp(j) => l.(leases := l.leases - {j})
    case ReconstructOp(j, e, s) =>
      if j != "" && j !in l.leases && ConsumesTransfer(s) then l.(leases := l.leases[j := e]) else l
    case SetGlobalOp(n) => l.(globalLimit := if n <= 0 then DEFAULT_GLOBAL_LIMIT else n)
    case SetEngineOp(e, n) =>
      if e == "" then l
      else if n > 0 then l.(engineLimits := l.engineLimits[e := n])
      else l.(engineLimits := l.engineLimits - {e})
  }

  ghost function Run(l: Ledger, ops: seq<Op>): Ledger
    decreases |ops|
  {
    if ops == [] then l else Run(Step(l, ops[0]), ops[1..])
  }

  // ---------- the object ----------

  function Count(m: map<Engine, int>, e: Engine): int {
    if e in m then m[e] else 0
  }

  function ClampZero(n: int): int {
    if n < 0 then 0 else n
  }

  /** One lease more or less on engine e; leases without an engine are not counted. */
  function Adjusted(m: map<Engine, int>, e: Engine, delta: int): map<Engine, int> {
    if e == "" then m else m[e := ClampZero(Count(m, e) + delta)]
  }

  /** Every per-engine counter is the number of leases with that engine. */
  ghost predicate Tallied(m: map<Engine, int>, leases: map<JobId, Engine>) {
    "" !in m && forall e :: e != "" ==> Count(m, e) == Usage(leases, e)
  }

  class ResourceGovernor {
    var globalTransferLimit: int
    var engineLimits: map<Engine, int>
    var leases: map<JobId, Engine>
    var activeTransfers: int
    var activePerEngine: map<Engine, int>

    /** The counters agree with the leases. */
    ghost predicate Valid() reads this {
      && activeTransfers == |leases|
      && Tallied(activePerEngine, leases)
      && "" !in leases
    }

    ghost function State(): Ledger reads this {
      Ledger(globalTransferLimit, engineLimits, leases)
    }

    constructor (globalLimit: int, limits: map<Engine, int>)
      ensures Valid() && leases == map[]
      ensures globalTransferLimit == if globalLimit <= 0 then 3 else globalLimit
      ensures forall e :: e in limits && limits[e] > 0 ==> e in engineLimits && engineLimits[e] == limits[e]
      ensures forall e :: e in engineLimits ==> e == "ytdlp" || (e in limits && limits[e] > 0)
      ensures "ytdlp" in engineLimits
      ensures ("ytdlp" in limits ==> limits["ytdlp"] <= 0) ==> engineLimits["ytdlp"] == 2
    {
      globalTransferLimit := if globalLimit <= 0 then DEFAULT_GLOBAL_LIMIT else globalLimit;
      var el := map e | e in limits && limits[e] > 0 :: limits[e];
      engineLimits := if "ytdlp" in el then el else el["ytdlp" := DEFAULT_YTDLP_LIMIT];
      leases, activeTransfers, activePerEngine := map[], 0, map[];
      new;
      forall e | e != "" ensures Count(activePerEngine, e) == Usage(leases, e) {
        assert HoldersOf(leases, e) == {};
      }
    }

    function CanAdmit(e: Engine, dynamic: Option<int>): (ok: bool)
      requires Valid()
      reads this
      ensures ok <==> Admissible(State(), e, dynamic)
      ensures ok <==> HasRoom(State(), e, dynamic)
    {
      if activeTransfers >= EffectiveGlobal(globalTransferLimit, dynamic) then false
      else
        var limit := EffectiveEngine(engineLimits, globalTransferLimit, dynamic, e);
        if e != "" && Count(activePerEngine, e) >= limit then false else true
    }

    method TryAcquire(job: JobId, e: Engine, dynamic: Option<int>) returns (r: Acquire)
      requires Valid()
      modifies this
      ensures Valid()
      ensures State() == Step(old(State()), TryAcquireOp(job, e, dynamic))
      ensures r == if job == "" then NoJobId
                   else if job in old(leases) then AlreadyHeld
                   else if HasRoom(old(State()), e, dynamic) then Granted else Refused
      ensures leases == if r == Granted then old(leases)[job := e] else old(leases)
      ensures globalTransferLimit == old(globalTransferLimit) && engineLimits == old(engineLimits)
      ensures r != Granted ==>
        State() == old(State()) && activeTransfers == old(activeTransfers) && activePerEngine == old(activePerEngine)
    {
      if job == "" { return NoJobId; }
      if job in leases { return AlreadyHeld; }
      if !CanAdmit(e, dynamic) { return Refused; }
      GrantCounts(activePerEngine, leases, job, e);
      activeTransfers := activeTransfers + 1;
      activePerEngine := Adjusted(activePerEngine, e, 1);
      leases := leases[job := e];
      r := Granted;
    }

    method Release(job: JobId) returns (released: bool)
      requires Valid()
      modifies this
      ensures Valid()
      ensures State() == Step(old(State()), ReleaseOp(job)) && leases == old(leases) - {job}
      ensures released == (job in old(leases))
      ensures released ==> activeTransfers == old(activeTransfers) - 1
    {
      if job == "" || job !in leases {
        assert leases - {job} == leases;
        return false;
      }
      var e := leases[job];
      ReleaseCounts(activePerEngine, leases, job);
      leases := leases - {job};
      activeTransfers := ClampZero(activeTransfers - 1);
      activePerEngine := Adjusted(activePerEngine, e, -1);
      released := true;
    }

    method ReconstructJob(job: JobId, e: Engine, status: JobStatus) returns (added: bool)
      requires Valid()
      modifies this
      ensures Valid()
      ensures State() == Step(old(State()), ReconstructOp(job, e, status))
      ensures added <==> job != "" && job !in old(leases) && status in {Downloading, Processing}
      ensures leases == if added then old(leases)[job := e] else old(leases)
    {
      if job == "" || job in leases { return false; }
      match status {
        case Downloading | Processing =>
          GrantCounts(activePerEngine, leases, job, e);
          activeTransfers := activeTransfers + 1;
          activePerEngine := Adjusted(activePerEngine, e, 1);
        case _ => return false;
      }
      leases := leases[job := e];
      added := true;
    }

    method SetGlobalTransferLimit(limit: int)
      requires Valid()
      modifies this`globalTransferLimit
      ensures Valid() && State() == Step(old(State()), SetGlobalOp(limit))
      ensures globalTransferLimit == if limit <= 0 then 3 else limit
    {
      globalTransferLimit := if limit <= 0 then DEFAULT_GLOBAL_LIMIT else limit;
    }

    method SetEngineLimit(e: Engine, limit: int)
      requires Valid()
      modifies this`engineLimits
      ensures Valid() && State() == Step(old(State()), SetEngineOp(e, limit))
      ensures e == "" ==> engineLimits == old(engineLimits)
      ensures e != "" ==> engineLimits == if limit > 0 then old(engineLimits)[e := limit] else old(engineLimits) - {e}
    {
      if e == "" { return; }
      engineLimits := if limit > 0 then engineLimits[e := limit] else engineLimits - {e};
    }
  }

  /** What the manager remembers of an active job. */
  datatype Running = Running(engine: Engine, status: JobStatus)

  /** j must hold a lease after startup, and for this engine. */
  predicate Resumed(active: map<JobId, Running>, j: JobId) {
    j in active && j != "" && active[j].status in {Downloading, Processing}
  }

  /** StartBackgroundTasks, after recovery: the leases are rebuilt from the active jobs, in any
      order and without admission, so that they are exactly the transferring active jobs. */
  method ReconstructActive(g: ResourceGovernor, active: map<JobId, Running>)
    requires g.Valid() && g.leases == map[]
    modifies g
    ensures g.Valid()
    ensures forall j :: j in g.leases <==> Resumed(active, j)
    ensures forall j :: j in g.leases ==> j in active && g.leases[j] == active[j].engine
    ensures g.globalTransferLimit == old(g.globalTransferLimit) && g.engineLimits == old(g.engineLimits)
  {
    var rest := active.Keys;
    while rest != {}
      invariant g.Valid() && rest <= active.Keys
      invariant forall j :: j in g.leases <==> Resumed(active, j) && j !in rest
      invariant forall j :: j in g.leases ==> j in active && g.leases[j] == active[j].engine
      invariant g.globalTransferLimit == old(g.globalTransferLimit) && g.engineLimits == old(g.engineLimits)
      decreases rest
    {
      var j :| j in rest;
      rest := rest - {j};
      var _ := g.ReconstructJob(j, active[j].engine, active[j].status);
    }
  }

  // ---------- counting leases ----------

  lemma SizeGrant(leases: map<JobId, Engine>, job: JobId, e: Engine)
    requires job !in leases
    ensures |leases[job := e]| == |leases| + 1
  {
    assert leases[job := e].Keys == leases.Keys + {job};
  }

  lemma UsageGrant(leases: map<JobId, Engine>, job: JobId, e: Engine, x: Engine)
    requires job !in leases
    ensures Usage(leases[job := e], x) == if x == e then Usage(leases, x) + 1 else Usage(leases, x)
  {
    var before, after := HoldersOf(leases, x), HoldersOf(leases[job := e], x);
    assert job !in before;
    forall j ensures j in after <==> j in before || (x == e && j == job) {}
    if x == e {
      assert after == before + {job};
    } else {
      assert after == before;
    }
  }

  lemma UsageRelease(leases: map<JobId, Engine>, job: JobId, x: Engine)
    requires job in leases
    ensures |leases - {job}| == |leases| - 1
    ensures Usage(leases - {job}, x) == if x == leases[job] then Usage(leases, x) - 1 else Usage(leases, x)
  {
    var after := leases - {job};
    assert after.Keys == leases.Keys - {job};
    if x == leases[job] {
      assert job in HoldersOf(leases, x);
      assert HoldersOf(after, x) == HoldersOf(leases, x) - {job};
    } else {
      assert HoldersOf(after, x) == HoldersOf(leases, x);
    }
  }

  lemma GrantCounts(m: map<Engine, int>, leases: map<JobId, Engine>, job: JobId, e: Engine)
    requires job !in leases && Tallied(m, leases)
    ensures |leases[job := e]| == |leases| + 1
    ensures Tallied(Adjusted(m, e, 1), leases[job := e])
  {
    SizeGrant(leases, job, e);
    forall x | x != "" ensures Count(Adjusted(m, e, 1), x) == Usage(leases[job := e], x) {
      UsageGrant(leases, job, e, x);
    }
  }

  /** Giving a lease back keeps the tallies, and no counter is clamped while doing so. */
  lemma ReleaseCounts(m: map<Engine, int>, leases: map<JobId, Engine>, job: JobId)
    requires job in leases && Tallied(m, leases)
    ensures |leases - {job}| == |leases| - 1
    ensures Tallied(Adjusted(m, leases[job], -1), leases - {job})
    ensures leases[job] != "" ==> Count(m, leases[job]) - 1 >= 0
  {
    UsageRelease(leases, job, leases[job]);
    forall x | x != "" ensures Count(Adjusted(m, leases[job], -1), x) == Usage(leases - {job}, x) {
      UsageRelease(leases, job, x);
    }
  }

  // ---------- whole runs ----------

  /** The run reconstructs nothing, and every acquire in it sees a global limit of at most
      bound and, for engine e, an engine limit of at most engineBound. */
  ghost predicate LimitsWithin(l: Ledger, ops: seq<Op>, bound: nat, e: Engine, engineBound: nat)
    decreases |ops|
  {
    ops != [] ==>
      && !ops[0].ReconstructOp?
      && (ops[0].TryAcquireOp? ==>
            && !BelowGlobal(bound, l.globalLimit, ops[0].dynamic)
            && (if e in l.engineLimits && l.engineLimits[e] > 0 then l.engineLimits[e] <= engineBound
                else !BelowGlobal(engineBound, l.globalLimit, ops[0].dynamic)))
      && LimitsWithin(Step(l, ops[0]), ops[1..], bound, e, engineBound)
  }

  function Max(a: int, b: int): int { if a > b then a else b }

  /** However acquires, releases and limit changes interleave, usage above a limit never
      grows, and usage below it never passes it. */
  lemma {:induction false} UsageNeverGrowsPastLimits(l: Ledger, ops: seq<Op>, bound: nat, e: Engine, engineBound: nat)
    requires e != "" && LimitsWithin(l, ops, bound, e, engineBound)
    ensures |Run(l, ops).leases| <= Max(|l.leases|, bound)
    ensures Usage(Run(l, ops).leases, e) <= Max(Usage(l.leases, e), engineBound)
    decreases |ops|
  {
    if ops != [] {
      var m := Step(l, ops[0]);
      UsageNeverGrowsPastLimits(m, ops[1..], bound, e, engineBound);
      match ops[0] {
        case TryAcquireOp(j, x, _) =>
          if m != l { SizeGrant(l.leases, j, x); UsageGrant(l.leases, j, x, e); }
        case ReleaseOp(j) =>
          if j in l.leases { UsageRelease(l.leases, j, e); } else { assert l.leases - {j} == l.leases; }
        case _ =>
      }
    }
  }

  /** In particular an engine's own limit is kept for as long as nobody sets it, whatever happens to
      the global one. */
  lemma {:induction false} EngineLimitHolds(l: Ledger, ops: seq<Op>, e: Engine)
    requires e != "" && e in l.engineLimits && Usage(l.leases, e) <= l.engineLimits[e]
    requires forall op :: op in ops ==> !op.ReconstructOp? && (op.SetEngineOp? ==> op.engine != e)
    requires l.engineLimits[e] > 0
    ensures e in Run(l, ops).engineLimits && Run(l, ops).engineLimits[e] == l.engineLimits[e]
    ensures Usage(Run(l, ops).leases, e) <= l.engineLimits[e]
    decreases |ops|
  {
    if ops != [] {
      match ops[0] {
        case TryAcquireOp(j, x, dyn) =>
          if j !in l.leases { UsageGrant(l.leases, j, x, e); }
        case ReleaseOp(j) =>
          if j in l.leases { UsageRelease(l.leases, j, e); } else { assert l.leases - {j} == l.leases; }
        case _ =>
      }
      EngineLimitHolds(Step(l, ops[0]), ops[1..], e);
    }
  }

  /** Releasing an acquired job restores the ledger it was acquired from. */
  lemma AcquireThenRelease(l: Ledger, j: JobId, e: Engine, dyn: Option<int>)
    requires j !in l.leases
    ensures Run(l, [TryAcquireOp(j, e, dyn), ReleaseOp(j)]) == l
  {
    var a := Step(l, TryAcquireOp(j, e, dyn));
    assert a.leases - {j} == l.leases;
    assert [TryAcquireOp(j, e, dyn), ReleaseOp(j)][1..] == [ReleaseOp(j)];
    assert Run(a, [ReleaseOp(j)]) == Run(Step(a, ReleaseOp(j)), []);
  }
}
