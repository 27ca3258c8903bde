/** The queue scheduler: internal/job/scheduler.go, with internal/database/queue_repository.go's
    ListRunnable and the steps of internal/job/manager.go that touch leases and the active set.

    The scheduler runs in one goroutine.  Everything else that can happen (other goroutines
    writing the store, Manager.removeActive, repository errors, engine answers, the clock, the
    outcome of a dispatch) is read off one arbitrary script env, one answer per question. */
module Scheduler {
  import opened Text
  import opened Jobs
  import opened Ranking
  import opened Governor

  datatype JobRow = JobRow(status: JobStatus, engine: Engine, priority: string, engineId: string)

  datatype QueueEntry = QueueEntry(
    position: int, action: QueueAction, retryCount: int, notBefore: Option<int>, enqueuedAt: int, updatedAt: int)

  datatype Store = Store(jobs: map<JobId, JobRow>, queue: map<JobId, QueueEntry>)

  /** What dispatchFn reports back. */
  datatype Outcome =
    | Started(engineId: string)
    | Handled                        // failure already persisted by the manager
    | EngineError                    // nothing persisted
    | StateLost                      // failure not persisted: state_persistence
    | ExecutionLost(engineId: string) // engine runs, DOWNLOADING not persisted: external_execution

  /** A concurrent step of the manager that gives a lease back. */
  datatype Departure = RemoveActive(id: JobId) | ReleaseOnly(id: JobId)

  datatype Answer = Answer(
    written: Option<Store>,
    joined: set<JobId>,
    departures: seq<Departure>,
    timerFires: bool,
    stop: bool,
    ok: bool,
    clock: int,
    dynamicLimit: Option<int>,
    outcome: Outcome,
    engineStatus: Option<JobStatus>)

  /** The store answers and nobody else writes it. */
  predicate Reliable(a: Answer) {
    a.ok && a.written == None
  }

  datatype Kind = ExternalExecution | StatePersistence

  datatype Reservation = Reservation(
    action: QueueAction, engineId: string, dirty: bool, kind: Kind, target: FailureStatus)

  /** A failed dispatch ends in one of these. */
  type FailureStatus = s: JobStatus | s == Failed || s == Paused witness Failed

  datatype PassEnd = Stopped | RetryPending | ListFailed | NothingRunnable | Saturated | PersistenceStop

  datatype DispatchEnd = Continue | PersistenceFailed

  predicate IsRecoverable(s: JobStatus) {
    s == Queued || s == Downloading || s == Paused || s == Analyzing || s == AwaitingSelection || s == Seeding
  }

  /** The status a failed dispatch is given. */
  function FailureTarget(action: QueueAction): FailureStatus {
    if action == Start then Failed else Paused
  }

  // ---------- the runnable listing ----------

  /** A queued job with a queue entry, whatever its not_before. */
  predicate IsPending(s: Store, id: JobId) {
    id in s.jobs && id in s.queue && s.jobs[id].status == Queued
  }

  ghost function Pending(s: Store): set<JobId> {
    set id | id in s.jobs && IsPending(s, id)
  }

  predicate Runnable(s: Store, now: int, id: JobId) {
    IsPending(s, id) && (s.queue[id].notBefore == None || s.queue[id].notBefore.value <= now)
  }

  function Joined(s: Store, id: JobId): QueuedJob
    requires id in s.jobs && id in s.queue
  {
    var e := s.queue[id];
    QueuedJob(id, e.position, e.action, e.notBefore, e.enqueuedAt, e.updatedAt, s.jobs[id].priority, s.jobs[id].engine)
  }

  ghost predicate StrictlyRanked(r: seq<QueuedJob>, now: int) {
    forall i, j :: 0 <= i < j < |r| ==> Compare(r[i], r[j], now, DEFAULT_AGING) < 0
  }

  /** r is the whole runnable queue, each job once, best first. */
  ghost predicate Listing(r: seq<QueuedJob>, s: Store, now: int) {
    && DistinctIds(r)
    && StrictlyRanked(r, now)
    && (forall q :: q in r ==> Runnable(s, now, q.jobId) && q == Joined(s, q.jobId))
    && (forall id :: Runnable(s, now, id) ==> Joined(s, id) in r)
  }

  /** A queued job whose queue entry has come of age. */
  ghost predicate Due(s: Store, now: int, id: JobId) {
    && id in s.jobs && s.jobs[id].status == Queued && id in s.queue
    && (s.queue[id].notBefore.Some? ==> s.queue[id].notBefore.value <= now)
  }

  /** q is the row and the entry of its job. */
  ghost predicate Joins(q: QueuedJob, s: Store)
    requires q.jobId in s.jobs && q.jobId in s.queue
  {
    var row, e := s.jobs[q.jobId], s.queue[q.jobId];
    && q.priority == row.priority && q.engine == row.engine && q.position == e.position && q.action == e.action
    && q.notBefore == e.notBefore && q.enqueuedAt == e.enqueuedAt && q.updatedAt == e.updatedAt
  }

  method ListRunnable(s: Store, now: int) returns (r: seq<QueuedJob>)
    ensures Listing(r, s, now)
    ensures forall q :: q in r ==> Due(s, now, q.jobId) && Joins(q, s)
    ensures forall id :: Due(s, now, id) ==> exists q :: q in r && q.jobId == id
  {
    var candidates: seq<QueuedJob> := [];
    var rest := s.jobs.Keys;
    while rest != {}
      invariant rest <= s.jobs.Keys
      invariant DistinctIds(candidates)
      invariant forall q :: q in candidates ==>
        q.jobId !in rest && Runnable(s, now, q.jobId) && q == Joined(s, q.jobId)
      invariant forall id :: Runnable(s, now, id) && id !in rest ==> Joined(s, id) in candidates
      decreases rest
    {
      var id :| id in rest;
      rest := rest - {id};
      if Runnable(s, now, id) {
        candidates := candidates + [Joined(s, id)];
      }
    }
    RankedStrict(candidates, now, DEFAULT_AGING);
    r := Ranked(candidates, now, DEFAULT_AGING);
    forall id | Due(s, now, id) ensures exists q :: q in r && q.jobId == id { assert Joined(s, id) in r; }
  }

  // ---------- one scan of the listing ----------

  /** A record of one scan: the store it listed, the reservations then held, and the ledger
      and dynamic limit each candidate met in turn. */
  datatype Scan = Scan(
    store: Store, now: int, listing: seq<QueuedJob>, reserved: set<JobId>,
    ledgers: seq<Ledger>, limits: seq<Option<int>>)

  ghost predicate WellFormed(d: Scan) {
    |d.ledgers| == |d.limits| <= |d.listing|
  }

  /** Candidate i was passed over: already reserved, or refused by the governor it met. */
  ghost predicate Passed(d: Scan, i: nat)
    requires i < |d.listing| && i < |d.ledgers| == |d.limits|
  {
    var q := d.listing[i];
    || q.jobId in d.reserved
    || q.jobId == ""
    || (q.jobId !in d.ledgers[i].leases && !Admissible(d.ledgers[i], q.engine, d.limits[i]))
  }

  ghost predicate Admitted(d: Scan, i: nat)
    requires i < |d.listing| && i < |d.ledgers| == |d.limits|
  {
    var q := d.listing[i];
    q.jobId in d.ledgers[i].leases || Admissible(d.ledgers[i], q.engine, d.limits[i])
  }

  /** During a scan leases only go away. */
  ghost predicate OnlyReleases(ls: seq<Ledger>) {
    forall i, j :: 0 <= i <= j < |ls| ==> Within(ls[j], ls[i])
  }

  ghost predicate Within(a: Ledger, b: Ledger) {
    forall id :: id in a.leases ==> id in b.leases && a.leases[id] == b.leases[id]
  }

  /** The last candidate tried was admitted and every better-ranked one passed over. */
  ghost predicate GoodDecision(d: Scan) {
    && WellFormed(d) && OnlyReleases(d.ledgers)
    && 0 < |d.ledgers|
    && (forall i :: 0 <= i < |d.ledgers| - 1 ==> Passed(d, i))
    && Admitted(d, |d.ledgers| - 1)
  }

  /** The whole listing was tried in vain. */
  ghost predicate AllPassed(d: Scan) {
    && WellFormed(d) && OnlyReleases(d.ledgers)
    && |d.ledgers| == |d.listing|
    && (forall i :: 0 <= i < |d.ledgers| ==> Passed(d, i))
  }

  ghost function Attempted(d: Scan, l: Ledger, limit: Option<int>): Scan {
    d.(ledgers := d.ledgers + [l], limits := d.limits + [limit])
  }

  /** Every candidate tried so far was passed over. */
  ghost predicate SoFar(d: Scan) {
    WellFormed(d) && OnlyReleases(d.ledgers) && forall k :: 0 <= k < |d.ledgers| ==> Passed(d, k)
  }

  lemma ReleasesExtend(ls: seq<Ledger>, l: Ledger)
    requires OnlyReleases(ls) && (ls != [] ==> Within(l, ls[|ls| - 1]))
    ensures OnlyReleases(ls + [l])
  {
    var r := ls + [l];
    forall i, j | 0 <= i <= j < |r| ensures Within(r[j], r[i]) {
      if j == |ls| && i < j { assert Within(ls[|ls| - 1], ls[i]); }
    }
  }

  /** One candidate more either was passed over too, or is the decision. */
  lemma ScanExtends(d: Scan, l: Ledger, limit: Option<int>)
    requires SoFar(d) && |d.ledgers| < |d.listing|
    requires d.ledgers != [] ==> Within(l, d.ledgers[|d.ledgers| - 1])
    ensures var next := Attempted(d, l, limit);
            && (Passed(next, |d.ledgers|) ==> SoFar(next))
            && (Admitted(next, |d.ledgers|) ==> GoodDecision(next))
  {
    ReleasesExtend(d.ledgers, l);
    forall k | 0 <= k < |d.ledgers| ensures Passed(Attempted(d, l, limit), k) {
      assert Passed(d, k);
    }
  }

  /** A decision taken on the full ranked listing with nothing reserved. */
  ghost predicate Decided(d: Scan) {
    GoodDecision(d) && d.reserved == {} && Listing(d.listing, d.store, d.now)
  }

  /** The last candidate a scan tried. */
  function Chosen(d: Scan): QueuedJob
    requires 0 < |d.ledgers| <= |d.listing|
  {
    d.listing[|d.ledgers| - 1]
  }

  datatype Mark = Scanned(scan: Scan) | Dispatched(job: QueuedJob)

  /** A scan on the trail is a decision, and dispatchFn is called right after one, with the job it
      chose. */
  ghost predicate Justified(trail: seq<Mark>, k: nat)
    requires k < |trail|
  {
    match trail[k]
    case Scanned(d) => Decided(d)
    case Dispatched(q) => k > 0 && trail[k - 1].Scanned? && Decided(trail[k - 1].scan) && q == Chosen(trail[k - 1].scan)
  }

  /** One decision more, with or without the dispatch it leads to. */
  ghost predicate Continues(before: seq<Mark>, after: seq<Mark>, d: Scan)
    requires Decided(d)
  {
    after == before + [Scanned(d)] || after == before + [Scanned(d)] + [Dispatched(Chosen(d))]
  }

  /** One decision more, and the dispatch it leads to. */
  ghost predicate Acted(before: seq<Mark>, after: seq<Mark>, d: Scan) {
    Decided(d) && after == before + [Scanned(d)] + [Dispatched(Chosen(d))]
  }

  /** A decision is followed by the dispatch of the job it chose. */
  ghost predicate FollowedUp(trail: seq<Mark>, k: nat)
    requires k < |trail|
  {
    trail[k].Scanned? ==>
      Decided(trail[k].scan) && k + 1 < |trail| && trail[k + 1] == Dispatched(Chosen(trail[k].scan))
  }

  /** dispatchFn was called for id since mark n. */
  ghost predicate DispatchedSince(trail: seq<Mark>, n: nat, id: JobId) {
    exists k :: n <= k < |trail| && trail[k].Dispatched? && trail[k].job.jobId == id
  }

  lemma ActedFollowsUp(n: nat, before: seq<Mark>, after: seq<Mark>, d: Scan)
    requires n <= |before| && Acted(before, after, d)
    requires forall k :: n <= k < |before| ==> FollowedUp(before, k)
    ensures forall k :: n <= k < |after| ==> FollowedUp(after, k)
    ensures DispatchedSince(after, n, Chosen(d).jobId)
    ensures forall id :: DispatchedSince(before, n, id) ==> DispatchedSince(after, n, id)
  {
    assert after[|before| + 1] == Dispatched(Chosen(d));
    forall k | n <= k < |after| ensures FollowedUp(after, k) {
      if k < |before| { assert FollowedUp(before, k); }
    }
    forall id | DispatchedSince(before, n, id) ensures DispatchedSince(after, n, id) {
      var k :| n <= k < |before| && before[k].Dispatched? && before[k].job.jobId == id;
      assert after[k] == before[k];
    }
  }

  lemma JustifiedContinues(old0: nat, before: seq<Mark>, after: seq<Mark>, d: Scan)
    requires Decided(d) && Continues(before, after, d)
    requires forall k :: old0 <= k < |before| ==> Justified(before, k)
    ensures forall k :: old0 <= k < |after| ==> Justified(after, k)
  {
    forall k | old0 <= k < |after| ensures Justified(after, k) {
      if k < |before| { assert Justified(before, k); }
    }
  }

  lemma StillGovernorAdmitsEngine(d: Scan, k: nat, c: nat)
    requires WellFormed(d) && k < |d.ledgers| && c < |d.ledgers|
    requires d.ledgers[k] == d.ledgers[c] && d.limits[k] == d.limits[c] && d.listing[k].engine == d.listing[c].engine
    requires Admitted(d, c) && d.listing[c].jobId !in d.ledgers[c].leases
    ensures Passed(d, k) ==> d.listing[k].jobId in d.reserved || d.listing[k].jobId == ""
  {}

  /** Two candidates of one engine are never chosen out of rank order: when nothing is reserved
      and the governor stands still during the scan, every other candidate of the chosen
      engine ranks after the chosen one. */
  lemma SameEngineInRankOrder(d: Scan, k: nat)
    requires Decided(d)
    requires k < |d.listing| && k != |d.ledgers| - 1 && d.listing[k].jobId != ""
    requires forall i :: 0 <= i < |d.ledgers| ==> d.ledgers[i] == d.ledgers[0] && d.limits[i] == d.limits[0]
    requires var c := d.listing[|d.ledgers| - 1];
             d.listing[k].engine == c.engine && c.jobId !in d.ledgers[0].leases
    ensures Compare(d.listing[|d.ledgers| - 1], d.listing[k], d.now, DEFAULT_AGING) < 0
  {
    if k < |d.ledgers| {
      StillGovernorAdmitsEngine(d, k, |d.ledgers| - 1);
    }
  }

  predicate SameLimits(d: Scan, i: nat, k: nat)
    requires i < |d.ledgers| == |d.limits| && k < |d.ledgers|
  {
    && d.limits[i] == d.limits[k] && d.ledgers[i].globalLimit == d.ledgers[k].globalLimit
    && d.ledgers[i].engineLimits == d.ledgers[k].engineLimits
  }

  /** Without standing still: a better-ranked candidate of the chosen engine is passed over only if a
      limit changed or a lease was given back between its turn and the chosen one's. */
  lemma PassedOverMeansChange(d: Scan, k: nat)
    requires Decided(d) && k < |d.ledgers| - 1 && d.listing[k].jobId != ""
    requires d.listing[k].engine == Chosen(d).engine && Chosen(d).jobId !in d.ledgers[|d.ledgers| - 1].leases
    ensures !SameLimits(d, k, |d.ledgers| - 1)
            || exists id :: id in d.ledgers[k].leases && id !in d.ledgers[|d.ledgers| - 1].leases
  {
    var c := |d.ledgers| - 1;
    assert Passed(d, k);
    if SameLimits(d, k, c) && forall id :: id in d.ledgers[k].leases ==> id in d.ledgers[c].leases {
      assert Within(d.ledgers[c], d.ledgers[k]);
      assert d.ledgers[k].leases == d.ledgers[c].leases;
      StillGovernorAdmitsEngine(d, k, c);
    }
  }

  /** And that does happen: when another job gives its lease back between the two turns, the second
      of two jobs of one engine goes before the better-ranked first. */
  lemma LeaseGivenBackOvertakes(s: Store, now: int, r: seq<QueuedJob>, other: JobId)
    requires Listing(r, s, now) && |r| >= 2 && r[0].engine == r[1].engine
    requires r[0].jobId != other && r[1].jobId != other && r[0].jobId != ""
    ensures var full, empty := Ledger(1, map[], map[other := r[0].engine]), Ledger(1, map[], map[]);
            var d := Scan(s, now, r, {}, [full, empty], [None, None]);
            Decided(d) && Passed(d, 0) && Chosen(d) == r[1] && Compare(r[0], r[1], now, DEFAULT_AGING) < 0
  {
    var full, empty := Ledger(1, map[], map[other := r[0].engine]), Ledger(1, map[], map[]);
    var d := Scan(s, now, r, {}, [full, empty], [None, None]);
    assert HoldersOf(empty.leases, r[1].engine) == {};
    assert Passed(d, 0) && Admitted(d, 1);
  }

  // ---------- retry back-off ----------

  function Min(a: int, b: int): int { if a < b then a else b }

  /** The delay armed k retries after the last reset. */
  function Backoff(initial: int, max: int, k: nat): int {
    if k == 0 then initial else Min(2 * Backoff(initial, max, k - 1), max)
  }

  function Pow2(k: nat): nat {
    if k == 0 then 1 else 2 * Pow2(k - 1)
  }

  lemma {:induction false} BackoffClosedForm(initial: int, max: int, k: nat)
    requires initial > 0 && max > 0
    ensures Backoff(initial, max, k) > 0
    ensures Backoff(initial, max, k) == Min(initial * Pow2(k), max) <==> k > 0 || initial <= max
    ensures k > 0 ==> Backoff(initial, max, k) == Min(initial * Pow2(k), max)
  {
    if k > 0 {
      BackoffClosedForm(initial, max, k - 1);
      assert initial * Pow2(k) == 2 * (initial * Pow2(k - 1));
      Pow2Positive(initial, k - 1);
    }
  }

  lemma {:induction false} Pow2Positive(initial: int, k: nat)
    requires initial > 0
    ensures initial * Pow2(k) >= initial
  {
    if k > 0 {
      Pow2Positive(initial, k - 1);
      assert initial * Pow2(k) == 2 * (initial * Pow2(k - 1));
    }
  }

  // ---------- the scheduler ----------

  function WithRow(s: Store, id: JobId, row: JobRow): Store {
    if id in s.jobs then s.(jobs := s.jobs[id := row]) else s
  }

  function WithoutEntry(s: Store, id: JobId): Store {
    s.(queue := s.queue - {id})
  }

  lemma DrainedStrictly(s0: Store, s1: Store, id: JobId)
    requires Drained(s0, s1) && IsPending(s0, id) && !IsPending(s1, id)
    ensures Pending(s1) < Pending(s0)
  {
    assert id in Pending(s0) && id !in Pending(s1);
  }

  lemma DrainedPending(s0: Store, s1: Store)
    requires Drained(s0, s1)
    ensures Pending(s1) <= Pending(s0)
  {}

  /** Outside ids no row and no entry differs. */
  ghost predicate Kept(s0: Store, s1: Store, ids: set<JobId>) {
    && s1.jobs.Keys == s0.jobs.Keys
    && (forall id :: id in s0.jobs && id !in ids ==> s1.jobs[id] == s0.jobs[id])
    && (forall id :: id !in ids ==> (id in s1.queue <==> id in s0.queue))
    && (forall id :: id !in ids && id in s0.queue && id in s1.queue ==> s1.queue[id] == s0.queue[id])
  }

  /** A job that was pending still is, or was reserved, or has been dispatched since mark n. */
  ghost predicate Accounted(s0: Store, s1: Store, trail: seq<Mark>, n: nat, reserved: set<JobId>) {
    forall id :: IsPending(s0, id) ==> IsPending(s1, id) || id in reserved || DispatchedSince(trail, n, id)
  }

  lemma AccountedOn(s0: Store, s1: Store, s2: Store, before: seq<Mark>, after: seq<Mark>, n: nat, reserved: set<JobId>)
    requires Accounted(s0, s1, before, n, reserved)
    requires forall id :: DispatchedSince(before, n, id) ==> DispatchedSince(after, n, id)
    requires forall id :: IsPending(s1, id) && !IsPending(s2, id) ==> id in reserved || DispatchedSince(after, n, id)
    ensures Accounted(s0, s2, after, n, reserved)
  {}

  /** dispatchSingle passes q on to dispatchFn: its job exists in one of these states, and its entry
      still asks for the same action. */
  ghost predicate Dispatchable(s: Store, q: QueuedJob) {
    && q.jobId in s.jobs
    && s.jobs[q.jobId].status in {Queued, Downloading, Paused, Analyzing, AwaitingSelection, Seeding}
    && HasEntry(s, q)
  }

  /** q has nothing to wait for: its job is gone or over. */
  ghost predicate Obsolete(s: Store, q: QueuedJob) {
    q.jobId !in s.jobs || s.jobs[q.jobId].status in {Completed, Failed, Cancelled, Processing}
  }

  ghost predicate HasEntry(s: Store, q: QueuedJob) {
    q.jobId in s.queue && s.queue[q.jobId].action == q.action
  }

  /** The same jobs, and nothing became pending from s0 to s1. */
  ghost predicate Drained(s0: Store, s1: Store) {
    && s1.jobs.Keys == s0.jobs.Keys
    && forall id :: IsPending(s1, id) ==> IsPending(s0, id)
  }

  /** The store says so: the job's status, and whether its queue entry is gone. */
  predicate Recorded(s: Store, id: JobId, status: JobStatus, dequeued: bool) {
    (id in s.jobs ==> s.jobs[id].status == status) && (dequeued ==> id !in s.queue)
  }

  /** A failed start is FAILED and dequeued, a failed resume PAUSED and stays queued. */
  ghost predicate GivenUp(s: Store, q: QueuedJob) {
    && (q.jobId in s.jobs ==> s.jobs[q.jobId].status == if q.action == Start then Failed else Paused)
    && (q.action == Start ==> q.jobId !in s.queue)
  }

  /** What the engine answers of a job that runs or has run to its end. */
  ghost predicate RunsOrRan(a: Answer) {
    a.engineStatus in {Some(Downloading), Some(Processing), Some(Seeding), Some(Completed)}
  }

  /** The engine says that the job runs, or has completed. */
  predicate Confirmed(a: Answer) {
    || a.engineStatus == Some(Downloading) || a.engineStatus == Some(Processing)
    || a.engineStatus == Some(Seeding) || a.engineStatus == Some(Completed)
  }

  /** A completed job is handed to the monitor as DOWNLOADING. */
  function Found(a: Answer): JobStatus {
    if a.engineStatus.Some? && a.engineStatus != Some(Completed) then a.engineStatus.value else Downloading
  }

  /** The execution can be asked for: a started job needs an engine id. */
  predicate Identified(row: JobRow, res: Reservation) {
    res.action != Start || row.engineId != "" || res.engineId != ""
  }

  /** The reservation left behind says what is to be reconciled. */
  predicate Remembers(res: Reservation, action: QueueAction, o: Outcome) {
    && res.dirty && res.action == action
    && (if o.ExecutionLost? then res.kind == ExternalExecution && (o.engineId != "" ==> res.engineId == o.engineId)
        else res.kind == StatePersistence && res.target == if action == Start then Failed else Paused)
  }

  /** A fresh, clean reservation for q. */
  function WithReservation(m: map<JobId, Reservation>, q: QueuedJob): map<JobId, Reservation> {
    m[q.jobId := Reservation(q.action, "", false, ExternalExecution, Failed)]
  }

  /** The jobs whose leases departures give back, and those they take out of the active set. */
  ghost function Departing(ds: seq<Departure>): set<JobId> { set d | d in ds :: d.id }

  ghost function Deactivated(ds: seq<Departure>): set<JobId> { set d | d in ds && d.RemoveActive? :: d.id }

  ghost predicate AllDirty(m: map<JobId, Reservation>) {
    forall id :: id in m ==> m[id].dirty
  }

  /** Only the store stands between this reservation and its end. */
  predicate Persistable(m: map<JobId, Reservation>, s: Store, id: JobId) {
    id in m && m[id].dirty && m[id].kind == StatePersistence && id in s.jobs
  }

  /** Only the engine's answer stands between this reservation and its end. */
  ghost predicate Findable(m: map<JobId, Reservation>, s: Store, id: JobId) {
    id in m && m[id].dirty && m[id].kind == ExternalExecution && id in s.jobs && Identified(s.jobs[id], m[id])
  }

  ghost predicate AllPersistable(m: map<JobId, Reservation>, s: Store) {
    forall id :: id in m ==> Persistable(m, s, id)
  }

  predicate HasDirty(m: map<JobId, Reservation>) {
    exists id | id in m :: m[id].dirty
  }

  /** The next delay to arm, the last one armed, and how many were armed since the last reset. */
  datatype Retry = Retry(current: int, last: int, arms: nat)

  class Scheduler {
    const env: nat -> Answer
    const quiet: nat
    const retryInitial: int
    const retryMax: int

    /** The governor's state; Governor.Step is what its methods do to it. */
    var ledger: Ledger

    var tick: nat
    var store: Store
    var active: set<JobId>
    var inFlight: map<JobId, Reservation>
    var retry: Retry
    var timerArmed: bool
    var kicked: bool
    var stopped: bool
    /** The scans that chose a job and the calls of dispatchFn, in order. */
    ghost var trail: seq<Mark>

    ghost predicate Valid() reads this {
      && NoLeak()
      && (forall t: nat :: t >= quiet ==> Reliable(env(t)))
    }

    /** The current delay is the one the number of consecutive retries calls for. */
    ghost predicate RetryValid() reads this {
      && retryInitial > 0 && retryMax > 0
      && retry.current == Backoff(retryInitial, retryMax, retry.arms)
    }

    /** Every lease belongs to an active or a reserved job. */
    ghost predicate NoLeak() reads this {
      forall id :: id in ledger.leases ==> id in active || id in inFlight
    }

    constructor (g: Ledger, script: nat -> Answer, quietFrom: nat, initial: int, max: int, s: Store,
                 running: set<JobId>)
      requires initial > 0 && max > 0
      requires g.leases.Keys <= running
      requires forall t: nat :: t >= quietFrom ==> Reliable(script(t))
      ensures Valid() && RetryValid() && inFlight == map[] && active == running && store == s
      ensures ledger == g && env == script && quiet == quietFrom
      ensures retry == Retry(initial, 0, 0) && !timerArmed && trail == [] && !kicked && !stopped && tick == 0
    {
      env, quiet, retryInitial, retryMax := script, quietFrom, initial, max;
      ledger := g;
      tick, store, active, inFlight := 0, s, running, map[];
      retry, timerArmed, kicked, stopped, trail := Retry(initial, 0, 0), false, false, false, [];
    }

    /** One concurrent Manager.removeActive, or a bare lease release. */
    method Depart(d: Departure)
      requires Valid()
      modifies this`active, this`ledger
      ensures Valid()
      ensures ledger.leases == old(ledger.leases) - {d.id}
      ensures ledger == old(ledger).(leases := ledger.leases)
      ensures active == if d.RemoveActive? then old(active) - {d.id} else old(active)
    {
      if d.RemoveActive? { active := active - {d.id}; }
      ledger := Step(ledger, ReleaseOp(d.id));
    }

    /** Any number of them. */
    method DepartAll(ds: seq<Departure>)
      requires Valid()
      modifies this`active, this`ledger
      ensures Valid()
      ensures Within(ledger, old(ledger)) && ledger == old(ledger).(leases := ledger.leases)
      ensures forall id :: id in ledger.leases && id in old(active) ==> id in active
      ensures ledger.leases == old(ledger.leases) - Departing(ds) && active == old(active) - Deactivated(ds)
    {
      var i := 0;
      while i < |ds|
        invariant 0 <= i <= |ds|
        invariant ledger.leases == old(ledger.leases) - Departing(ds[..i])
        invariant active == old(active) - Deactivated(ds[..i])
        invariant Valid()
        invariant Within(ledger, old(ledger)) && ledger == old(ledger).(leases := ledger.leases)
        invariant forall id :: id in ledger.leases && id in old(active) ==> id in active
      {
        assert ds[..i + 1] == ds[..i] + [ds[i]];
        Depart(ds[i]);
        i := i + 1;
      }
      assert ds[..i] == ds;
    }

    /** One question to the environment; whatever other goroutines do happens first. */
    method Ask() returns (a: Answer)
      requires Valid()
      modifies this
      ensures inFlight == old(inFlight) && retry == old(retry) && trail == old(trail)
      ensures Valid()
      ensures a == env(old(tick)) && tick == old(tick) + 1
      ensures Within(ledger, old(ledger)) && ledger == old(ledger).(leases := ledger.leases)
      ensures forall id :: id in ledger.leases && id in old(active) ==> id in active
      ensures old(tick) >= quiet ==> a.ok && store == old(store)
      ensures store == if a.written.Some? then a.written.value else old(store)
      ensures ledger.leases == old(ledger.leases) - Departing(a.departures)
      ensures active == old(active) + a.joined - Deactivated(a.departures)
      ensures stopped == (old(stopped) || a.stop) && timerArmed == (old(timerArmed) && !a.timerFires)
      ensures kicked == (old(kicked) || (old(timerArmed) && a.timerFires))
    {
      a := env(tick);
      tick := tick + 1;
      if a.written.Some? { store := a.written.value; }
      active := active + a.joined;
      DepartAll(a.departures);
      if a.timerFires && timerArmed { timerArmed, kicked := false, true; }
      stopped := stopped || a.stop;
    }

    method Kick()
      modifies this`kicked
      ensures kicked
    {
      kicked := true;
    }

    // ----- repository calls -----

    method GetByID(id: JobId) returns (row: Option<JobRow>)
      requires Valid()
      modifies this
      ensures inFlight == old(inFlight) && retry == old(retry) && trail == old(trail)
      ensures Valid() && tick == old(tick) + 1
      ensures row.Some? ==> id in store.jobs && row.value == store.jobs[id] && env(old(tick)).ok
      ensures old(tick) >= quiet ==> store == old(store) && (row == None ==> id !in store.jobs)
    {
      var a := Ask();
      row := if a.ok && id in store.jobs then Some(store.jobs[id]) else None;
    }

    /** UPDATE jobs: an absent row is no error.  The scheduler only writes statuses other than
        queued. */
    method Update(id: JobId, row: JobRow) returns (ok: bool)
      requires Valid() && row.status != Queued
      modifies this
      ensures inFlight == old(inFlight) && retry == old(retry) && trail == old(trail)
      ensures Valid() && tick > old(tick)
      ensures ok && id in store.jobs ==> store.jobs[id] == row
      ensures ok == env(old(tick)).ok && tick == old(tick) + 1
      ensures old(tick) >= quiet ==> ok && store == WithRow(old(store), id, row)
      ensures old(tick) >= quiet ==> Drained(old(store), store) && !IsPending(store, id)
    {
      var a := Ask();
      ok := a.ok;
      if ok { store := WithRow(store, id, row); }
    }

    method DeleteEntry(id: JobId) returns (ok: bool)
      requires Valid()
      modifies this
      ensures inFlight == old(inFlight) && retry == old(retry) && trail == old(trail)
      ensures Valid() && tick > old(tick)
      ensures forall id :: id in ledger.leases && id in old(active) ==> id in active
      ensures ok ==> id !in store.queue
      ensures old(tick) >= quiet ==> ok && store == WithoutEntry(old(store), id)
      ensures old(tick) >= quiet ==> Drained(old(store), store) && !IsPending(store, id)
    {
      var a := Ask();
      ok := a.ok;
      if ok { store := WithoutEntry(store, id); }
    }

    // ----- reservations -----

    method ReserveInFlight(q: QueuedJob) returns (ok: bool)
      modifies this`inFlight
      ensures ok == (q.jobId !in old(inFlight))
      ensures inFlight == if ok then WithReservation(old(inFlight), q) else old(inFlight)
      ensures ok ==> inFlight[q.jobId].action == q.action && !inFlight[q.jobId].dirty
      ensures ok ==> inFlight - {q.jobId} == old(inFlight)
    {
      ok := q.jobId !in inFlight;
      if ok { inFlight := WithReservation(inFlight, q); }
    }

    method MarkDirtyExternal(id: JobId, action: QueueAction, engineId: string)
      modifies this`inFlight
      ensures exists r: Reservation :: r.dirty && r.kind == ExternalExecution && r.action == action
                && (engineId != "" ==> r.engineId == engineId)
                && (engineId == "" && id in old(inFlight) ==> r.engineId == old(inFlight)[id].engineId)
                && inFlight == old(inFlight)[id := r]
    {
      var r := if id in inFlight then inFlight[id] else Reservation(action, engineId, true, ExternalExecution, Failed);
      r := r.(dirty := true, action := action, kind := ExternalExecution,
              engineId := if engineId != "" then engineId else r.engineId);
      inFlight := inFlight[id := r];
    }

    method MarkDirtyState(id: JobId, action: QueueAction, target: FailureStatus)
      modifies this`inFlight
      ensures exists r: Reservation :: r.dirty && r.kind == StatePersistence && r.action == action && r.target == target
                && (id in old(inFlight) ==> r.engineId == old(inFlight)[id].engineId)
                && inFlight == old(inFlight)[id := r]
    {
      var r := if id in inFlight then inFlight[id] else Reservation(action, "", true, StatePersistence, target);
      r := r.(dirty := true, action := action, kind := StatePersistence, target := target);
      inFlight := inFlight[id := r];
    }

    /** releaseGovernorLease, then the deferred releaseInFlight. */
    method GiveBack(id: JobId)
      requires Valid()
      modifies this`kicked, this`inFlight, this`ledger
      ensures Valid() && inFlight == old(inFlight) - {id} && id !in ledger.leases
      ensures kicked == (old(kicked) || id in old(ledger.leases))
      ensures ledger.leases == old(ledger.leases) - {id}
    {
      if id in ledger.leases { Kick(); }
      ledger := Step(ledger, ReleaseOp(id));
      inFlight := inFlight - {id};
    }

    // ----- retry timer -----

    method ScheduleReconciliationRetry()
      requires RetryValid()
      modifies this`retry, this`timerArmed
      ensures RetryValid()
      ensures !stopped && HasDirty(inFlight) ==> timerArmed
      ensures var newlyArmed := !stopped && HasDirty(inFlight) && !old(timerArmed);
              && timerArmed == (old(timerArmed) || newlyArmed)
              && retry.arms == old(retry.arms) + (if newlyArmed then 1 else 0)
              && (newlyArmed ==> retry.last == Backoff(retryInitial, retryMax, old(retry.arms)))
    {
      if stopped { return; }
      if !HasDirty(inFlight) { return; }
      if timerArmed { return; }
      timerArmed := true;
      var next := retry.current * 2;
      retry := Retry(if next > retryMax then retryMax else next, retry.current, retry.arms + 1);
    }

    method ResetReconciliationRetry()
      requires RetryValid()
      modifies this`retry, this`timerArmed
      ensures RetryValid() && !timerArmed && retry.arms == 0 && retry.current == retryInitial
    {
      timerArmed := false;
      retry := Retry(retryInitial, retry.last, 0);
    }

    // ----- reconciliation -----

    method ReconcileStatePersistence(id: JobId, res: Reservation)
      requires Valid() && id in inFlight
      modifies this
      ensures retry == old(retry) && trail == old(trail)
      ensures Valid() && tick > old(tick)
      ensures inFlight == old(inFlight) || (inFlight == old(inFlight) - {id} && kicked && id !in ledger.leases)
      ensures old(tick) >= quiet ==> Drained(old(store), store)
      ensures old(tick) >= quiet ==> Kept(old(store), store, {id})
      ensures old(tick) >= quiet && id in old(store).jobs ==>
        id !in inFlight && Recorded(store, id, res.target, res.target == Failed)
      ensures id !in inFlight ==> env(old(tick)).ok && env(old(tick) + 1).ok
    {
      var current := GetByID(id);
      if current == None { return; }
      var ok := Update(id, current.value.(status := res.target));
      if !ok { return; }
      if res.target == Failed { var _ := DeleteEntry(id); }
      inFlight := inFlight - {id};
      ledger := Step(ledger, ReleaseOp(id));
      Kick();
    }

    method ReconcileExternalExecution(id: JobId, res: Reservation)
      requires Valid() && id in inFlight
      modifies this
      ensures retry == old(retry) && trail == old(trail)
      ensures Valid() && tick > old(tick)
      ensures inFlight == old(inFlight) || (inFlight == old(inFlight) - {id} && kicked && id in active)
      ensures old(tick) >= quiet ==> Drained(old(store), store)
      ensures old(tick) >= quiet ==> Kept(old(store), store, {id})
      ensures old(tick) >= quiet && id !in inFlight ==>
        var said := env(old(tick) + 1).engineStatus;
        && RunsOrRan(env(old(tick) + 1))
        && id in old(store).jobs && Identified(old(store).jobs[id], res)
        && id in store.jobs && store.jobs[id].engineId
           == (if old(store).jobs[id].engineId == "" then res.engineId else old(store).jobs[id].engineId)
        && Recorded(store, id, if said == Some(Completed) then Downloading else said.value, true)
      ensures old(tick) >= quiet && id in old(store).jobs && Identified(old(store).jobs[id], res) &&
              RunsOrRan(env(old(tick) + 1)) ==>
        id !in inFlight
      ensures id !in inFlight ==>
        env(old(tick)).ok && env(old(tick) + 2).ok && env(old(tick) + 3).ok
        && RunsOrRan(env(old(tick) + 1))
    {
      var fetched := GetByID(id);
      if fetched == None { return; }
      var current := fetched.value;
      if current.engineId == "" && res.engineId != "" { current := current.(engineId := res.engineId); }
      if res.action == Start && current.engineId == "" { return; }
      var a := Ask();
      if a.engineStatus == None { return; }
      if !Confirmed(a) { return; }
      Activate(id, current.(status := Found(a)));
    }

    /** Persists a confirmed execution and hands the job to the monitor. */
    method Activate(id: JobId, row: JobRow)
      requires Valid() && id in inFlight && row.status != Queued
      modifies this
      ensures retry == old(retry) && trail == old(trail)
      ensures Valid() && tick > old(tick)
      ensures inFlight == old(inFlight) || (inFlight == old(inFlight) - {id} && kicked && id in active)
      ensures old(tick) >= quiet ==>
        && Drained(old(store), store) && Kept(old(store), store, {id})
        && id !in inFlight && Recorded(store, id, row.status, true)
        && (id in old(store).jobs ==> store.jobs[id] == row)
      ensures id !in inFlight ==> env(old(tick)).ok && env(old(tick) + 1).ok
    {
      var ok := Update(id, row);
      if !ok { return; }
      var prepared := Ask();
      if !prepared.ok { return; }
      var _ := DeleteEntry(id);
      active := active + {id};
      inFlight := inFlight - {id};
      Kick();
    }

    method ReconcileJob(id: JobId)
      requires Valid()
      modifies this
      ensures retry == old(retry) && trail == old(trail)
      ensures Valid() && tick >= old(tick)
      ensures inFlight == old(inFlight) ||
              (id in old(inFlight) && old(inFlight)[id].dirty && inFlight == old(inFlight) - {id} && kicked)
      ensures old(tick) >= quiet ==> Drained(old(store), store)
      ensures old(tick) >= quiet ==> Kept(old(store), store, {id})
      ensures old(tick) >= quiet && Persistable(old(inFlight), old(store), id) ==>
        id !in inFlight && Recorded(store, id, old(inFlight)[id].target, old(inFlight)[id].target == Failed)
      ensures old(tick) >= quiet && Findable(old(inFlight), old(store), id) &&
              RunsOrRan(env(old(tick) + 1)) ==>
        id !in inFlight
    {
      if id !in inFlight || !inFlight[id].dirty { return; }
      match inFlight[id].kind {
        case ExternalExecution => ReconcileExternalExecution(id, inFlight[id]);
        case StatePersistence => ReconcileStatePersistence(id, inFlight[id]);
      }
    }

    method ReconcileAll()
      requires Valid() && AllDirty(inFlight)
      modifies this
      ensures retry == old(retry) && trail == old(trail)
      ensures Valid() && AllDirty(inFlight) && tick >= old(tick)
      ensures old(tick) >= quiet ==> Drained(old(store), store)
      ensures old(tick) >= quiet ==> Kept(old(store), store, old(inFlight.Keys))
      ensures old(tick) >= quiet ==> forall id :: Persistable(old(inFlight), old(store), id) ==> id !in inFlight
      ensures inFlight.Keys <= old(inFlight.Keys)
    {
      var rest := set id | id in inFlight && inFlight[id].dirty;
      while rest != {}
        invariant retry == old(retry) && trail == old(trail)
        invariant Valid() && AllDirty(inFlight) && tick >= old(tick)
        invariant old(tick) >= quiet ==> Drained(old(store), store)
        invariant rest <= old(inFlight.Keys)
        invariant old(tick) >= quiet ==> Kept(old(store), store, old(inFlight.Keys))
        invariant forall id :: id in inFlight ==> id in old(inFlight) && inFlight[id] == old(inFlight)[id]
        invariant old(tick) >= quiet ==> forall id :: Persistable(old(inFlight), old(store), id) && id in inFlight ==>
          id in rest
        decreases rest
      {
        var id :| id in rest;
        rest := rest - {id};
        ReconcileJob(id);
      }
    }

    // ----- dispatch -----

    /** Manager.dispatchQueuedJob, reduced to its effects on the store, the queue and the active
        set.  It is only ever called while no reservation is dirty. */
    method DispatchFn(next: QueuedJob) returns (o: Outcome)
      requires Valid() && !HasDirty(inFlight)
      modifies this
      ensures inFlight == old(inFlight) && retry == old(retry) && trail == old(trail) + [Dispatched(next)]
      ensures Valid() && tick > old(tick)
      ensures old(tick) >= quiet ==> Drained(old(store), store)
      ensures old(tick) >= quiet ==> Kept(old(store), store, {next.jobId})
      ensures old(tick) >= quiet && (o.Started? || o.Handled?) ==> !IsPending(store, next.jobId)
      ensures old(tick) >= quiet && o.Started? ==> Recorded(store, next.jobId, Downloading, true)
      ensures old(tick) >= quiet && o.Handled? ==>
        GivenUp(store, next)
      ensures o.Started? && next.jobId in ledger.leases ==> next.jobId in active
      ensures old(tick) >= quiet && next.jobId !in old(store).jobs ==> o.EngineError? && next.jobId !in store.queue
    {
      trail := trail + [Dispatched(next)];
      var a := Ask();
      var id := next.jobId;
      if id !in store.jobs {
        var _ := DeleteEntry(id);
        return EngineError;
      }
      o := a.outcome;
      match o {
        case Started(engineId) =>
          store := WithRow(store, id, store.jobs[id].(status := Downloading, engineId := engineId));
          var _ := DeleteEntry(id);
          active := active + {id};
          var _ := Ask();
        case Handled =>
          store := WithRow(store, id, store.jobs[id].(status := FailureTarget(next.action)));
          if next.action == Start { var _ := DeleteEntry(id); }
        case _ =>
      }
    }

    /** What follows dispatchFn, by outcome.  current is the row read before the dispatch. */
    method Settle(next: QueuedJob, current: JobRow, o: Outcome) returns (r: DispatchEnd)
      requires Valid() && inFlight.Keys == {next.jobId}
      requires o.Started? && next.jobId in ledger.leases ==> next.jobId in active
      modifies this
      ensures retry == old(retry) && trail == old(trail)
      ensures Valid() && AllDirty(inFlight) && tick >= old(tick)
      ensures r == Continue ==> inFlight == map[]
      ensures r == PersistenceFailed ==> kicked || inFlight != map[]
      ensures r == PersistenceFailed && next.jobId in inFlight ==> Remembers(inFlight[next.jobId], next.action, o)
      ensures old(tick) >= quiet && o.EngineError? ==>
        r == Continue && GivenUp(store, next)
      ensures old(tick) >= quiet && o.StateLost? && next.jobId in old(store).jobs ==>
        inFlight == map[] && GivenUp(store, next)
      ensures old(tick) >= quiet && o.ExecutionLost? && next.jobId in old(store).jobs &&
              (next.action != Start || old(store).jobs[next.jobId].engineId != "" || o.engineId != "") &&
              RunsOrRan(env(old(tick) + 1)) ==>
        inFlight == map[]
      ensures o.EngineError? && !env(old(tick)).ok ==> r == PersistenceFailed && next.jobId in inFlight
      ensures r == Continue && !o.Started? ==> next.jobId !in ledger.leases
      ensures old(tick) >= quiet ==> Drained(old(store), store)
      ensures old(tick) >= quiet ==> Kept(old(store), store, {next.jobId})
      ensures old(tick) >= quiet && r == Continue &&
              (o.Started? || o.Handled? ==> !IsPending(old(store), next.jobId)) ==>
        !IsPending(store, next.jobId)
    {
      var id := next.jobId;
      match o {
        case Started(_) =>
          inFlight := inFlight - {id};
          r := Continue;
        case Handled =>
          GiveBack(id);
          r := Continue;
        case StateLost =>
          MarkDirtyState(id, next.action, FailureTarget(next.action));
          assert id in inFlight;
          ReconcileJob(id);
          r := PersistenceFailed;
        case ExecutionLost(engineId) =>
          MarkDirtyExternal(id, next.action, engineId);
          assert id in inFlight;
          ReconcileJob(id);
          r := PersistenceFailed;
        case EngineError =>
          var ok := Update(id, current.(status := FailureTarget(next.action)));
          if !ok {
            MarkDirtyState(id, next.action, FailureTarget(next.action));
            assert id in inFlight;
            return PersistenceFailed;
          }
          if next.action == Start { var _ := DeleteEntry(id); }
          GiveBack(id);
          r := Continue;
      }
    }

    method DispatchSingle(next: QueuedJob) returns (r: DispatchEnd)
      requires Valid() && inFlight.Keys == {next.jobId} && !HasDirty(inFlight)
      modifies this
      ensures retry == old(retry) && (trail == old(trail) || trail == old(trail) + [Dispatched(next)])
      ensures Valid() && AllDirty(inFlight) && tick > old(tick)
      ensures r == Continue ==> inFlight == map[]
      ensures r == PersistenceFailed ==> kicked || inFlight != map[]
      ensures old(tick) >= quiet ==> Drained(old(store), store)
      ensures old(tick) >= quiet ==> Kept(old(store), store, {next.jobId})
      ensures r == Continue && old(tick) >= quiet && HasEntry(old(store), next) ==> !IsPending(store, next.jobId)
      ensures old(tick) >= quiet ==> (trail == old(trail) + [Dispatched(next)] <==> Dispatchable(old(store), next))
      ensures old(tick) >= quiet && !Dispatchable(old(store), next) ==> next.jobId !in ledger.leases && r == Continue
      ensures old(tick) >= quiet && !Dispatchable(old(store), next) ==>
        store == if Obsolete(old(store), next) then WithoutEntry(old(store), next.jobId) else old(store)
    {
      var id := next.jobId;
      var current := GetByID(id);
      if current == None {
        var _ := DeleteEntry(id);
        GiveBack(id);
        return Continue;
      }
      var status := current.value.status;
      if !IsRecoverable(status) && status != Queued {
        if status != Paused && status != Analyzing && status != AwaitingSelection {
          var _ := DeleteEntry(id);
        }
        GiveBack(id);
        return Continue;
      }
      var got := Ask();
      if !got.ok || id !in store.queue || store.queue[id].action != next.action {
        GiveBack(id);
        return Continue;
      }
      var o := DispatchFn(next);
      r := Settle(next, current.value, o);
    }

    // ----- the fill loop -----

    /** One candidate: acquire a lease, then reserve.  Only this goroutine reserves, so the
        reservation of an unreserved job cannot fail. */
    method TryCandidate(candidate: QueuedJob) returns (chosen: bool, ghost met: Ledger, ghost limit: Option<int>)
      requires Valid()
      modifies this
      ensures retry == old(retry) && trail == old(trail) && Valid() && tick > old(tick)
      ensures old(tick) >= quiet ==> store == old(store)
      ensures Within(met, old(ledger)) && (!chosen ==> ledger == met)
      ensures chosen <==> candidate.jobId !in old(inFlight) && candidate.jobId != "" &&
                          (candidate.jobId in met.leases || Admissible(met, candidate.engine, limit))
      ensures inFlight == if chosen then WithReservation(old(inFlight), candidate) else old(inFlight)
    {
      var a := Ask();
      met, limit := ledger, a.dynamicLimit;
      if candidate.jobId in inFlight { return false, met, limit; }
      var acquired := TryAcquire(candidate, a.dynamicLimit);
      if !acquired { return false, met, limit; }
      var reserved := ReserveInFlight(candidate);
      assert reserved;
      chosen := true;
    }

    /** Tries the listing in rank order and reserves the first candidate the governor admits. */
    method SelectCandidate(listing: seq<QueuedJob>, now: int, ghost listed: Store)
      returns (chosen: Option<QueuedJob>, ghost d: Scan)
      requires Valid()
      modifies this
      ensures retry == old(retry) && Valid() && tick >= old(tick)
      ensures d.store == listed && d.now == now && d.listing == listing && d.reserved == old(inFlight.Keys)
      ensures chosen == None ==> AllPassed(d) && inFlight == old(inFlight) && trail == old(trail)
      ensures chosen.Some? ==>
        GoodDecision(d) && chosen.value == listing[|d.ledgers| - 1] && trail == old(trail) + [Scanned(d)]
      ensures chosen.Some? ==> chosen.value.jobId !in old(inFlight)
      ensures chosen.Some? ==> inFlight == WithReservation(old(inFlight), chosen.value)
      ensures old(tick) >= quiet ==> store == old(store)
    {
      d := Scan(listed, now, listing, inFlight.Keys, [], []);
      var i := 0;
      while i < |listing|
        invariant 0 <= i <= |listing| && |d.ledgers| == |d.limits| == i
        invariant retry == old(retry) && tick >= old(tick) && Valid() && inFlight == old(inFlight)
        invariant trail == old(trail)
        invariant old(tick) >= quiet ==> store == old(store)
        invariant d.store == listed && d.now == now && d.listing == listing && d.reserved == old(inFlight.Keys)
        invariant SoFar(d) && (i > 0 ==> Within(ledger, d.ledgers[i - 1]))
      {
        var took, met, limit := TryCandidate(listing[i]);
        ScanExtends(d, met, limit);
        d := Attempted(d, met, limit);
        if took {
          trail := trail + [Scanned(d)];
          return Some(listing[i]), d;
        }
        i := i + 1;
      }
      chosen := None;
    }

    /** governor.TryAcquire; a held lease counts as acquired. */
    method TryAcquire(q: QueuedJob, limit: Option<int>) returns (acquired: bool)
      modifies this`ledger
      ensures acquired <==> q.jobId != "" && (q.jobId in old(ledger).leases || Admissible(old(ledger), q.engine, limit))
      ensures !acquired ==> ledger == old(ledger)
      ensures acquired ==> ledger.leases.Keys == old(ledger).leases.Keys + {q.jobId}
    {
      ledger := Step(ledger, TryAcquireOp(q.jobId, q.engine, limit));
      acquired := q.jobId != "" && q.jobId in ledger.leases;
    }

    /** The part of a round before the listing: false when the pass must end here. */
    method SettleReservations() returns (clear: bool)
      requires Valid() && RetryValid() && AllDirty(inFlight)
      modifies this
      ensures Valid() && RetryValid() && AllDirty(inFlight) && tick >= old(tick) && trail == old(trail)
      ensures clear ==> inFlight == map[]
      ensures !clear ==> inFlight != map[] && (!stopped ==> timerArmed)
      ensures old(tick) >= quiet && AllPersistable(old(inFlight), old(store)) ==> clear
      ensures clear && old(inFlight) != map[] ==> retry.arms == 0 && retry.current == retryInitial
      ensures old(tick) >= quiet ==> Drained(old(store), store)
      ensures old(tick) >= quiet ==> Kept(old(store), store, old(inFlight.Keys))
    {
      if HasDirty(inFlight) {
        ReconcileAll();
        if HasDirty(inFlight) {
          ScheduleReconciliationRetry();
          return false;
        }
        ResetReconciliationRetry();
      }
      clear := true;
    }

    /** Dispatches the reserved candidate; a persistence failure ends the pass. */
    method DispatchChosen(chosen: QueuedJob) returns (end: Option<PassEnd>)
      requires Valid() && RetryValid() && inFlight.Keys == {chosen.jobId} && !HasDirty(inFlight)
      modifies this
      ensures Valid() && RetryValid() && AllDirty(inFlight) && tick > old(tick)
      ensures trail == old(trail) || trail == old(trail) + [Dispatched(chosen)]
      ensures old(tick) >= quiet && Dispatchable(old(store), chosen) ==> trail == old(trail) + [Dispatched(chosen)]
      ensures end == None || end == Some(PersistenceStop)
      ensures end == None ==> inFlight == map[]
      ensures !stopped && inFlight != map[] ==> timerArmed
      ensures end == Some(PersistenceStop) && inFlight == map[] ==> kicked
      ensures old(tick) >= quiet ==> Drained(old(store), store)
      ensures old(tick) >= quiet ==> Kept(old(store), store, {chosen.jobId})
      ensures end == None && old(tick) >= quiet && HasEntry(old(store), chosen) ==> !IsPending(store, chosen.jobId)
    {
      var r := DispatchSingle(chosen);
      if r == PersistenceFailed {
        if HasDirty(inFlight) { ScheduleReconciliationRetry(); }
        return Some(PersistenceStop);
      }
      end := None;
    }

    /** The runnable jobs of the moment, or None when the queue cannot be read. */
    method ListNow() returns (listing: Option<seq<QueuedJob>>, now: int)
      requires Valid()
      modifies this
      ensures inFlight == old(inFlight) && retry == old(retry) && trail == old(trail) && Valid()
      ensures tick > old(tick) && (old(tick) >= quiet ==> listing.Some? && store == old(store))
      ensures now == env(old(tick)).clock && (listing.Some? ==> Listing(listing.value, store, now))
      ensures listing.Some? <==> env(old(tick) + 1).ok
    {
      var clock := Ask();
      now := clock.clock;
      var answer := Ask();
      if !answer.ok { return None, now; }
      var r := ListRunnable(store, now);
      listing := Some(r);
    }

    /** List, select, dispatch: the rest of a round, entered with nothing reserved. */
    method Fill() returns (end: Option<PassEnd>, ghost last: Scan)
      requires Valid() && RetryValid() && inFlight == map[]
      modifies this
      ensures Valid() && RetryValid() && AllDirty(inFlight) && tick > old(tick)
      ensures trail == old(trail) || (Decided(last) && Continues(old(trail), trail, last))
      ensures old(tick) >= quiet ==>
        (trail == old(trail) && store == old(store))
        || (Acted(old(trail), trail, last) && Kept(old(store), store, {Chosen(last).jobId}))
      ensures end != Some(PersistenceStop) ==> inFlight == map[]
      ensures !stopped && inFlight != map[] ==> timerArmed
      ensures end == Some(PersistenceStop) && inFlight == map[] ==> kicked
      ensures end == Some(Saturated) ==>
        AllPassed(last) && last.reserved == {} && Listing(last.listing, last.store, last.now)
      ensures end == Some(NothingRunnable) ==> Listing([], last.store, last.now)
      ensures end == Some(Saturated) || end == Some(NothingRunnable) ==> (old(tick) >= quiet ==> last.store == store)
      ensures end != Some(Stopped) && end != Some(RetryPending)
      ensures end == Some(Saturated) ==> last.listing != []
      ensures !env(old(tick) + 1).ok ==> end == Some(ListFailed) && trail == old(trail)
      ensures end == None && old(tick) >= quiet ==> Pending(store) < old(Pending(store))
    {
      last := Scan(store, 0, [], {}, [], []);
      var answer, now := ListNow();
      if answer == None { return Some(ListFailed), last; }
      var listing := answer.value;
      if |listing| == 0 {
        last := Scan(store, now, [], {}, [], []);
        return Some(NothingRunnable), last;
      }
      ghost var listed := store;
      var chosen;
      chosen, last := SelectCandidate(listing, now, listed);
      if chosen == None { return Some(Saturated), last; }
      assert chosen.value in listing;
      end := DispatchChosen(chosen.value);
      if old(tick) >= quiet && end == None { DrainedStrictly(listed, store, chosen.value.jobId); }
    }

    /** One round of a pass: the reservations, then the listing. */
    method Round() returns (end: Option<PassEnd>, ghost last: Scan)
      requires Valid() && RetryValid() && AllDirty(inFlight)
      modifies this
      ensures Valid() && RetryValid() && AllDirty(inFlight) && tick >= old(tick)
      ensures trail == old(trail) || (Decided(last) && Continues(old(trail), trail, last))
      ensures old(tick) >= quiet ==>
        (trail == old(trail) && Kept(old(store), store, old(inFlight.Keys)))
        || (Acted(old(trail), trail, last) && Kept(old(store), store, old(inFlight.Keys) + {Chosen(last).jobId}))
      ensures old(stopped) ==> end == Some(Stopped) && tick == old(tick) && inFlight == old(inFlight)
      ensures end == Some(Stopped) ==> old(stopped) && trail == old(trail)
      ensures !stopped && inFlight != map[] ==> timerArmed
      ensures end == Some(RetryPending) ==> inFlight != map[]
      ensures old(tick) >= quiet && AllPersistable(old(inFlight), old(store)) ==> end != Some(RetryPending)
      ensures end == Some(PersistenceStop) && inFlight == map[] ==> kicked
      ensures end == Some(Saturated) ==>
        AllPassed(last) && last.reserved == {} && Listing(last.listing, last.store, last.now)
      ensures end == Some(NothingRunnable) ==> Listing([], last.store, last.now)
      ensures end == Some(Saturated) || end == Some(NothingRunnable) ==>
        inFlight == map[] && (old(tick) >= quiet ==> last.store == store)
      ensures end == None ==> inFlight == map[] && tick > old(tick)
      ensures end == None && old(tick) >= quiet ==> Pending(store) < old(Pending(store))
    {
      last := Scan(store, 0, [], {}, [], []);
      if stopped { return Some(Stopped), last; }
      ghost var before := store;
      var clear := SettleReservations();
      if !clear { return Some(RetryPending), last; }
      ghost var settled := store;
      end, last := Fill();
      if old(tick) >= quiet { DrainedPending(before, settled); }
    }

    /** One scheduling pass.  It always returns, provided the store becomes quiet at some point:
        from then on each round either ends the pass or takes one job out of the pending set. */
    method Schedule() returns (end: PassEnd, ghost last: Scan)
      requires Valid() && RetryValid() && AllDirty(inFlight)
      modifies this
      ensures Valid() && RetryValid() && AllDirty(inFlight)
      ensures forall id :: id in ledger.leases ==> id in active || (id in inFlight && inFlight[id].dirty)
      ensures !stopped && inFlight != map[] ==> timerArmed
      ensures end == PersistenceStop && inFlight == map[] ==> kicked
      ensures end == RetryPending ==> inFlight != map[]
      ensures old(tick) >= quiet && AllPersistable(old(inFlight), old(store)) ==> end != RetryPending
      ensures old(stopped) ==> end == Stopped && trail == old(trail)
      ensures old(trail) <= trail
      ensures forall k :: |old(trail)| <= k < |trail| ==> Justified(trail, k)
      ensures old(tick) >= quiet ==> forall k :: |old(trail)| <= k < |trail| ==> FollowedUp(trail, k)
      ensures old(tick) >= quiet ==> Accounted(old(store), store, trail, |old(trail)|, old(inFlight.Keys))
      ensures end == Saturated ==> AllPassed(last) && last.reserved == {} && Listing(last.listing, last.store, last.now)
      ensures end == NothingRunnable ==> Listing([], last.store, last.now)
      ensures end == Saturated || end == NothingRunnable ==>
        inFlight == map[] && (old(tick) >= quiet ==> last.store == store)
    {
      last := Scan(store, 0, [], {}, [], []);
      while true
        invariant Valid() && RetryValid() && AllDirty(inFlight)
        invariant tick >= old(tick)
        invariant inFlight == map[] || (inFlight == old(inFlight) && store == old(store))
        invariant old(stopped) ==> stopped && trail == old(trail)
        invariant old(trail) <= trail
        invariant forall k :: |old(trail)| <= k < |trail| ==> Justified(trail, k)
        invariant old(tick) >= quiet ==> forall k :: |old(trail)| <= k < |trail| ==> FollowedUp(trail, k)
        invariant old(tick) >= quiet ==> Accounted(old(store), store, trail, |old(trail)|, old(inFlight.Keys))
        decreases if tick < quiet then quiet - tick else 0, Pending(store)
      {
        ghost var s1, before := store, trail;
        var over;
        over, last := Round();
        if trail != before { JustifiedContinues(|old(trail)|, before, trail, last); }
        if old(tick) >= quiet {
          if trail != before { ActedFollowsUp(|old(trail)|, before, trail, last); }
          AccountedOn(old(store), s1, store, before, trail, |old(trail)|, old(inFlight.Keys));
        }
        if over.Some? { return over.value, last; }
      }
    }
  }
}
