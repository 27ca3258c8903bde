/** Crash-safe artifact finalization: internal/job/finalization.go with the journal part of
    startup recovery in internal/job/recovery.go.

    A Durable value is everything that survives a crash: the disk, the journal row and the job
    row.  The manager appends one Durable value to a history after every file-system call
    and every row write, so a crash is a cut of that history at any index. */
module Finalization {
  import opened Text
  import opened Names
  import opened Storage
  import J = Jobs

  datatype Phase = Prepared | InProgress | Validated | DBCommitted | CleanupPending | Complete | Aborted

  datatype Record = Record(
    staging: Path, dest: Path, size: int, digest: string, policy: Policy, phase: Phase, cleanup: string)

  datatype Row = Row(
    status: J.JobStatus, finalPath: Option<Path>, totalBytes: int, destDir: string, workDir: string, policy: Policy)

  datatype Durable = Durable(files: Files, rec: Option<Record>, job: Option<Row>)

  predicate Terminal(p: Phase) { p == Complete || p == Aborted }

  /** validateArtifactFile; hash is the content digest in lower-case hexadecimal. */
  predicate ValidArtifact(hash: Bytes -> string, f: Files, p: Path, size: int, digest: string) {
    && FileExists(f, p)
    && (if size > 0 then |f[p].data| == size else |f[p].data| > 0)
    && (digest != "" ==> ToLower(hash(f[p].data)) == TrimPrefix(ToLower(digest), "sha256:"))
  }

  function TrimPrefix(s: string, prefix: string): string {
    if prefix <= s then s[|prefix|..] else s
  }

  predicate Recoverable(s: J.JobStatus) {
    s != J.Completed && s != J.Failed && s != J.Cancelled
  }

  /** Jobs that stay as they are across a restart. */
  predicate Waits(s: J.JobStatus) { s == J.Queued || s == J.Paused }

  // ---------- one finalization, from the artifact's point of view ----------

  /** What was true when finalization of one job began. */
  datatype Case = Case(art: Bytes, staging: Path, files0: Files, destDir: string, workDir: string,
                       policy: Policy, size: int)

  function Target(c: Case): Path { Path(c.destDir, c.staging.name) }

  /** The artifact is complete at its staging path, and the destination directory is neither the
      staging directory nor inside the work directory. */
  predicate CaseOk(c: Case) {
    && Holds(c.files0, c.staging, c.art)
    && c.staging.dir != c.destDir
    && !Under(Target(c), c.workDir)
  }

  predicate GoodSize(c: Case) { if c.size > 0 then |c.art| == c.size else |c.art| > 0 }

  predicate Active(s: J.JobStatus) { s == J.Downloading || s == J.Processing }

  predicate CleaningUp(d: Durable) {
    d.rec.Some? && (d.rec.value.phase == CleanupPending || d.rec.value.phase == Complete)
  }

  /** A file finalization may not touch: not the artifact itself, not a target the user asked to
      replace, and nothing of the work directory before clean-up. */
  predicate Protected(c: Case, d: Durable, p: Path) {
    && p in c.files0 && p != c.staging && !(c.policy == Overwrite && p == Target(c))
    && (!Under(p, c.workDir) || !CleaningUp(d))
  }

  ghost predicate KeepsFiles(c: Case, d: Durable) {
    forall p :: Protected(c, d, p) ==> Same(c.files0, d.files, p)
  }

  /** node sits at dst or at one of its backup paths. */
  ghost predicate SlotHolds(f: Files, dst: Path, node: Node) {
    (dst in f && f[dst] == node) || exists suffix: string :: BackedUp(f, dst, suffix, node)
  }

  predicate BackedUp(f: Files, dst: Path, suffix: string, node: Node) {
    BackupOf(dst, suffix) in f && f[BackupOf(dst, suffix)] == node
  }

  /** What the user asked to replace is at the target or set aside next to it until the artifact is
      there. */
  ghost predicate KeepsTarget(c: Case, f: Files) {
    c.policy == Overwrite && Target(c) in c.files0 ==>
      SlotHolds(f, Target(c), c.files0[Target(c)]) || SlotHolds(f, Target(c), File(c.art))
  }

  predicate RecordFits(c: Case, r: Record) {
    && r.staging == c.staging && r.size == c.size && r.digest == "" && r.policy == c.policy
    && r.cleanup == c.workDir && r.dest.dir == c.destDir
    && (!MayRename(c.policy) ==> r.dest == Target(c))
  }

  predicate RowFits(c: Case, j: Row) {
    j.destDir == c.destDir && j.workDir == c.workDir && j.policy == c.policy
  }

  predicate CommittedTo(c: Case, j: Row, dest: Path) {
    j.status == J.Completed && j.finalPath == Some(dest) && (c.size > 0 ==> j.totalBytes == |c.art|)
  }

  /** Where the artifact is and what the job says, phase by phase. */
  predicate PhaseFits(c: Case, f: Files, r: Record, j: Row) {
    match r.phase
    case Prepared => Holds(f, c.staging, c.art) && Active(j.status)
    case InProgress => (Holds(f, c.staging, c.art) || Holds(f, r.dest, c.art)) && Active(j.status)
    case Validated => Holds(f, r.dest, c.art) && GoodSize(c) && (Active(j.status) || CommittedTo(c, j, r.dest))
    case DBCommitted => Holds(f, r.dest, c.art) && GoodSize(c) && CommittedTo(c, j, r.dest)
    case CleanupPending => Holds(f, r.dest, c.art) && GoodSize(c) && CommittedTo(c, j, r.dest)
    case Complete => Holds(f, r.dest, c.art) && GoodSize(c) && CommittedTo(c, j, r.dest)
    case Aborted =>
      && (Holds(f, c.staging, c.art) || Holds(f, r.dest, c.art))
      && (Active(j.status) || j.status == J.Failed)
  }

  /** The safety invariant of every durable state. */
  ghost predicate Safe(c: Case, d: Durable) {
    && d.job.Some? && RowFits(c, d.job.value)
    && KeepsFiles(c, d) && KeepsTarget(c, d.files)
    && (c.staging in d.files ==> Holds(d.files, c.staging, c.art))
    && match d.rec
       case None => c.staging in d.files && (Active(d.job.value.status) || d.job.value.status == J.Failed)
       case Some(r) => RecordFits(c, r) && PhaseFits(c, d.files, r, d.job.value)
  }

  /** What the invariant promises a user: the artifact exists, and a completed job points at it. */
  lemma SafeMeans(c: Case, d: Durable)
    requires CaseOk(c) && Safe(c, d)
    ensures Holds(d.files, c.staging, c.art) || (d.rec.Some? && Holds(d.files, d.rec.value.dest, c.art))
    ensures d.job.value.status == J.Completed ==>
      d.rec.Some? && d.job.value.finalPath == Some(d.rec.value.dest) && Holds(d.files, d.rec.value.dest, c.art)
    ensures (exists p :: p in c.files0 && p != c.staging && Under(p, c.workDir) && !Same(c.files0, d.files, p)) ==>
      d.job.value.status == J.Completed
    ensures c.policy == Overwrite && Target(c) in c.files0 && !SlotHolds(d.files, Target(c), File(c.art)) ==>
      SlotHolds(d.files, Target(c), c.files0[Target(c)])
  {
    if p :| p in c.files0 && p != c.staging && Under(p, c.workDir) && !Same(c.files0, d.files, p) {
      assert p != Target(c) && !Protected(c, d, p);
    }
  }

  /** Adopting by size alone is sound: with the staging file gone, a destination of the journaled
      size can only be the artifact. */
  lemma AdoptionBySizeSound(hash: Bytes -> string, c: Case, d: Durable)
    requires CaseOk(c) && Safe(c, d)
    requires d.rec.Some? && d.rec.value.phase == InProgress && !FileExists(d.files, c.staging)
    ensures Holds(d.files, d.rec.value.dest, c.art)
    ensures ValidArtifact(hash, d.files, d.rec.value.dest, c.size, d.rec.value.digest) <==> GoodSize(c)
  {}

  /** Adopting by digest is sound wherever it is allowed: with a collision-free hash a file that
      passes can only be the artifact. */
  lemma AdoptionByDigestSound(hash: Bytes -> string, f: Files, p: Path, size: int, art: Bytes)
    requires forall x, y :: hash(x) == hash(y) ==> x == y
    requires forall x :: ToLower(hash(x)) == hash(x)
    requires ValidArtifact(hash, f, p, size, "sha256:" + hash(art))
    ensures Holds(f, p, art)
  {
    var digest := "sha256:" + hash(art);
    assert ToLower("sha256:") == "sha256:";
    assert ToLower(digest) == ToLower("sha256:") + ToLower(hash(art));
    assert TrimPrefix(digest, "sha256:") == hash(art);
  }

  // ---------- progress ----------

  function Rank(d: Durable): nat {
    match d.rec
    case None => 0
    case Some(r) =>
      match r.phase
      case Prepared => 1
      case InProgress => 2
      case Validated => 3
      case DBCommitted => 4
      case CleanupPending => 5
      case Complete => 6
      case Aborted => 7
  }

  /** The job says completed, with the artifact at p. */
  ghost predicate CompletedAt(d: Durable, p: Path) {
    d.job.Some? && d.job.value.status == J.Completed && d.job.value.finalPath == Some(p)
  }

  /** The phase never moves backward, is final once complete or failed, and never fails after
      the commit; a completed job stays completed, where it is. */
  ghost predicate Forward(d: Durable, e: Durable) {
    && Rank(d) <= Rank(e)
    && (4 <= Rank(d) <= 6 ==> Rank(e) <= 6)
    && (forall p :: CompletedAt(d, p) ==> CompletedAt(e, p))
  }

  /** Every durable state is safe and the phase only ever advances. */
  ghost predicate SafeRun(c: Case, h: seq<Durable>) {
    && (forall k :: 0 <= k < |h| ==> Safe(c, h[k]))
    && (forall k :: 0 < k < |h| ==> Forward(h[k - 1], h[k]))
  }

  /** So over a whole run. */
  lemma {:induction false} SafeRunForward(c: Case, h: seq<Durable>, i: nat, k: nat)
    requires SafeRun(c, h) && i <= k < |h|
    ensures Forward(h[i], h[k])
  {
    if i < k {
      SafeRunForward(c, h, i, k - 1);
      assert Forward(h[k - 1], h[k]);
    }
  }

  /** A job that was completed once stays completed, where it is. */
  ghost predicate CompletedStays(h: seq<Durable>) {
    forall i, k, p :: 0 <= i <= k < |h| && CompletedAt(h[i], p) ==> CompletedAt(h[k], p)
  }

  lemma SafeRunStays(c: Case, h: seq<Durable>)
    requires SafeRun(c, h)
    ensures CompletedStays(h)
  {
    forall i, k, p | 0 <= i <= k < |h| && CompletedAt(h[i], p) ensures CompletedAt(h[k], p) {
      SafeRunForward(c, h, i, k);
    }
  }

  lemma SafeRunGrows(c: Case, h: seq<Durable>, e: Durable)
    requires h != [] && SafeRun(c, h) && Safe(c, e) && Forward(h[|h| - 1], e)
    ensures SafeRun(c, h + [e])
  {}

  lemma SafeRunAbsorbs(c: Case, h: seq<Durable>, more: seq<Durable>)
    requires h != [] && SafeRun(c, h)
    requires forall k :: 0 <= k < |more| ==> Safe(c, more[k]) && SameRows(more[k], h[|h| - 1])
    ensures SafeRun(c, h + more)
  {
    var all := h + more;
    forall k | 0 <= k < |all| ensures Safe(c, all[k]) && (k >= |h| - 1 ==> SameRows(all[k], h[|h| - 1])) {
      if k >= |h| { assert all[k] == more[k - |h|]; }
    }
  }

  predicate SameRows(d: Durable, e: Durable) { d.rec == e.rec && d.job == e.job }

  // ---------- what moving and cleaning keep ----------

  /** During the move the slot keeps what it held, or receives the artifact. */
  lemma MoveKeepsSlot(c: Case, f0: Files, f: Files, suffix: string)
    requires CaseOk(c) && Holds(f0, c.staging, c.art) && Target(c) in c.files0 && KeepsTarget(c, f0)
    requires c.policy == Overwrite
    requires MoveState(f0, f, c.staging, Target(c), true, suffix)
    ensures KeepsTarget(c, f)
  {
    var dst := Target(c);
    var node := if SlotHolds(f0, dst, c.files0[dst]) then c.files0[dst] else File(c.art);
    if dst in f0 && f0[dst] == node {
      if KeptAside(f0, f, dst, suffix) { assert BackedUp(f, dst, suffix, node); }
    } else {
      var s: string :| BackedUp(f0, dst, s, node);
      assert |BackupOf(dst, s).name| > |dst.name|;
      assert Same(f0, f, BackupOf(dst, s)) && BackedUp(f, dst, s, node);
    }
  }

  lemma MoveKeepsSafe(c: Case, d: Durable, f: Files, suffix: string)
    requires CaseOk(c) && Safe(c, d) && d.rec.Some? && d.rec.value.phase == InProgress && c.staging in d.files
    requires Fresh(d.files, d.rec.value.dest, suffix)
    requires MoveState(d.files, f, c.staging, d.rec.value.dest, c.policy == Overwrite, suffix)
    ensures Safe(c, d.(files := f))
  {
    var dst := d.rec.value.dest;
    var e := d.(files := f);
    assert dst != c.staging;
    assert !Under(dst, c.workDir);
    forall p | Protected(c, e, p) ensures Same(c.files0, f, p) {
      assert Protected(c, d, p);
      assert Same(c.files0, d.files, p);
      assert p != dst ==> Same(d.files, f, p);
    }
    assert c.staging in f ==> Same(d.files, f, c.staging);
    if c.policy == Overwrite && Target(c) in c.files0 { MoveKeepsSlot(c, d.files, f, suffix); }
  }

  lemma SlotOutlivesCleanUp(f0: Files, f: Files, dst: Path, node: Node, w: string, job: string)
    requires SlotHolds(f0, dst, node) && CleanState(f0, f, w, job) && !Under(dst, w)
    ensures SlotHolds(f, dst, node)
  {
    if !(dst in f0 && f0[dst] == node) {
      var s: string :| BackedUp(f0, dst, s, node);
      assert !Under(BackupOf(dst, s), w);
      assert Same(f0, f, BackupOf(dst, s)) && BackedUp(f, dst, s, node);
    }
  }

  lemma CleanKeepsSafe(c: Case, d: Durable, f: Files, job: string)
    requires CaseOk(c) && Safe(c, d) && d.rec.Some? && d.rec.value.phase == CleanupPending
    requires CleanState(d.files, f, c.workDir, job)
    ensures Safe(c, d.(files := f))
  {
    var e := d.(files := f);
    assert !Under(d.rec.value.dest, c.workDir);
    forall p | Protected(c, e, p) ensures Same(c.files0, f, p) {
      assert Protected(c, d, p);
      assert Same(c.files0, d.files, p) && p in f;
    }
    if c.policy == Overwrite && Target(c) in c.files0 {
      var node := if SlotHolds(d.files, Target(c), c.files0[Target(c)]) then c.files0[Target(c)] else File(c.art);
      SlotOutlivesCleanUp(d.files, f, Target(c), node, c.workDir, job);
    }
  }

  /** The conflict policy leaves a place for the artifact. */
  predicate PlaceFor(c: Case, f: Files) {
    MayRename(c.policy) || Target(c) !in f || (c.policy == Overwrite && f[Target(c)].File?)
  }

  /** The journaled destination can receive the artifact. */
  predicate DestFree(r: Record, f: Files) {
    r.dest !in f || (r.policy == Overwrite && f[r.dest].File?)
  }

  /** What a caller can check of a durable state to know whether recovery will complete the job. */
  predicate Deliverable(c: Case, d: Durable) {
    d.rec.Some? &&
    match d.rec.value.phase
    case Prepared => GoodSize(c) && PlaceFor(c, d.files)
    case InProgress => GoodSize(c) && (c.staging in d.files ==> PlaceFor(c, d.files))
    case Aborted => false
    case _ => true
  }

  /** Nothing is left to recover. */
  predicate Settled(d: Durable) {
    && (d.rec.Some? ==> Terminal(d.rec.value.phase))
    && (d.job.Some? ==> !Recoverable(d.job.value.status))
  }

  /** findRenamedArtifact: without a digest nothing is adopted, with one the first valid probe is. */
  method FindRenamedArtifact(hash: Bytes -> string, f: Files, destDir: string, recorded: string, size: int,
                             digest: string)
    returns (r: Option<Path>)
    ensures digest == "" ==> r == None
    ensures r.Some? ==> exists k: nat ::
      && 1 <= k <= 1000 && FirstProbe(hash, f, destDir, recorded, size, digest, k)
      && r.value == Path(destDir, ProbeName(recorded, k))
    ensures r == None && digest != "" ==> NoProbe(hash, f, destDir, recorded, size, digest, 1001)
  {
    if digest == "" { return None; }
    var counter := 1;
    while counter <= 1000
      invariant 1 <= counter <= 1001
      invariant NoProbe(hash, f, destDir, recorded, size, digest, counter)
    {
      var candidate := Path(destDir, ProbeName(recorded, counter));
      if ValidArtifact(hash, f, candidate, size, digest) {
        assert ProbeHits(hash, f, destDir, recorded, size, digest, counter);
        assert FirstProbe(hash, f, destDir, recorded, size, digest, counter);
        return Some(candidate);
      }
      counter := counter + 1;
    }
    return None;
  }

  /** The k-th name probed validates. */
  predicate ProbeHits(hash: Bytes -> string, f: Files, destDir: string, recorded: string, size: int, digest: string,
                      k: nat) {
    ValidArtifact(hash, f, Path(destDir, ProbeName(recorded, k)), size, digest)
  }

  predicate NoProbe(hash: Bytes -> string, f: Files, destDir: string, recorded: string, size: int, digest: string,
                    n: nat) {
    forall k: nat :: 1 <= k < n ==> !ProbeHits(hash, f, destDir, recorded, size, digest, k)
  }

  predicate FirstProbe(hash: Bytes -> string, f: Files, destDir: string, recorded: string, size: int, digest: string,
                       n: nat) {
    && ProbeHits(hash, f, destDir, recorded, size, digest, n)
    && NoProbe(hash, f, destDir, recorded, size, digest, n)
  }

  predicate Emptied(f: Files, w: string) {
    forall p :: p in f ==> !Under(p, w)
  }

  // ---------- the manager ----------

  class Manager {
    const disk: Disk
    const hash: Bytes -> string
    const jobId: string
    var rec: Option<Record>
    var job: Option<Row>
    /** Every durable state so far. */
    var history: seq<Durable>
    /** How this run began, when it began with a complete artifact; None for an arbitrary
        journal, about which only termination and idempotence are claimed. */
    ghost const start: Option<Case>

    function Now(): Durable reads this, disk { Durable(disk.files, rec, job) }

    ghost predicate Valid() reads this, disk {
      && disk.Valid() && history != [] && history[|history| - 1] == Now()
      && (start.Some? ==> CaseOk(start.value) && SafeRun(start.value, history))
    }

    /** The next durable state keeps the invariant of the run. */
    ghost predicate Allows(e: Durable) reads this, disk {
      start.Some? ==> Safe(start.value, e) && Forward(Now(), e)
    }

    constructor (theDisk: Disk, theHash: Bytes -> string, id: string, r: Option<Record>, j: Option<Row>,
                 ghost how: Option<Case>)
      requires theDisk.Valid()
      requires how.Some? ==> CaseOk(how.value) && Safe(how.value, Durable(theDisk.files, r, j))
      ensures Valid() && disk == theDisk && hash == theHash && jobId == id && start == how
      ensures rec == r && job == j && history == [Now()]
    {
      disk, hash, jobId, start, rec, job := theDisk, theHash, id, how, r, j;
      history := [Durable(theDisk.files, r, j)];
    }

    method Append()
      requires disk.Valid() && history != []
      requires start.Some? ==> CaseOk(start.value) && SafeRun(start.value, history)
      requires start.Some? ==> Safe(start.value, Now()) && Forward(history[|history| - 1], Now())
      modifies this`history
      ensures Valid() && history == old(history) + [Now()]
    {
      if start.Some? { SafeRunGrows(start.value, history, Now()); }
      history := history + [Now()];
    }

    /** SaveFinalizationRecord: insert or replace the journal row. */
    method SaveRecord(r: Record)
      requires Valid() && Allows(Now().(rec := Some(r)))
      modifies this
      ensures Valid() && Extends(old(history), history)
      ensures job == old(job) && rec == Some(r)
    {
      rec := Some(r);
      Append();
    }

    /** UpdateFinalizationPhase. */
    method UpdatePhase(p: Phase)
      requires Valid() && rec.Some? && Allows(Now().(rec := Some(rec.value.(phase := p))))
      modifies this
      ensures Valid() && Extends(old(history), history)
      ensures job == old(job) && rec == Some(old(rec).value.(phase := p))
    {
      SaveRecord(rec.value.(phase := p));
    }

    /** repo.Update. */
    method UpdateJob(j: Row)
      requires Valid() && Allows(Now().(job := Some(j)))
      modifies this
      ensures Valid() && Extends(old(history), history)
      ensures rec == old(rec) && job == Some(j)
    {
      job := Some(j);
      Append();
    }

    /** Takes over the disks logged since from. */
    method Absorb(from: nat)
      requires disk.Valid() && history != [] && from <= |disk.log|
      requires SameRows(Now(), history[|history| - 1])
      requires from == |disk.log| ==> history[|history| - 1] == Now()
      requires start.Some? ==> CaseOk(start.value) && SafeRun(start.value, history)
      requires start.Some? ==> forall k :: from <= k < |disk.log| ==> Safe(start.value, Durable(disk.log[k], rec, job))
      modifies this`history
      ensures Valid() && Extends(old(history), history)
    {
      var log, r, j := disk.log, rec, job;
      var more := seq(|log| - from, i requires 0 <= i < |log| - from => Durable(log[from + i], r, j));
      if start.Some? { SafeRunAbsorbs(start.value, history, more); }
      history := history + more;
    }

    /** FinalizeFileToPath for the journaled paths. */
    method MoveArtifact() returns (r: MoveResult)
      requires Valid() && rec.Some?
      requires start.Some? ==> rec.value.phase == InProgress && rec.value.staging in disk.files
      modifies this, disk
      ensures Valid() && Extends(old(history), history)
      ensures rec == old(rec) && job == old(job)
      ensures r == Moved && rec.value.staging != rec.value.dest ==>
        Arrived(old(disk.files), disk.files, rec.value.staging, rec.value.dest)
      ensures r != Moved && rec.value.staging in old(disk.files) ==>
        Same(old(disk.files), disk.files, rec.value.staging)
      ensures forall p :: p in old(disk.files) && p != rec.value.staging && p != rec.value.dest ==>
        Same(old(disk.files), disk.files, p)
      ensures disk.Reliable() && rec.value.staging != rec.value.dest &&
              FileExists(old(disk.files), rec.value.staging) ==>
        (r == Moved <==> DestFree(rec.value, old(disk.files)))
    {
      ghost var d := Now();
      var from := |disk.log|;
      ghost var suffix: string;
      r, suffix := disk.FinalizeFileToPath(rec.value.staging, rec.value.dest, rec.value.policy == Overwrite);
      if start.Some? {
        forall k | from <= k < |disk.log| ensures Safe(start.value, Durable(disk.log[k], rec, job)) {
          MoveKeepsSafe(start.value, d, disk.log[k], suffix);
        }
      }
      Absorb(from);
    }

    /** CleanupWorkDir; an error is only logged. */
    method CleanUp(w: string)
      requires Valid()
      requires start.Some? ==> rec.Some? && rec.value.phase == CleanupPending && w == start.value.workDir
      modifies this, disk
      ensures Valid() && Extends(old(history), history)
      ensures rec == old(rec) && job == old(job)
      ensures CleanState(old(disk.files), disk.files, w, jobId)
      ensures disk.Reliable() && MarkerMatches(old(disk.files), w, jobId) ==> Emptied(disk.files, w)
    {
      ghost var d := Now();
      var from := |disk.log|;
      var _ := disk.CleanupWorkDir(jobId, w);
      if start.Some? {
        forall k | from <= k < |disk.log| ensures Safe(start.value, Durable(disk.log[k], rec, job)) {
          CleanKeepsSafe(start.value, d, disk.log[k], jobId);
        }
      }
      Absorb(from);
    }

    /** Directory w, if it is one and carries the marker of the job, is gone, on a disk that obeys;
        nothing outside it went with it. */
    ghost predicate Cleaned(f0: Files, f: Files, w: string) {
      && (disk.Reliable() && w != "" && MarkerMatches(f0, w, jobId) ==> Emptied(f, w))
      && (forall p :: p in f ==> Same(f0, f, p))
      && (forall p :: p in f0 && !Under(p, w) ==> p in f)
    }

    /** The journaled work directory is cleaned, or the job's own if none was journaled. */
    ghost predicate CleanedUp(f0: Files, f: Files, r: Record, j: Row) {
      (r.cleanup != "" ==> Cleaned(f0, f, r.cleanup)) && (r.cleanup == "" ==> Cleaned(f0, f, j.workDir))
    }

    /** The run has a work directory with the job's marker, which is not itself the artifact. */
    ghost predicate Marked(f: Files) {
      && start.Some? && start.value.workDir != "" && MarkerMatches(f, start.value.workDir, jobId)
      && start.value.staging != MarkerOf(start.value.workDir)
    }

    /** executeCleanupAndComplete. */
    method ExecuteCleanupAndComplete()
      requires Valid() && rec.Some? && job.Some?
      requires start.Some? ==> rec.value.phase == DBCommitted || rec.value.phase == CleanupPending
      modifies this, disk
      ensures Valid() && Extends(old(history), history)
      ensures job == old(job) && rec == Some(old(rec).value.(phase := Complete))
      ensures CleanedUp(old(disk.files), disk.files, old(rec).value, old(job).value)
    {
      UpdatePhase(CleanupPending);
      var w := rec.value.cleanup;
      if w == "" { w := job.value.workDir; }
      if w != "" { CleanUp(w); }
      UpdatePhase(Complete);
    }

    /** failJobWithReason. */
    method FailJob()
      requires Valid() && job.Some?
      requires start.Some? ==> rec == None || rec.value.phase == Aborted
      modifies this
      ensures Valid() && Extends(old(history), history)
      ensures rec == old(rec) && job == Some(old(job).value.(status := J.Failed))
    {
      UpdateJob(job.value.(status := J.Failed));
    }

    /** The two rows of a failure, in the order the code writes them. */
    method Abort()
      requires Valid() && rec.Some? && job.Some?
      requires start.Some? ==> Rank(Now()) <= 3 && Active(job.value.status)
      modifies this
      ensures Valid() && Extends(old(history), history)
      ensures rec == Some(old(rec).value.(phase := Aborted)) && job == Some(old(job).value.(status := J.Failed))
    {
      UpdatePhase(Aborted);
      FailJob();
    }

    /** The job commit and everything after it. */
    method Commit(bytes: int)
      requires Valid() && rec.Some? && job.Some?
      requires start.Some? ==> rec.value.phase == Validated && (start.value.size > 0 ==> bytes == start.value.size)
      modifies this, disk
      ensures Valid() && Extends(old(history), history)
      ensures rec == Some(old(rec).value.(phase := Complete))
      ensures job ==
              Some(old(job).value.(status := J.Completed, finalPath := Some(rec.value.dest), totalBytes := bytes))
      ensures CleanedUp(old(disk.files), disk.files, old(rec).value, old(job).value)
    {
      UpdateJob(job.value.(status := J.Completed, finalPath := Some(rec.value.dest), totalBytes := bytes));
      UpdatePhase(DBCommitted);
      ExecuteCleanupAndComplete();
    }

    /** commitAndCleanupFinalization. */
    method CommitAndCleanup()
      requires Valid() && rec.Some? && job.Some?
      requires start.Some? ==> rec.value.phase == Validated
      modifies this, disk
      ensures Valid() && Extends(old(history), history)
      ensures rec == Some(old(rec).value.(phase := Complete))
      ensures job.Some? && job.value.status == J.Completed && job.value.finalPath == Some(rec.value.dest)
      ensures var r := old(rec).value;
              job.value.totalBytes ==
                if r.size > 0 then r.size
                else if FileExists(old(disk.files), r.dest) && |old(disk.files)[r.dest].data| > 0
                then |old(disk.files)[r.dest].data| else old(job).value.totalBytes
      ensures CleanedUp(old(disk.files), disk.files, old(rec).value, old(job).value)
    {
      var r := rec.value;
      var bytes := job.value.totalBytes;
      if r.size > 0 {
        bytes := r.size;
      } else if FileExists(disk.files, r.dest) && disk.files[r.dest].data != [] {
        bytes := |disk.files[r.dest].data|;
      }
      Commit(bytes);
    }

    /** The part finalization and recovery share: journal the move, move, validate. */
    method MoveAndValidate() returns (ok: bool)
      requires Valid() && rec.Some? && job.Some?
      requires start.Some? ==> 1 <= Rank(Now()) <= 2 && rec.value.staging in disk.files
      modifies this, disk
      ensures Valid() && Extends(old(history), history)
      ensures ok ==> rec == Some(old(rec).value.(phase := Validated)) && job == old(job)
      ensures !ok ==> rec == Some(old(rec).value.(phase := Aborted)) && job == Some(old(job).value.(status := J.Failed))
      ensures Marked(old(disk.files)) ==> Marked(disk.files)
      ensures disk.Reliable() && start.Some? ==>
        (ok <==> GoodSize(start.value) && DestFree(old(rec).value, old(disk.files)))
    {
      UpdatePhase(InProgress);
      var moved := MoveArtifact();
      ok := moved == Moved && ValidArtifact(hash, disk.files, rec.value.dest, rec.value.size, rec.value.digest);
      if !ok {
        Abort();
        return;
      }
      UpdatePhase(Validated);
    }

    /** finalizeMediaArtifact.  subtitlesOk is the outcome of moving the subtitle sidecars. */
    method FinalizeMediaArtifact(src: Path, expectedSize: int, subtitlesOk: bool)
      requires Valid() && rec == None && job.Some?
      requires start.Some? ==>
        src == start.value.staging && expectedSize == start.value.size && Active(job.value.status)
      modifies this, disk
      ensures Valid() && Extends(old(history), history)
      ensures job.Some? && (job.value.status == J.Completed || job.value.status == J.Failed)
      ensures rec.Some? ==> Terminal(rec.value.phase)
      ensures job.value.status == J.Completed <==> rec.Some? && rec.value.phase == Complete
      ensures disk.Reliable() && start.Some? ==>
        (job.value.status == J.Completed <==>
          GoodSize(start.value) && PlaceFor(start.value, old(disk.files)) && subtitlesOk)
      ensures disk.Reliable() && Marked(old(disk.files)) && job.value.status == J.Completed ==>
        Emptied(disk.files, start.value.workDir)
      ensures job.value.status == J.Completed ==>
        job.value.totalBytes == if expectedSize > 0 then expectedSize else old(job).value.totalBytes
    {
      var j := job.value;
      var resolved := ResolveFinalPath(disk.files, src, j.destDir, j.policy);
      if resolved == None {
        FailJob();
        return;
      }
      SaveRecord(Record(src, resolved.value, expectedSize, "", j.policy, Prepared, j.workDir));
      var ok := MoveAndValidate();
      if !ok { return; }
      if !subtitlesOk {
        Abort();
        return;
      }
      Commit(if expectedSize > 0 then expectedSize else j.totalBytes);
    }

    /** resumeFinalizationFromSource. */
    method ResumeFromSource()
      requires Valid() && rec.Some? && job.Some?
      requires start.Some? ==> 1 <= Rank(Now()) <= 2 && rec.value.staging in disk.files
      modifies this, disk
      ensures Valid() && Extends(old(history), history)
      ensures rec.Some? && Terminal(rec.value.phase) && job.Some?
      ensures rec.value.phase == Complete ==> job.value.status == J.Completed
      ensures rec.value.phase == Aborted ==> job.value.status == J.Failed
      ensures disk.Reliable() && start.Some? ==>
        (rec.value.phase == Complete <==> GoodSize(start.value) && PlaceFor(start.value, old(disk.files)))
      ensures disk.Reliable() && Marked(old(disk.files)) && rec.value.phase == Complete ==>
        Emptied(disk.files, start.value.workDir)
    {
      var r := rec.value;
      var resolved := ResolveFinalPath(disk.files, r.staging, job.value.destDir, r.policy);
      if resolved == None {
        Abort();
        return;
      }
      if resolved.value != r.dest { SaveRecord(r.(dest := resolved.value)); }
      var ok := MoveAndValidate();
      if ok { CommitAndCleanup(); }
    }

    /** Adopts the file at dest: the journal says validated, then the job is committed. */
    method Adopt(dest: Path)
      requires Valid() && rec.Some? && job.Some?
      requires start.Some? ==>
        && dest == rec.value.dest && Holds(disk.files, dest, start.value.art) && GoodSize(start.value)
        && 1 <= Rank(Now()) <= 3
      modifies this, disk
      ensures Valid() && Extends(old(history), history)
      ensures rec == Some(old(rec).value.(phase := Complete, dest := dest))
      ensures job.Some? && job.value.status == J.Completed && job.value.finalPath == Some(dest)
      ensures CleanedUp(old(disk.files), disk.files, old(rec).value, old(job).value)
    {
      if dest != rec.value.dest { SaveRecord(rec.value.(dest := dest)); }
      UpdatePhase(Validated);
      CommitAndCleanup();
    }

    /** The journaled destination validates, or under a renaming policy one of the 1000 probes does. */
    ghost predicate Adoptable(f: Files, r: Record, j: Row) {
      || ValidArtifact(hash, f, r.dest, r.size, r.digest)
      || (MayRename(r.policy) && !NoProbe(hash, f, j.destDir, r.dest.name, r.size, r.digest, 1001))
    }

    /** reconcileFinalizationRecord, phase in_progress with the staging file gone. */
    method ReconcileMoved()
      requires Valid() && rec.Some? && job.Some?
      requires rec.value.phase == InProgress && !FileExists(disk.files, rec.value.staging)
      modifies this, disk
      ensures Valid() && Extends(old(history), history)
      ensures rec.Some? && Terminal(rec.value.phase) && job.Some?
      ensures rec.value.phase == Complete ==> job.value.status == J.Completed
      ensures rec.value.phase == Aborted ==> job.value.status == J.Failed
      ensures start.Some? ==> (rec.value.phase == Complete <==> GoodSize(start.value))
      ensures old(rec).value.digest == "" ==>
        (rec.value.phase == Complete <==>
          ValidArtifact(hash, old(disk.files), old(rec).value.dest, old(rec).value.size, ""))
      ensures old(rec).value.digest != "" ==>
        (rec.value.phase == Complete <==> Adoptable(old(disk.files), old(rec).value, old(job).value))
      ensures disk.Reliable() && Marked(old(disk.files)) && rec.value.phase == Complete ==>
        Emptied(disk.files, start.value.workDir)
    {
      var r := rec.value;
      if ValidArtifact(hash, disk.files, r.dest, r.size, r.digest) {
        Adopt(r.dest);
      } else if MayRename(r.policy) {
        var found := FindRenamedArtifact(hash, disk.files, job.value.destDir, r.dest.name, r.size, r.digest);
        if found.Some? {
          Adopt(found.value);
        } else {
          Abort();
        }
      } else {
        Abort();
      }
    }

    /** reconcileFinalizationRecord. */
    method ReconcileRecord()
      requires Valid() && rec.Some?
      modifies this, disk
      ensures Valid() && Extends(old(history), history)
      ensures rec.Some? && Terminal(rec.value.phase)
      ensures old(Terminal(rec.value.phase)) ==> history == old(history) && disk.files == old(disk.files)
      ensures old(job) == None ==> job == None && disk.files == old(disk.files)
      ensures old(job).Some? ==> job.Some?
      ensures old(job).Some? && old(rec).value.phase == DBCommitted ==> job.value.status == J.Completed
      ensures start.Some? ==> (rec.value.phase == Complete <==> job.value.status == J.Completed)
      ensures disk.Reliable() && start.Some? ==> (rec.value.phase == Complete <==> Deliverable(start.value, old(Now())))
      ensures disk.Reliable() && Marked(old(disk.files)) && old(rec).value.phase != Complete &&
              rec.value.phase == Complete ==>
        Emptied(disk.files, start.value.workDir)
    {
      var r := rec.value;
      if Terminal(r.phase) { return; }
      if job == None {
        UpdatePhase(Aborted);
        return;
      }
      var srcExists := FileExists(disk.files, r.staging);
      var dstValid := ValidArtifact(hash, disk.files, r.dest, r.size, r.digest);
      if r.phase == Prepared {
        if srcExists {
          ResumeFromSource();
        } else if dstValid && r.digest != "" {
          Adopt(r.dest);
        } else {
          Abort();
        }
      } else if r.phase == InProgress {
        if srcExists {
          ResumeFromSource();
        } else {
          ReconcileMoved();
        }
      } else if r.phase == Validated {
        if dstValid {
          CommitAndCleanup();
        } else if srcExists {
          ResumeFromSource();
        } else {
          Abort();
        }
      } else {
        if r.phase == DBCommitted && job.value.status != J.Completed { RestoreCommit(); }
        ExecuteCleanupAndComplete();
      }
    }

    /** reconcileFinalizationRecord, phase db_committed with the job row behind the journal. */
    method RestoreCommit()
      requires Valid() && rec.Some? && job.Some? && job.value.status != J.Completed && rec.value.phase == DBCommitted
      modifies this
      ensures Valid() && Extends(old(history), history)
      ensures rec == old(rec) && job.Some? && job.value.status == J.Completed
      ensures job.value.finalPath == Some(rec.value.dest)
      ensures job.value.totalBytes == if rec.value.size > 0 then rec.value.size else old(job).value.totalBytes
    {
      var bytes := if rec.value.size > 0 then rec.value.size else job.value.totalBytes;
      UpdateJob(job.value.(status := J.Completed, finalPath := Some(rec.value.dest), totalBytes := bytes));
    }

    /** recoverJob for a media job: its engine process did not survive. */
    method RecoverJob()
      requires Valid() && job.Some? && Recoverable(job.value.status)
      requires start.Some? ==> rec == None || Terminal(rec.value.phase)
      modifies this
      ensures Valid() && Extends(old(history), history)
      ensures rec == old(rec) && job.Some?
      ensures old(job).value.status in {J.Queued, J.Paused} ==> job == old(job) && history == old(history)
      ensures old(job).value.status !in {J.Queued, J.Paused} ==> job == Some(old(job).value.(status := J.Failed))
    {
      if Waits(job.value.status) { return; }
      UpdateJob(job.value.(status := J.Failed));
    }

    /** recover: the journal first, then the jobs. */
    method Recover()
      requires Valid()
      modifies this, disk
      ensures Valid() && Extends(old(history), history)
      ensures rec.Some? ==> Terminal(rec.value.phase)
      ensures start.Some? ==> Settled(Now())
      ensures old(rec) == None && old(job).Some? ==>
        var was := old(job).value;
        job == Some(if was.status in {J.Completed, J.Failed, J.Cancelled, J.Queued, J.Paused} then was
                    else was.(status := J.Failed))
      ensures old(Settled(Now())) ==> history == old(history) && disk.files == old(disk.files)
      ensures disk.Reliable() && start.Some? ==>
        (job.value.status == J.Completed <==> Deliverable(start.value, old(Now())))
      ensures disk.Reliable() && Marked(old(disk.files)) && !old(Settled(Now())) && job.value.status == J.Completed ==>
        Emptied(disk.files, start.value.workDir)
    {
      if rec.Some? { ReconcileRecord(); }
      if job.Some? && Recoverable(job.value.status) { RecoverJob(); }
    }

    /** The process dies right after durable state k and starts again. */
    method Crash(k: nat)
      requires Valid() && k < |history|
      modifies this, disk
      ensures Valid() && history == old(history)[..k + 1]
      ensures Now() == old(history)[k]
    {
      var d := history[k];
      history := history[..k + 1];
      disk.Restart(d.files);
      rec, job := d.rec, d.job;
    }
  }

  /** The crash falls on a durable state the life has added since it began at since. */
  function CutAt(since: nat, crash: nat, length: nat): nat
    requires since < length
  {
    since + crash % (length - since)
  }

  /** The crash cuts before, and after begins with what is left of it. */
  ghost predicate NextLife(before: seq<Durable>, after: seq<Durable>, since: nat, crash: nat, cut: nat) {
    since < |before| && cut == CutAt(since, crash, |before|) && cut < |before| && before[..cut + 1] <= after
  }

  function Since(first: nat, cuts: seq<nat>, n: nat): nat
    requires n <= |cuts|
  {
    if n == 0 then first else cuts[n - 1]
  }

  /** lives are the histories up to each crash and to the end, cuts where the crashes fell. */
  ghost predicate Lives(lives: seq<seq<Durable>>, cuts: seq<nat>, crashes: seq<nat>, first: nat) {
    && |lives| == |cuts| + 1 && |cuts| <= |crashes|
    && forall n :: 0 <= n < |cuts| ==> NextLife(lives[n], lives[n + 1], Since(first, cuts, n), crashes[n], cuts[n])
  }

  lemma LivesGrow(lives: seq<seq<Durable>>, cuts: seq<nat>, crashes: seq<nat>, first: nat, after: seq<Durable>,
                  cut: nat)
    requires Lives(lives, cuts, crashes, first) && |cuts| < |crashes|
    requires NextLife(lives[|cuts|], after, Since(first, cuts, |cuts|), crashes[|cuts|], cut)
    ensures Lives(lives + [after], cuts + [cut], crashes, first)
  {
    var l, c := lives + [after], cuts + [cut];
    forall n | 0 <= n < |c| ensures NextLife(l[n], l[n + 1], Since(first, c, n), crashes[n], c[n]) {
      assert n < |cuts| ==> l[n + 1] == lives[n + 1];
      assert Since(first, c, n) == Since(first, cuts, n);
    }
  }

  /** A crash and the recovery after it. */
  method CrashAndRecover(m: Manager, cut: nat)
    requires m.Valid() && m.start.Some? && cut < |m.history|
    modifies m, m.disk
    ensures m.Valid() && Settled(m.Now()) && old(m.history)[..cut + 1] <= m.history
    ensures SafeRun(m.start.value, m.history) && CompletedStays(m.history)
  {
    m.Crash(cut);
    m.Recover();
    SafeRunStays(m.start.value, m.history);
  }

  /** How a settled safe run ends: completed with the artifact where the job says, or failed with it at
      the staging path or where the journal says. */
  ghost predicate Ends(c: Case, d: Durable) {
    && Settled(d) && d.job.Some? && (d.job.value.status == J.Completed || d.job.value.status == J.Failed)
    && (d.job.value.status == J.Completed ==>
          d.job.value.finalPath.Some? && Holds(d.files, d.job.value.finalPath.value, c.art))
    && (d.job.value.status == J.Failed ==>
          Holds(d.files, c.staging, c.art) || (d.rec.Some? && Holds(d.files, d.rec.value.dest, c.art)))
  }

  lemma SettledEnds(c: Case, d: Durable)
    requires CaseOk(c) && Safe(c, d) && Settled(d)
    ensures Ends(c, d)
  {
    SafeMeans(c, d);
  }

  /** Any number of crashes, each at any durable state of the run it interrupts and each followed by a
      recovery, that may itself be cut short by the next crash. */
  method SurviveCrashes(m: Manager, crashes: seq<nat>, first: nat)
    returns (ghost lives: seq<seq<Durable>>, ghost cuts: seq<nat>)
    requires m.Valid() && m.start.Some? && Settled(m.Now()) && first < |m.history| && CompletedStays(m.history)
    modifies m, m.disk
    ensures m.Valid() && Settled(m.Now())
    ensures Lives(lives, cuts, crashes, first) && |cuts| == |crashes|
    ensures lives[0] == old(m.history) && lives[|crashes|] == m.history
    ensures forall n :: 0 <= n < |lives| ==> SafeRun(m.start.value, lives[n]) && CompletedStays(lives[n])
  {
    var since := first;
    lives, cuts := [m.history], [];
    var n := 0;
    while n < |crashes|
      invariant 0 <= n <= |crashes| && m.Valid() && since < |m.history| && Settled(m.Now())
      invariant Lives(lives, cuts, crashes, first) && |cuts| == n && since == Since(first, cuts, n)
      invariant lives[0] == old(m.history) && lives[n] == m.history
      invariant forall i :: 0 <= i < |lives| ==> SafeRun(m.start.value, lives[i]) && CompletedStays(lives[i])
    {
      var k := CutAt(since, crashes[n], |m.history|);
      CrashAndRecover(m, k);
      LivesGrow(lives, cuts, crashes, first, m.history, k);
      since := k;
      lives, cuts := lives + [m.history], cuts + [k];
      n := n + 1;
    }
  }

  /** A whole life of one artifact: finalization, then any number of crashes. */
  method FinalizeThroughCrashes(m: Manager, src: Path, size: int, subtitlesOk: bool, crashes: seq<nat>)
    returns (ghost lives: seq<seq<Durable>>, ghost cuts: seq<nat>)
    requires m.Valid() && m.start.Some? && m.rec == None && m.job.Some? && Active(m.job.value.status)
    requires src == m.start.value.staging && size == m.start.value.size
    modifies m, m.disk
    ensures m.Valid() && Ends(m.start.value, m.Now())
    ensures Lives(lives, cuts, crashes, |old(m.history)| - 1) && |cuts| == |crashes|
    ensures Extends(old(m.history), lives[0]) && lives[|crashes|] == m.history
    ensures forall n :: 0 <= n < |lives| ==> SafeRun(m.start.value, lives[n]) && CompletedStays(lives[n])
  {
    var first: nat := |m.history| - 1;
    m.FinalizeMediaArtifact(src, size, subtitlesOk);
    SafeRunStays(m.start.value, m.history);
    lives, cuts := SurviveCrashes(m, crashes, first);
    SettledEnds(m.start.value, m.Now());
  }
}
