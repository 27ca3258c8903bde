/** Many jobs finalizing into shared directories: internal/storage/service.go resolves and
    moves in two separate critical sections, so the sections of different jobs interleave. */
module Race {
  import opened Storage

  datatype Claim = Claim(src: Path, art: Bytes, dir: string, policy: Policy)

  datatype Progress = Waiting | Resolved(dst: Path) | Done(dst: Path) | Lost

  /** One critical section of one job. */
  datatype Section = ResolveSection(job: nat) | MoveSection(job: nat)

  predicate NeverOverwrites(p: Policy) {
    p == Rename || p == Policy.Fail || p == EngineManaged || p == Unset
  }

  function TargetOf(c: Claim): Path { Path(c.dir, c.src.name) }

  predicate Finished(p: Progress) { p.Done? || p.Lost? }

  /** The first n sections have taken job j as far as they say. */
  ghost predicate Advanced(schedule: seq<Section>, n: nat, j: nat, p: Progress)
    requires n <= |schedule|
  {
    && (forall m :: 0 <= m < n && schedule[m] == ResolveSection(j) ==> !p.Waiting?)
    && (forall i, m :: 0 <= i < m < n && schedule[i] == ResolveSection(j) && schedule[m] == MoveSection(j) ==>
          p.Done? || p.Lost?)
  }

  ghost predicate Distinct(claims: seq<Claim>) {
    forall j, k :: 0 <= j < k < |claims| ==> claims[j].src != claims[k].src
  }

  /** Job j's artifact is where it should be, and no finished job's destination is a source. */
  ghost predicate Secure(claims: seq<Claim>, progress: seq<Progress>, f: Files, j: nat)
    requires |claims| == |progress| && j < |claims|
  {
    match progress[j]
    case Done(dst) => Holds(f, dst, claims[j].art)
    case Resolved(dst) => Holds(f, claims[j].src, claims[j].art) && dst != claims[j].src
    case _ => Holds(f, claims[j].src, claims[j].art)
  }

  ghost predicate Apart(claims: seq<Claim>, progress: seq<Progress>)
    requires |claims| == |progress|
  {
    && (forall j, k :: 0 <= j < k < |claims| && progress[j].Done? && progress[k].Done?
          ==> progress[j].dst != progress[k].dst)
    && (forall j, k :: 0 <= j < |claims| && 0 <= k < |claims| && progress[j].Done? && !progress[k].Done?
          ==> progress[j].dst != claims[k].src)
  }

  /** Files that were there before and are nobody's source stay as they are. */
  ghost predicate Undisturbed(claims: seq<Claim>, f0: Files, f: Files) {
    forall p :: p in f0 && (forall j :: 0 <= j < |claims| ==> claims[j].src != p) ==> Same(f0, f, p)
  }

  ghost predicate RaceInvariant(claims: seq<Claim>, progress: seq<Progress>, f0: Files, f: Files) {
    && |claims| == |progress|
    && (forall j :: 0 <= j < |claims| ==> Secure(claims, progress, f, j))
    && Apart(claims, progress)
    && Undisturbed(claims, f0, f)
  }

  /** A move that went through keeps the invariant: its destination was free. */
  lemma MovedKeepsInvariant(claims: seq<Claim>, progress: seq<Progress>, f0: Files, f: Files, g: Files, j: nat,
                            dst: Path, suffix: string)
    requires Distinct(claims) && RaceInvariant(claims, progress, f0, f)
    requires j < |claims| && progress[j] == Resolved(dst)
    requires MoveState(f, g, claims[j].src, dst, false, suffix)
    requires Arrived(f, g, claims[j].src, dst) && dst !in f
    ensures RaceInvariant(claims, progress[j := Done(dst)], f0, g)
  {
    var after := progress[j := Done(dst)];
    assert Secure(claims, progress, f, j);
    forall k | 0 <= k < |claims| ensures Secure(claims, after, g, k) {
      if k != j {
        assert Secure(claims, progress, f, k);
        assert claims[k].src != claims[j].src;
        assert progress[k].Done? ==> progress[k].dst != claims[j].src && Same(f, g, progress[k].dst);
      }
    }
    forall k | 0 <= k < |claims| && k != j
      ensures after[k].Done? ==> after[k].dst != dst
      ensures !after[k].Done? ==> claims[k].src != dst
    {
      assert Secure(claims, progress, f, k);
    }
    forall p | p in f0 && (forall k :: 0 <= k < |claims| ==> claims[k].src != p) ensures Same(f0, g, p) {
      assert Same(f0, f, p);
      assert claims[j].src != p;
    }
  }

  /** A move that did not go through changed nothing but left-over temporary files. */
  lemma LostKeepsInvariant(claims: seq<Claim>, progress: seq<Progress>, f0: Files, f: Files, g: Files, j: nat,
                           dst: Path, suffix: string)
    requires Distinct(claims) && RaceInvariant(claims, progress, f0, f)
    requires j < |claims| && progress[j] == Resolved(dst)
    requires MoveState(f, g, claims[j].src, dst, false, suffix)
    requires Same(f, g, claims[j].src)
    ensures RaceInvariant(claims, progress[j := Lost], f0, g)
  {
    var after := progress[j := Lost];
    forall p | p in f ensures Same(f, g, p) {}
    forall k | 0 <= k < |claims| ensures Secure(claims, after, g, k) {
      assert Secure(claims, progress, f, k);
    }
    forall k | 0 <= k < |claims| && k != j && after[k].Done? ensures after[k].dst != claims[j].src {
      assert progress[k].Done? && !progress[j].Done?;
    }
    forall p | p in f0 && (forall k :: 0 <= k < |claims| ==> claims[k].src != p) ensures Same(f0, g, p) {
      assert Same(f0, f, p);
    }
  }

  /** Any interleaving of the critical sections, with any failing file-system calls: finished
      jobs have pairwise different destinations that hold their own artifacts, every other job
      still has its staging file, and no foreign file was touched. */
  method RunSections(disk: Disk, claims: seq<Claim>, schedule: seq<Section>) returns (progress: seq<Progress>)
    requires disk.Valid() && Distinct(claims)
    requires forall j :: 0 <= j < |claims| ==>
      Holds(disk.files, claims[j].src, claims[j].art) && NeverOverwrites(claims[j].policy)
    modifies disk
    ensures |progress| == |claims|
    ensures forall j, k :: 0 <= j < k < |claims| && progress[j].Done? && progress[k].Done? ==>
      progress[j].dst != progress[k].dst
    ensures forall j :: 0 <= j < |claims| ==>
      Holds(disk.files, if progress[j].Done? then progress[j].dst else claims[j].src, claims[j].art)
    ensures Undisturbed(claims, old(disk.files), disk.files)
    ensures forall j :: 0 <= j < |claims| ==> Advanced(schedule, |schedule|, j, progress[j])
  {
    ghost var f0 := disk.files;
    progress := seq(|claims|, _ => Waiting);
    var n := 0;
    while n < |schedule|
      invariant 0 <= n <= |schedule| && disk.Valid()
      invariant RaceInvariant(claims, progress, f0, disk.files)
      invariant forall j :: 0 <= j < |claims| ==> Advanced(schedule, n, j, progress[j])
    {
      var j := schedule[n].job;
      if j < |claims| {
        progress := RunSection(disk, claims, progress, schedule[n], f0);
      }
      n := n + 1;
    }
    forall j | 0 <= j < |claims|
      ensures Holds(disk.files, if progress[j].Done? then progress[j].dst else claims[j].src, claims[j].art)
    {
      assert Secure(claims, progress, disk.files, j);
    }
  }

  method RunSection(disk: Disk, claims: seq<Claim>, progress: seq<Progress>, section: Section, ghost f0: Files)
    returns (after: seq<Progress>)
    requires disk.Valid() && Distinct(claims) && section.job < |claims|
    requires RaceInvariant(claims, progress, f0, disk.files) && NeverOverwrites(claims[section.job].policy)
    modifies disk
    ensures disk.Valid() && RaceInvariant(claims, after, f0, disk.files)
    ensures forall k :: 0 <= k < |claims| && k != section.job ==> after[k] == progress[k]
    ensures Finished(progress[section.job]) ==> after == progress
    ensures section.ResolveSection? || !progress[section.job].Waiting? ==> !after[section.job].Waiting?
    ensures section.MoveSection? && !progress[section.job].Waiting? ==> Finished(after[section.job])
    ensures section.ResolveSection? && progress[section.job].Waiting? ==>
      (after[section.job] == Lost <==>
        claims[section.job].policy == Policy.Fail && TargetOf(claims[section.job]) in old(disk.files))
    ensures section.MoveSection? && progress[section.job].Resolved? && disk.Reliable() ==>
      after[section.job] ==
        if progress[section.job].dst !in old(disk.files) then Done(progress[section.job].dst) else Lost
  {
    var j := section.job;
    var claim := claims[j];
    after := progress;
    assert Secure(claims, progress, disk.files, j);
    match section {
      case ResolveSection(_) =>
        if progress[j].Waiting? {
          var r := ResolveFinalPath(disk.files, claim.src, claim.dir, claim.policy);
          var next := if r.Some? then Resolved(r.value) else Lost;
          after := progress[j := next];
          forall k | 0 <= k < |claims| ensures Secure(claims, after, disk.files, k) {
            assert Secure(claims, progress, disk.files, k);
          }
        }
      case MoveSection(_) =>
        if progress[j].Resolved? {
          var dst := progress[j].dst;
          ghost var before := disk.files;
          var r, suffix := disk.FinalizeFileToPath(claim.src, dst, false);
          if r == Moved {
            MovedKeepsInvariant(claims, progress, f0, before, disk.files, j, dst, suffix);
            after := progress[j := Done(dst)];
          } else {
            LostKeepsInvariant(claims, progress, f0, before, disk.files, j, dst, suffix);
            after := progress[j := Lost];
          }
        }
    }
  }
}
