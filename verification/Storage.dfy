/** Moving a finished file into place: internal/storage/conflict.go and the lock-guarded
    methods of internal/storage/service.go.

    The disk is a map from paths to files and directories.  Every file-system call is one
    step; a log keeps the disk after every step, so that a contract about the log speaks
    about every moment a crash could hit.  A call that may fail reads its fate from an
    arbitrary script. */
module Storage {
  import opened Text
  import opened Names

  datatype Path = Path(dir: string, name: string)

  type Bytes = string

  datatype Node = File(data: Bytes) | Directory

  type Files = map<Path, Node>

  datatype Policy = Rename | Overwrite | Fail | EngineManaged | Unset | Unknown

  predicate FileExists(f: Files, p: Path) { p in f && f[p].File? }

  predicate Holds(f: Files, p: Path, data: Bytes) { p in f && f[p] == File(data) }

  // ---------- names that are free ----------

  ghost function NamesIn(f: Files, dir: string): set<string> {
    set p | p in f && p.dir == dir :: p.name
  }

  ghost function CandidateSet(base: string, ext: string, n: nat): set<string> {
    set k | 1 <= k < n :: Candidate(base, k, ext)
  }

  lemma {:induction false} CandidateSetSize(base: string, ext: string, n: nat)
    requires n >= 1
    ensures |CandidateSet(base, ext, n)| == n - 1
  {
    if n == 1 {
      assert CandidateSet(base, ext, 1) == {};
    } else {
      CandidateSetSize(base, ext, n - 1);
      var s := CandidateSet(base, ext, n - 1);
      var c := Candidate(base, n - 1, ext);
      if c in s {
        var k :| 1 <= k < n - 1 && Candidate(base, k, ext) == c;
        CandidatesDistinct(base, ext, k, n - 1);
      }
      assert c !in s;
      assert CandidateSet(base, ext, n) == s + {c};
    }
  }

  lemma SubsetSize<T>(a: set<T>, b: set<T>)
    requires a <= b
    ensures |a| <= |b|
  {
    assert b == a + (b - a);
  }

  /** As long as every candidate below n is taken, n is bounded by the directory's size. */
  lemma TakenBounded(f: Files, dir: string, base: string, ext: string, n: nat)
    requires n >= 1
    requires forall k :: 1 <= k < n ==> Path(dir, Candidate(base, k, ext)) in f
    ensures n - 1 <= |NamesIn(f, dir)|
  {
    CandidateSetSize(base, ext, n);
    forall c | c in CandidateSet(base, ext, n) ensures c in NamesIn(f, dir) {
      var k :| 1 <= k < n && Candidate(base, k, ext) == c;
      assert Path(dir, c) in f;
    }
    SubsetSize(CandidateSet(base, ext, n), NamesIn(f, dir));
  }

  /** name is what GenerateUniqueFilename must return for filename: itself if free, otherwise
      the candidate with the least free counter. */
  ghost predicate UniqueName(f: Files, dir: string, filename: string, name: string) {
    if Path(dir, filename) !in f then name == filename
    else exists n: nat :: n >= 1 && name == Candidate(Base(filename), n, Ext(filename)) && Path(dir, name) !in f &&
           forall k :: 1 <= k < n ==> Path(dir, Candidate(Base(filename), k, Ext(filename))) in f
  }

  method GenerateUniqueFilename(f: Files, dir: string, filename: string) returns (name: string)
    ensures UniqueName(f, dir, filename, name)
    ensures Path(dir, name) !in f
  {
    if Path(dir, filename) !in f { return filename; }
    var base, ext := Base(filename), Ext(filename);
    var counter := 1;
    while true
      invariant counter >= 1
      invariant forall k :: 1 <= k < counter ==> Path(dir, Candidate(base, k, ext)) in f
      decreases |NamesIn(f, dir)| + 1 - counter
    {
      var candidate := Candidate(base, counter, ext);
      if Path(dir, candidate) !in f { return candidate; }
      TakenBounded(f, dir, base, ext, counter + 1);
      counter := counter + 1;
    }
  }

  /** Policies under which a taken name makes way for a numbered one. */
  predicate MayRename(p: Policy) { p == Rename || p == EngineManaged || p == Unset }

  /** Where src goes under a policy, or None for a conflict. */
  method ResolveFinalPath(f: Files, src: Path, dir: string, policy: Policy) returns (r: Option<Path>)
    ensures r == None <==> policy == Fail && Path(dir, src.name) in f
    ensures r.Some? ==> r.value.dir == dir
    ensures MayRename(policy) ==> r.Some? && UniqueName(f, dir, src.name, r.value.name)
    ensures r.Some? && (policy == Fail || MayRename(policy)) ==> r.value !in f
    ensures r.Some? && !MayRename(policy) ==> r == Some(Path(dir, src.name))
  {
    var target := Path(dir, src.name);
    match policy {
      case Fail =>
        if target in f { return None; }
        return Some(target);
      case Rename | EngineManaged | Unset =>
        if target !in f { return Some(target); }
        var name := GenerateUniqueFilename(f, dir, src.name);
        return Some(Path(dir, name));
      case _ =>
        return Some(target);
    }
  }

  // ---------- fresh temporary names ----------

  function TempOf(dst: Path, suffix: string): Path { Path(dst.dir, dst.name + ".tmp-" + suffix) }

  function BackupOf(dst: Path, suffix: string): Path { Path(dst.dir, dst.name + ".bak-" + suffix) }

  predicate Fresh(f: Files, dst: Path, suffix: string) {
    TempOf(dst, suffix) !in f && BackupOf(dst, suffix) !in f
  }

  lemma {:induction false} LongerThanAll(names: set<string>) returns (n: nat)
    ensures forall s :: s in names ==> |s| < n
  {
    n := 0;
    if names != {} {
      var s :| s in names;
      var m := LongerThanAll(names - {s});
      n := if m > |s| then m else |s| + 1;
    }
  }

  lemma FreshSuffixExists(f: Files, dst: Path)
    ensures exists suffix: string :: Fresh(f, dst, suffix)
  {
    var n := LongerThanAll(set p | p in f :: p.name);
    var suffix: string := seq(n, _ => '0');
    assert TempOf(dst, suffix) in f ==> TempOf(dst, suffix).name in (set p | p in f :: p.name);
    assert BackupOf(dst, suffix) in f ==> BackupOf(dst, suffix).name in (set p | p in f :: p.name);
    assert |TempOf(dst, suffix).name| >= n && |BackupOf(dst, suffix).name| >= n;
    assert Fresh(f, dst, suffix);
  }

  // ---------- what a move may do to the disk ----------

  /** h is h0 with something appended. */
  predicate Extends<T(==)>(h0: seq<T>, h: seq<T>) {
    |h0| <= |h| && forall k :: 0 <= k < |h0| ==> h[k] == h0[k]
  }

  ghost predicate Same(f0: Files, f: Files, p: Path) {
    p in f0 && p in f && f[p] == f0[p]
  }

  /** dst has received what src held. */
  ghost predicate Arrived(f0: Files, f: Files, src: Path, dst: Path) {
    src in f0 && dst in f && f[dst] == f0[src]
  }

  /** Every disk a move from src to dst passes through, started on f0. */
  ghost predicate MoveState(f0: Files, f: Files, src: Path, dst: Path, allowOverwrite: bool, suffix: string) {
    && (forall p :: p in f0 && p != src && p != dst ==> Same(f0, f, p))
    && (forall p :: p in f && p !in f0 ==> p == dst || p == TempOf(dst, suffix) || p == BackupOf(dst, suffix))
    && (src in f0 ==> Same(f0, f, src) || (src !in f && Arrived(f0, f, src, dst)))
    && (dst in f ==> Same(f0, f, dst) || Arrived(f0, f, src, dst))
    && (dst in f0 ==> Same(f0, f, dst) || Arrived(f0, f, src, dst) || KeptAside(f0, f, dst, suffix))
    && (!allowOverwrite && dst in f0 ==> f == f0)
  }

  /** The old content of dst sits at the backup path. */
  ghost predicate KeptAside(f0: Files, f: Files, dst: Path, suffix: string) {
    dst in f0 && BackupOf(dst, suffix) in f && f[BackupOf(dst, suffix)] == f0[dst]
  }

  ghost predicate MoveStates(log: seq<Files>, from: nat, f0: Files, src: Path, dst: Path, allowOverwrite: bool,
                             suffix: string) {
    forall k :: from <= k < |log| ==> MoveState(f0, log[k], src, dst, allowOverwrite, suffix)
  }

  /** The disks between the copy and the clean-up, by what sits at dst, tmp and bak. */
  ghost predicate MidMove(f0: Files, f: Files, src: Path, dst: Path, suffix: string) {
    var tmp, bak := TempOf(dst, suffix), BackupOf(dst, suffix);
    && (forall p :: p in f0 && p != dst ==> Same(f0, f, p))
    && (forall p :: p in f && p !in f0 ==> p == tmp || p == bak)
    && (dst in f ==> Same(f0, f, dst))
    && (dst in f0 && dst !in f ==> KeptAside(f0, f, dst, suffix))
  }

  lemma MidMoveIsMoveState(f0: Files, f: Files, src: Path, dst: Path, allowOverwrite: bool, suffix: string)
    requires MidMove(f0, f, src, dst, suffix) && src != dst && Fresh(f0, dst, suffix)
    requires dst in f0 ==> allowOverwrite
    ensures MoveState(f0, f, src, dst, allowOverwrite, suffix)
    ensures src in f0 ==> Same(f0, f, src)
    ensures dst in f0 ==> Same(f0, f, dst) || KeptAside(f0, f, dst, suffix)
    ensures dst !in f0 ==> dst !in f
  {
    DistinctNames(dst, suffix);
  }

  /** The disks between the swap and the end of the clean-up. */
  ghost predicate AfterSwap(f0: Files, f: Files, src: Path, dst: Path, suffix: string) {
    && (forall p :: p in f0 && p != src && p != dst ==> Same(f0, f, p))
    && (forall p :: p in f && p !in f0 ==> p == dst || p == BackupOf(dst, suffix))
    && Arrived(f0, f, src, dst)
    && (src in f ==> Same(f0, f, src))
  }

  lemma AfterSwapIsMoveState(f0: Files, f: Files, src: Path, dst: Path, allowOverwrite: bool, suffix: string)
    requires AfterSwap(f0, f, src, dst, suffix) && src != dst && (dst in f0 ==> allowOverwrite)
    ensures MoveState(f0, f, src, dst, allowOverwrite, suffix)
  {}

  lemma DistinctNames(dst: Path, suffix: string)
    ensures var tmp, bak := TempOf(dst, suffix), BackupOf(dst, suffix); tmp != dst && bak != dst && tmp != bak
  {
    var tmp, bak := TempOf(dst, suffix), BackupOf(dst, suffix);
    assert |tmp.name| > |dst.name| && |bak.name| > |dst.name|;
    assert tmp.name[|dst.name| + 1] == 't' && bak.name[|dst.name| + 1] == 'b';
  }

  /** The disk after a move that left nothing behind. */
  ghost function MovedTo(f0: Files, src: Path, dst: Path): Files
    requires src in f0
  {
    (f0 - {src})[dst := f0[src]]
  }

  /** The disk on which the swap is made: the content of src at the temporary path, the old content of
      dst, if any, at the backup path. */
  ghost function Ready(f0: Files, src: Path, dst: Path, suffix: string): Files
    requires src in f0
  {
    var filled := f0[TempOf(dst, suffix) := f0[src]];
    if dst in f0 then (filled - {dst})[BackupOf(dst, suffix) := f0[dst]] else filled
  }

  /** Taking both steps back gives the disk as it was. */
  lemma ReadyUndone(f0: Files, src: Path, dst: Path, suffix: string)
    requires src in f0 && src != dst && Fresh(f0, dst, suffix)
    ensures var tmp, bak := TempOf(dst, suffix), BackupOf(dst, suffix);
            var dropped := Ready(f0, src, dst, suffix) - {tmp};
            && (dst !in f0 ==> dropped == f0)
            && (dst in f0 ==> bak in dropped && dst !in dropped && (dropped - {bak})[dst := dropped[bak]] == f0)
  {
    DistinctNames(dst, suffix);
  }

  // ---------- work directories ----------

  /** p lies in directory w or below it. */
  predicate Under(p: Path, w: string) {
    w != "" && (p.dir == w || w + "/" <= p.dir)
  }

  function MarkerOf(w: string): Path { Path(w, ".godownloader-workdir") }

  /** The entries of w itself, and of every directory below it; not those of its neighbours. */
  lemma UnderExactly(p: Path, w: string)
    ensures Under(p, w) <==> w != "" && (p.dir == w || exists sub: string :: p.dir == w + "/" + sub)
    ensures !Under(Path("/work/j10", "f"), "/work/j1")
  {
    if w + "/" <= p.dir { assert p.dir == w + "/" + p.dir[|w| + 1..]; }
    assert "/work/j10"[8] == '0';
  }

  /** The work directory carries the marker of this very job. */
  predicate MarkerMatches(f: Files, w: string, job: string) {
    FileExists(f, MarkerOf(w)) && TrimSpace(f[MarkerOf(w)].data) == job
  }

  /** Every disk a clean-up of w passes through, started on f0. */
  ghost predicate CleanState(f0: Files, f: Files, w: string, job: string) {
    && (forall p :: p in f ==> Same(f0, f, p))
    && (forall p :: p in f0 && !Under(p, w) ==> p in f)
    && (!MarkerMatches(f0, w, job) ==> f == f0)
  }

  ghost predicate CleanStates(log: seq<Files>, from: nat, f0: Files, w: string, job: string) {
    forall k :: from <= k < |log| ==> CleanState(f0, log[k], w, job)
  }

  datatype MoveResult = Moved | Conflict | Broken

  class Disk {
    const fate: nat -> bool
    var tick: nat
    var files: Files
    var log: seq<Files>

    ghost predicate Valid() reads this {
      log != [] && log[|log| - 1] == files
    }

    constructor (initial: Files, script: nat -> bool)
      ensures Valid() && files == initial && log == [initial] && fate == script
    {
      files, fate, tick := initial, script, 0;
      log := [initial];
    }

    /** No file-system call ever fails. */
    ghost predicate Reliable() {
      forall t: nat :: fate(t)
    }

    /** Of the calls made between the two moments at most one failed. */
    ghost predicate OneFault(since: nat, until: nat) {
      forall a, b :: since <= a < b < until ==> fate(a) || fate(b)
    }

    ghost predicate NoFault(since: nat, until: nat) {
      forall a :: since <= a < until ==> fate(a)
    }

    /** The machine restarts on disk f. */
    method Restart(f: Files)
      modifies this
      ensures Valid() && files == f
    {
      files, log := f, [f];
    }

    method Succeeds() returns (ok: bool)
      modifies this`tick
      ensures ok == fate(old(tick)) && tick == old(tick) + 1
    {
      ok := fate(tick);
      tick := tick + 1;
    }

    /** os.Rename onto a path that does not exist. */
    method RenameNode(a: Path, b: Path) returns (ok: bool)
      requires Valid() && b !in files
      modifies this
      ensures Valid() && log == old(log) + [files]
      ensures ok <==> a in old(files) && fate(old(tick))
      ensures files == if ok then (old(files) - {a})[b := old(files)[a]] else old(files)
      ensures tick == old(tick) + 1
    {
      ok := Succeeds();
      ok := ok && a in files;
      if ok { files := (files - {a})[b := files[a]]; }
      log := log + [files];
    }

    /** os.Remove of one file. */
    method Remove(p: Path) returns (ok: bool)
      requires Valid()
      modifies this
      ensures Valid() && log == old(log) + [files]
      ensures files == if ok then old(files) - {p} else old(files)
      ensures ok == fate(old(tick)) && tick == old(tick) + 1
    {
      ok := Succeeds();
      if ok { files := files - {p}; }
      log := log + [files];
    }

    /** Creates tmp and fills it chunk by chunk with what src holds; any chunk may be the last. */
    method CopyInto(src: Path, tmp: Path) returns (ok: bool)
      requires Valid() && tmp !in files
      modifies this
      ensures Valid() && Extends(old(log), log)
      ensures forall k :: |old(log)| <= k < |log| ==>
        log[k] == old(files) || (exists d: Bytes :: log[k] == old(files)[tmp := File(d)])
      ensures ok ==> src in old(files) && old(files)[src].File? && files == old(files)[tmp := old(files)[src]]
      ensures files == old(files) || exists d: Bytes :: files == old(files)[tmp := File(d)]
      ensures ok <==> FileExists(old(files), src) && NoFault(old(tick), old(tick) + |old(files)[src].data| + 3)
      ensures tick > old(tick) && (!ok && FileExists(old(files), src) ==> !NoFault(old(tick), tick))
      ensures !FileExists(old(files), src) ==> files == old(files)
    {
      ok := Succeeds();
      if !ok || src !in files || !files[src].File? { return false; }
      var data := files[src].data;
      var created := Succeeds();
      if !created { return false; }
      files := files[tmp := File([])];
      log := log + [files];
      var n := 0;
      while n < |data|
        invariant 0 <= n <= |data|
        invariant Valid() && Extends(old(log), log)
        invariant files == old(files)[tmp := File(data[..n])]
        invariant tick == old(tick) + n + 2 && NoFault(old(tick), tick)
        invariant forall k :: |old(log)| <= k < |log| ==>
          log[k] == old(files) || (exists d: Bytes :: log[k] == old(files)[tmp := File(d)])
      {
        var written := Succeeds();
        if !written { return false; }
        n := n + 1;
        files := files[tmp := File(data[..n])];
        log := log + [files];
      }
      assert data[..n] == data;
      ok := Succeeds();
    }

    /** MoveOrCopyFileExact.  suffix is the random part of its temporary names. */
    method MoveOrCopyFileExact(src: Path, dst: Path, allowOverwrite: bool) returns (r: MoveResult, ghost suffix: string)
      requires Valid()
      modifies this
      ensures Valid() && Extends(old(log), log)
      ensures src != dst ==> Fresh(old(files), dst, suffix)
      ensures src != dst ==> MoveStates(log, |old(log)|, old(files), src, dst, allowOverwrite, suffix)
      ensures src != dst ==> MoveState(old(files), files, src, dst, allowOverwrite, suffix)
      ensures src == dst ==> r == Moved && files == old(files) && log == old(log)
      ensures r == Moved && src != dst ==> Arrived(old(files), files, src, dst)
      ensures r != Moved ==>
        && (src in old(files) ==> Same(old(files), files, src))
        && (dst in old(files) ==> Same(old(files), files, dst) || KeptAside(old(files), files, dst, suffix))
        && (dst !in old(files) ==> dst !in files)
      ensures r == Conflict ==> files == old(files) && dst in files && (!allowOverwrite || files[dst].Directory?)
      ensures r == Moved && src != dst && dst in old(files) ==> allowOverwrite && old(files)[dst].File?
      ensures Reliable() && src != dst && FileExists(old(files), src) ==>
        && (r == Moved <==> dst !in old(files) || (allowOverwrite && old(files)[dst].File?))
        && (r == Moved ==> files == MovedTo(old(files), src, dst))
      ensures tick >= old(tick) && (src != dst && r == Moved ==> fate(old(tick)))
      ensures r != Moved && OneFault(old(tick), tick) ==> files == old(files)
    {
      FreshSuffixExists(files, dst);
      ghost var f0, from := files, |log|;
      var random: string :| Fresh(files, dst, random);
      suffix := random;
      if src == dst { return Moved, suffix; }
      var made := Succeeds();
      if !made { return Broken, suffix; }
      if dst in files {
        if files[dst].Directory? { return Conflict, suffix; }
        if !allowOverwrite { return Conflict, suffix; }
      } else {
        var renamed := RenameNode(src, dst);
        if renamed { return Moved, suffix; }
      }
      assert MoveStates(log, from, f0, src, dst, allowOverwrite, suffix);
      r := CopyThenReplace(src, dst, allowOverwrite, random, f0, from);
    }

    /** The copy path: fill a temporary file, set the old destination aside, swap, clean up. */
    method CopyThenReplace(src: Path, dst: Path, allowOverwrite: bool, suffix: string, ghost f0: Files, ghost from: nat)
      returns (r: MoveResult)
      requires Valid() && files == f0 && src != dst && Fresh(files, dst, suffix)
      requires dst in files ==> allowOverwrite && files[dst].File?
      requires from <= |log| && MoveStates(log, from, f0, src, dst, allowOverwrite, suffix)
      modifies this
      ensures Valid() && Extends(old(log), log)
      ensures MoveStates(log, from, f0, src, dst, allowOverwrite, suffix)
      ensures MoveState(f0, files, src, dst, allowOverwrite, suffix)
      ensures r != Conflict
      ensures r == Moved ==> Arrived(f0, files, src, dst)
      ensures r == Broken ==>
        && (src in f0 ==> Same(f0, files, src))
        && (dst in f0 ==> Same(f0, files, dst) || KeptAside(f0, files, dst, suffix))
        && (dst !in f0 ==> dst !in files)
      ensures Reliable() && FileExists(f0, src) ==> r == Moved && files == MovedTo(f0, src, dst)
      ensures tick > old(tick)
      ensures r == Broken && FileExists(f0, src) ==> !NoFault(old(tick), tick)
      ensures r == Broken && OneFault(old(tick), tick) ==> files == f0
    {
      var tmp, bak := TempOf(dst, suffix), BackupOf(dst, suffix);
      DistinctNames(dst, suffix);
      var copied := CopyInto(src, tmp);
      assert forall k :: from <= k < |log| ==> MoveState(f0, log[k], src, dst, allowOverwrite, suffix) by {
        forall k | from <= k < |log| ensures MoveState(f0, log[k], src, dst, allowOverwrite, suffix) {
          if k < |old(log)| { assert log[k] == old(log)[k]; }
          else { MidMoveIsMoveState(f0, log[k], src, dst, allowOverwrite, suffix); }
        }
      }
      if !copied {
        ghost var left := files;
        assert left - {tmp} == f0;
        var _ := Remove(tmp);
        MidMoveIsMoveState(f0, files, src, dst, allowOverwrite, suffix);
        return Broken;
      }
      r := SetAsideAndSwap(src, dst, allowOverwrite, suffix, f0, from);
    }

    /** Entered with the whole content of src at tmp. */
    method SetAsideAndSwap(src: Path, dst: Path, allowOverwrite: bool, suffix: string, ghost f0: Files, ghost from: nat)
      returns (r: MoveResult)
      requires Valid() && src != dst && Fresh(f0, dst, suffix)
      requires src in f0 && files == f0[TempOf(dst, suffix) := f0[src]]
      requires dst in f0 ==> allowOverwrite
      requires from <= |log| && MoveStates(log, from, f0, src, dst, allowOverwrite, suffix)
      modifies this
      ensures Valid() && Extends(old(log), log)
      ensures MoveStates(log, from, f0, src, dst, allowOverwrite, suffix)
      ensures MoveState(f0, files, src, dst, allowOverwrite, suffix)
      ensures r != Conflict
      ensures r == Moved ==> Arrived(f0, files, src, dst)
      ensures r == Broken ==>
        && Same(f0, files, src)
        && (dst in f0 ==> Same(f0, files, dst) || KeptAside(f0, files, dst, suffix))
        && (dst !in f0 ==> dst !in files)
      ensures Reliable() ==> r == Moved && files == MovedTo(f0, src, dst)
      ensures tick > old(tick) && (r == Broken ==> !NoFault(old(tick), tick))
      ensures r == Broken && OneFault(old(tick), tick) ==> files == f0
    {
      var tmp, bak := TempOf(dst, suffix), BackupOf(dst, suffix);
      DistinctNames(dst, suffix);
      var hasBackup := dst in files;
      if hasBackup {
        var aside := SetAside(src, dst, suffix, f0);
        MidMoveIsMoveState(f0, files, src, dst, allowOverwrite, suffix);
        if !aside {
          var _ := Remove(tmp);
          MidMoveIsMoveState(f0, files, src, dst, allowOverwrite, suffix);
          return Broken;
        }
      }
      r := Swap(src, dst, allowOverwrite, suffix, f0, from, hasBackup);
      if r == Moved {
        AfterSwapIsMoveState(f0, files, src, dst, allowOverwrite, suffix);
      } else {
        MidMoveIsMoveState(f0, files, src, dst, allowOverwrite, suffix);
      }
    }

    /** The whole content of src is at tmp and dst is free, its old content at the backup path. */
    method Swap(src: Path, dst: Path, allowOverwrite: bool, suffix: string, ghost f0: Files, ghost from: nat,
                hasBackup: bool)
      returns (r: MoveResult)
      requires Valid() && src != dst && Fresh(f0, dst, suffix) && src in f0
      requires MidMove(f0, files, src, dst, suffix) && dst !in files
      requires TempOf(dst, suffix) in files && files[TempOf(dst, suffix)] == f0[src]
      requires dst in f0 ==> allowOverwrite
      requires hasBackup <==> dst in f0
      requires from <= |log| && MoveStates(log, from, f0, src, dst, allowOverwrite, suffix)
      modifies this
      ensures Valid() && Extends(old(log), log)
      ensures MoveStates(log, from, f0, src, dst, allowOverwrite, suffix)
      ensures r != Conflict
      ensures r == Moved ==> AfterSwap(f0, files, src, dst, suffix)
      ensures r == Broken ==> MidMove(f0, files, src, dst, suffix)
      ensures Reliable() && (BackupOf(dst, suffix) in old(files) ==> hasBackup) ==>
        r == Moved && files == MovedTo(f0, src, dst)
      ensures tick > old(tick) && (r == Broken ==> !fate(old(tick)))
      ensures r == Broken && OneFault(old(tick), tick) && old(files) == Ready(f0, src, dst, suffix) ==> files == f0
    {
      DistinctNames(dst, suffix);
      var replaced := RenameNode(TempOf(dst, suffix), dst);
      if !replaced {
        MidMoveIsMoveState(f0, files, src, dst, allowOverwrite, suffix);
        ReadyUndone(f0, src, dst, suffix);
        RollBack(src, dst, allowOverwrite, suffix, f0, from, hasBackup);
        return Broken;
      }
      AfterSwapIsMoveState(f0, files, src, dst, allowOverwrite, suffix);
      CleanUpMove(src, dst, allowOverwrite, suffix, f0, from, hasBackup);
      r := Moved;
    }

    method SetAside(src: Path, dst: Path, suffix: string, ghost f0: Files) returns (ok: bool)
      requires Valid() && src != dst && Fresh(f0, dst, suffix)
      requires src in f0 && dst in f0 && files == f0[TempOf(dst, suffix) := f0[src]]
      modifies this
      ensures Valid() && log == old(log) + [files]
      ensures MidMove(f0, files, src, dst, suffix)
      ensures TempOf(dst, suffix) in files && files[TempOf(dst, suffix)] == f0[src]
      ensures if ok then dst !in files && KeptAside(f0, files, dst, suffix) else files == old(files)
      ensures ok ==> files == Ready(f0, src, dst, suffix)
      ensures ok == fate(old(tick)) && tick == old(tick) + 1
    {
      DistinctNames(dst, suffix);
      ok := RenameNode(dst, BackupOf(dst, suffix));
    }

    /** The swap failed: drop the temporary file and put the backup back. */
    method RollBack(src: Path, dst: Path, allowOverwrite: bool, suffix: string, ghost f0: Files, ghost from: nat,
                    hasBackup: bool)
      requires Valid() && src != dst && Fresh(f0, dst, suffix) && src in f0
      requires MidMove(f0, files, src, dst, suffix) && dst !in files
      requires dst in f0 ==> allowOverwrite
      requires from <= |log| && MoveStates(log, from, f0, src, dst, allowOverwrite, suffix)
      requires (hasBackup <==> dst in f0) && (hasBackup ==> KeptAside(f0, files, dst, suffix))
      modifies this
      ensures Valid() && Extends(old(log), log)
      ensures MoveStates(log, from, f0, src, dst, allowOverwrite, suffix)
      ensures MidMove(f0, files, src, dst, suffix)
      ensures tick > old(tick)
      ensures var dropped := old(files) - {TempOf(dst, suffix)};
              NoFault(old(tick), tick) ==>
                files == if hasBackup then (dropped - {BackupOf(dst, suffix)})[dst := f0[dst]]
                         else dropped
    {
      var tmp, bak := TempOf(dst, suffix), BackupOf(dst, suffix);
      DistinctNames(dst, suffix);
      var _ := Remove(tmp);
      MidMoveIsMoveState(f0, files, src, dst, allowOverwrite, suffix);
      if hasBackup {
        var _ := RenameNode(bak, dst);
        MidMoveIsMoveState(f0, files, src, dst, allowOverwrite, suffix);
      }
    }

    /** The swap is done: drop the backup, then the source. */
    method CleanUpMove(src: Path, dst: Path, allowOverwrite: bool, suffix: string, ghost f0: Files, ghost from: nat,
                       hasBackup: bool)
      requires Valid() && src != dst && Fresh(f0, dst, suffix)
      requires AfterSwap(f0, files, src, dst, suffix) && src in files
      requires dst in f0 ==> allowOverwrite
      requires from <= |log| && MoveStates(log, from, f0, src, dst, allowOverwrite, suffix)
      modifies this
      ensures Valid() && Extends(old(log), log)
      ensures MoveStates(log, from, f0, src, dst, allowOverwrite, suffix)
      ensures AfterSwap(f0, files, src, dst, suffix)
      ensures Reliable() && (BackupOf(dst, suffix) in old(files) ==> hasBackup) ==> files == MovedTo(f0, src, dst)
      ensures tick > old(tick)
    {
      DistinctNames(dst, suffix);
      if hasBackup {
        var _ := Remove(BackupOf(dst, suffix));
        AfterSwapIsMoveState(f0, files, src, dst, allowOverwrite, suffix);
      }
      var _ := Remove(src);
      AfterSwapIsMoveState(f0, files, src, dst, allowOverwrite, suffix);
    }

    /** FinalizeFileToPath: one critical section around the move. */
    method FinalizeFileToPath(src: Path, dst: Path, allowOverwrite: bool) returns (r: MoveResult, ghost suffix: string)
      requires Valid()
      modifies this
      ensures Valid() && Extends(old(log), log)
      ensures src != dst ==> Fresh(old(files), dst, suffix)
      ensures src != dst ==> MoveStates(log, |old(log)|, old(files), src, dst, allowOverwrite, suffix)
      ensures src != dst ==> MoveState(old(files), files, src, dst, allowOverwrite, suffix)
      ensures src == dst ==> files == old(files) && log == old(log)
      ensures r == Moved ==> src in old(files)
      ensures r == Moved && src != dst ==> Arrived(old(files), files, src, dst)
      ensures r != Moved ==>
        && (src in old(files) ==> Same(old(files), files, src))
        && (dst in old(files) && src != dst ==>
              Same(old(files), files, dst) || KeptAside(old(files), files, dst, suffix))
        && (dst !in old(files) ==> dst !in files)
      ensures r == Moved && src != dst && dst in old(files) ==> allowOverwrite && old(files)[dst].File?
      ensures Reliable() && src != dst && FileExists(old(files), src) ==>
        && (r == Moved <==> dst !in old(files) || (allowOverwrite && old(files)[dst].File?))
        && (r == Moved ==> files == MovedTo(old(files), src, dst))
      ensures Reliable() && src == dst && src in old(files) ==> r == Moved
      ensures src in old(files) ==> tick > old(tick) && (r == Moved ==> fate(old(tick)))
      ensures r != Moved && OneFault(old(tick), tick) ==> files == old(files)
    {
      FreshSuffixExists(files, dst);
      suffix :| Fresh(files, dst, suffix);
      if src !in files { return Broken, suffix; }
      var made := Succeeds();
      if !made { return Broken, suffix; }
      r, suffix := MoveOrCopyFileExact(src, dst, allowOverwrite);
    }

    /** CleanupWorkDir: refuses a directory that does not carry the job's marker. */
    method CleanupWorkDir(job: string, w: string) returns (ok: bool)
      requires Valid()
      modifies this
      ensures Valid() && Extends(old(log), log)
      ensures CleanStates(log, |old(log)|, old(files), w, job)
      ensures CleanState(old(files), files, w, job)
      ensures Reliable() ==> (ok <==> MarkerMatches(old(files), w, job) || forall p :: p in old(files) ==> !Under(p, w))
      ensures ok ==> forall p :: p in files ==> !Under(p, w)
      ensures files != old(files) ==>
        var marker := Path(w, ".godownloader-workdir");
        marker in old(files) && old(files)[marker].File? && TrimSpace(old(files)[marker].data) == job
    {
      if w == "" { return true; }
      if forall p | p in files :: !Under(p, w) { return true; }
      if !MarkerMatches(files, w, job) { return false; }
      ok := RemoveAll(w, job);
    }

    /** os.RemoveAll: entry by entry in any order, whatever can be removed. */
    method RemoveAll(w: string, ghost job: string) returns (ok: bool)
      requires Valid() && MarkerMatches(files, w, job)
      modifies this
      ensures Valid() && Extends(old(log), log)
      ensures CleanStates(log, |old(log)|, old(files), w, job)
      ensures CleanState(old(files), files, w, job)
      ensures ok ==> forall p :: p in files ==> !Under(p, w)
      ensures Reliable() ==> ok
    {
      ok := true;
      var rest := set p | p in files && Under(p, w);
      while rest != {}
        invariant Valid() && Extends(old(log), log)
        invariant CleanStates(log, |old(log)|, old(files), w, job)
        invariant CleanState(old(files), files, w, job)
        invariant forall p :: p in rest ==> Under(p, w)
        invariant ok ==> forall p :: p in files && Under(p, w) ==> p in rest
        invariant Reliable() ==> ok
        decreases rest
      {
        var p :| p in rest;
        rest := rest - {p};
        var removed := Remove(p);
        ok := ok && removed;
      }
    }
  }
}
