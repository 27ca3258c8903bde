/** The client's job list: web/src/jobState.ts. */
module JobState {
  import opened Jobs
  import opened Events

  function NewerJob(current: JobView, incoming: JobView): (r: JobView)
    ensures r == current || r == incoming
  {
    if current.updatedAt.Some? && incoming.updatedAt.Some? && incoming.updatedAt.value < current.updatedAt.value
    then current else incoming
  }

  predicate UniqueIds(jobs: seq<JobView>) {
    forall i, k :: 0 <= i < k < |jobs| ==> jobs[i].id != jobs[k].id
  }

  /** The jobs by id; of two jobs with one id the later one counts, as in new Map(entries). */
  function ById(jobs: seq<JobView>): map<JobId, JobView> {
    if jobs == [] then map[]
    else ById(jobs[..|jobs| - 1])[jobs[|jobs| - 1].id := jobs[|jobs| - 1]]
  }

  lemma {:induction false} ByIdDomain(jobs: seq<JobView>, id: JobId)
    ensures id in ById(jobs) <==> exists i :: 0 <= i < |jobs| && jobs[i].id == id
    ensures id in ById(jobs) ==> ById(jobs)[id].id == id
  {
    if jobs != [] {
      var init := jobs[..|jobs| - 1];
      ByIdDomain(init, id);
      if exists i :: 0 <= i < |jobs| && jobs[i].id == id {
        var i :| 0 <= i < |jobs| && jobs[i].id == id;
        assert i < |init| ==> init[i].id == id;
      }
    }
  }

  lemma {:induction false} ByIdAt(jobs: seq<JobView>, i: nat)
    requires UniqueIds(jobs) && i < |jobs|
    ensures jobs[i].id in ById(jobs) && ById(jobs)[jobs[i].id] == jobs[i]
  {
    if i < |jobs| - 1 { ByIdAt(jobs[..|jobs| - 1], i); }
  }

  // ---------- merging ----------

  /** What one incoming job does to the jobs by id. */
  function Merge(m: map<JobId, JobView>, job: JobView): map<JobId, JobView> {
    m[job.id := if job.id in m then NewerJob(m[job.id], job) else job]
  }

  function MergeAll(m: map<JobId, JobView>, jobs: seq<JobView>): map<JobId, JobView> {
    if jobs == [] then m else Merge(MergeAll(m, jobs[..|jobs| - 1]), jobs[|jobs| - 1])
  }

  /** indexes says where in jobs every id sits. */
  predicate Indexed(indexes: map<JobId, nat>, jobs: seq<JobView>) {
    && (forall id :: id in indexes ==> indexes[id] < |jobs| && jobs[indexes[id]].id == id)
    && (forall i :: 0 <= i < |jobs| ==> jobs[i].id in indexes && indexes[jobs[i].id] == i)
  }

  lemma {:induction false} ByIdUpdate(jobs: seq<JobView>, i: nat, job: JobView)
    requires UniqueIds(jobs) && i < |jobs| && jobs[i].id == job.id
    ensures UniqueIds(jobs[i := job])
    ensures ById(jobs[i := job]) == ById(jobs)[job.id := job]
  {
    var init := jobs[..|jobs| - 1];
    if i < |init| {
      ByIdUpdate(init, i, job);
      assert jobs[i := job][..|jobs| - 1] == init[i := job];
    } else {
      assert jobs[i := job][..|jobs| - 1] == init;
    }
  }

  lemma ByIdAppend(jobs: seq<JobView>, job: JobView)
    ensures ById(jobs + [job]) == ById(jobs)[job.id := job]
  {
    assert (jobs + [job])[..|jobs|] == jobs;
  }

  // ---------- one job per id ----------

  /** The list after one more mention of a job. */
  function Absorb(jobs: seq<JobView>, job: JobView): seq<JobView> {
    if jobs == [] then [job]
    else
      var init, last := jobs[..|jobs| - 1], jobs[|jobs| - 1];
      if last.id == job.id then init + [NewerJob(last, job)]
      else if init != [] && job.id in ById(init) then Absorb(init, job) + [last]
      else jobs + [job]
  }

  function Dedup(jobs: seq<JobView>): seq<JobView> {
    if jobs == [] then [] else Absorb(Dedup(jobs[..|jobs| - 1]), jobs[|jobs| - 1])
  }

  lemma {:induction false} AbsorbAt(jobs: seq<JobView>, i: nat, job: JobView)
    requires UniqueIds(jobs) && i < |jobs| && jobs[i].id == job.id
    ensures Absorb(jobs, job) == jobs[i := NewerJob(jobs[i], job)]
  {
    var init := jobs[..|jobs| - 1];
    if i < |init| {
      ByIdAt(init, i);
      AbsorbAt(init, i, job);
    }
  }

  lemma AbsorbNew(jobs: seq<JobView>, job: JobView)
    requires job.id !in ById(jobs)
    ensures Absorb(jobs, job) == jobs + [job]
  {
    if jobs != [] { ByIdDomain(jobs[..|jobs| - 1], job.id); }
  }

  lemma AbsorbMerges(jobs: seq<JobView>, job: JobView)
    requires UniqueIds(jobs)
    ensures UniqueIds(Absorb(jobs, job)) && ById(Absorb(jobs, job)) == Merge(ById(jobs), job)
  {
    ByIdDomain(jobs, job.id);
    if job.id in ById(jobs) {
      var i :| 0 <= i < |jobs| && jobs[i].id == job.id;
      AbsorbAt(jobs, i, job);
      ByIdAt(jobs, i);
      ByIdUpdate(jobs, i, NewerJob(jobs[i], job));
    } else {
      AbsorbNew(jobs, job);
      ByIdAppend(jobs, job);
    }
  }

  /** Deduplication merges all mentions of an id, in order, into one job. */
  lemma {:induction false} DedupMerges(jobs: seq<JobView>)
    ensures UniqueIds(Dedup(jobs)) && ById(Dedup(jobs)) == MergeAll(map[], jobs)
  {
    if jobs != [] {
      DedupMerges(jobs[..|jobs| - 1]);
      AbsorbMerges(Dedup(jobs[..|jobs| - 1]), jobs[|jobs| - 1]);
    }
  }

  /** A list without repeated ids is its own deduplication. */
  lemma {:induction false} DedupOfUnique(jobs: seq<JobView>)
    requires UniqueIds(jobs)
    ensures Dedup(jobs) == jobs
  {
    if jobs != [] {
      var init, last := jobs[..|jobs| - 1], jobs[|jobs| - 1];
      DedupOfUnique(init);
      ByIdDomain(init, last.id);
      AbsorbNew(init, last);
    }
  }

  /** Jobs come out in the order in which their ids are first mentioned. */
  lemma {:induction false} DedupOrder(jobs: seq<JobView>) returns (firsts: seq<nat>)
    ensures Firsts(firsts, jobs, Dedup(jobs))
  {
    firsts := [];
    if jobs != [] {
      var init, last := jobs[..|jobs| - 1], jobs[|jobs| - 1];
      firsts := DedupOrder(init);
      DedupMerges(init);
      firsts := FirstsStep(init, last, Dedup(init), firsts);
      assert init + [last] == jobs;
    }
  }

  predicate Firsts(firsts: seq<nat>, jobs: seq<JobView>, r: seq<JobView>) {
    && |firsts| == |r|
    && (forall i :: 0 <= i < |r| ==> FirstMention(jobs, firsts[i], r[i].id))
    && (forall i, k :: 0 <= i < k < |firsts| ==> firsts[i] < firsts[k])
  }

  lemma FirstsStep(init: seq<JobView>, last: JobView, d: seq<JobView>, firsts: seq<nat>) returns (after: seq<nat>)
    requires UniqueIds(d) && Firsts(firsts, init, d) && ById(d) == MergeAll(map[], init)
    ensures Firsts(after, init + [last], Absorb(d, last))
  {
    ByIdDomain(d, last.id);
    forall i | 0 <= i < |d| ensures FirstMention(init + [last], firsts[i], d[i].id) {
      assert FirstMention(init, firsts[i], d[i].id);
    }
    if last.id in ById(d) {
      var i :| 0 <= i < |d| && d[i].id == last.id;
      AbsorbAt(d, i, last);
      after := firsts;
    } else {
      AbsorbNew(d, last);
      forall k | 0 <= k < |init| ensures init[k].id != last.id {
        MergedIdsStay(init, k);
      }
      after := firsts + [|init|];
      assert FirstMention(init + [last], |init|, last.id);
      forall i | 0 <= i < |d| ensures firsts[i] < |init| { assert FirstMention(init, firsts[i], d[i].id); }
    }
  }

  predicate FirstMention(jobs: seq<JobView>, i: nat, id: JobId) {
    i < |jobs| && jobs[i].id == id && forall k :: 0 <= k < i ==> jobs[k].id != id
  }

  lemma {:induction false} MergedIdsStay(jobs: seq<JobView>, k: nat)
    requires k < |jobs|
    ensures jobs[k].id in MergeAll(map[], jobs)
  {
    if k < |jobs| - 1 { MergedIdsStay(jobs[..|jobs| - 1], k); }
  }

  lemma IndexedGrows(indexes: map<JobId, nat>, jobs: seq<JobView>, job: JobView)
    requires Indexed(indexes, jobs) && job.id !in indexes
    ensures Indexed(indexes[job.id := |jobs|], jobs + [job])
    ensures Absorb(jobs, job) == jobs + [job]
  {
    ByIdDomain(jobs, job.id);
    AbsorbNew(jobs, job);
  }

  lemma IndexedKeeps(indexes: map<JobId, nat>, jobs: seq<JobView>, job: JobView)
    requires Indexed(indexes, jobs) && job.id in indexes
    ensures var i := indexes[job.id]; Indexed(indexes, jobs[i := NewerJob(jobs[i], job)])
    ensures var i := indexes[job.id]; Absorb(jobs, job) == jobs[i := NewerJob(jobs[i], job)]
  {
    var i := indexes[job.id];
    forall k, l | 0 <= k < l < |jobs| ensures jobs[k].id != jobs[l].id {
      assert indexes[jobs[k].id] == k && indexes[jobs[l].id] == l;
    }
    AbsorbAt(jobs, i, job);
  }

  method DeduplicateJobsById(jobs: seq<JobView>) returns (r: seq<JobView>)
    ensures r == Dedup(jobs)
  {
    r := [];
    var indexes: map<JobId, nat> := map[];
    var n := 0;
    while n < |jobs|
      invariant 0 <= n <= |jobs|
      invariant Indexed(indexes, r)
      invariant r == Dedup(jobs[..n])
    {
      assert jobs[..n + 1][..n] == jobs[..n];
      indexes, r := Mention(indexes, r, jobs[n]);
      n := n + 1;
    }
    assert jobs[..n] == jobs;
  }

  /** One turn of that loop. */
  method Mention(indexes: map<JobId, nat>, list: seq<JobView>, job: JobView)
    returns (after: map<JobId, nat>, r: seq<JobView>)
    requires Indexed(indexes, list)
    ensures Indexed(after, r) && r == Absorb(list, job)
  {
    if job.id !in indexes {
      IndexedGrows(indexes, list, job);
      after, r := indexes[job.id := |list|], list + [job];
    } else {
      IndexedKeeps(indexes, list, job);
      var i := indexes[job.id];
      after, r := indexes, list[i := NewerJob(list[i], job)];
    }
  }

  // ---------- upsert, reconcile, remove ----------

  /** Every job of current, each with the newer of its own and the incoming version. */
  function Refreshed(current: seq<JobView>, incoming: seq<JobView>): seq<JobView> {
    seq(|current|, i requires 0 <= i < |current| =>
      if current[i].id in ById(incoming) then NewerJob(current[i], ById(incoming)[current[i].id]) else current[i])
  }

  /** The incoming jobs current does not have, in their order. */
  function NewOnes(current: seq<JobView>, incoming: seq<JobView>): seq<JobView> {
    if incoming == [] then []
    else
      var last := incoming[|incoming| - 1];
      NewOnes(current, incoming[..|incoming| - 1]) + (if last.id in ById(current) then [] else [last])
  }

  /** upsertJobs. */
  method UpsertJobs(currentJobs: seq<JobView>, incomingJobs: seq<JobView>) returns (r: seq<JobView>)
    ensures r == NewOnes(Dedup(currentJobs), Dedup(incomingJobs)) + Refreshed(Dedup(currentJobs), Dedup(incomingJobs))
  {
    var current := DeduplicateJobsById(currentJobs);
    var incoming := DeduplicateJobsById(incomingJobs);
    DedupMerges(currentJobs);
    DedupMerges(incomingJobs);
    var indexes := IndexJobs(current);
    r := MergeIncoming(current, indexes, incoming);
  }

  /** The loop of upsertJobs. */
  method MergeIncoming(before: seq<JobView>, indexes: map<JobId, nat>, incoming: seq<JobView>) returns (r: seq<JobView>)
    requires Indexed(indexes, before) && UniqueIds(incoming)
    ensures r == NewOnes(before, incoming) + Refreshed(before, incoming)
  {
    var newJobs: seq<JobView> := [];
    var current := before;
    assert ById(incoming[..0]) == map[];
    var n := 0;
    while n < |incoming|
      invariant 0 <= n <= |incoming|
      invariant newJobs == NewOnes(before, incoming[..n])
      invariant current == Refreshed(before, incoming[..n])
    {
      var job := incoming[n];
      UpsertStep(before, indexes, incoming, n);
      if job.id !in indexes {
        newJobs := newJobs + [job];
      } else {
        var i := indexes[job.id];
        current := current[i := NewerJob(current[i], job)];
      }
      n := n + 1;
    }
    assert incoming[..n] == incoming;
    r := newJobs + current;
  }

  /** One turn of the loop of upsertJobs. */
  lemma UpsertStep(before: seq<JobView>, indexes: map<JobId, nat>, incoming: seq<JobView>, n: nat)
    requires Indexed(indexes, before) && UniqueIds(incoming) && n < |incoming|
    ensures var job, current := incoming[n], Refreshed(before, incoming[..n]);
            var added := if job.id in indexes then [] else [job];
            NewOnes(before, incoming[..n + 1]) == NewOnes(before, incoming[..n]) + added
            && Refreshed(before, incoming[..n + 1]) ==
              if job.id in indexes then current[indexes[job.id] := NewerJob(current[indexes[job.id]], job)] else current
  {
    var job := incoming[n];
    assert incoming[..n + 1][..n] == incoming[..n];
    ByIdDomain(incoming[..n], job.id);
    ByIdDomain(before, job.id);
    assert ById(incoming[..n + 1]) == ById(incoming[..n])[job.id := job];
    assert forall i :: 0 <= i < |before| && before[i].id == job.id ==> job.id in indexes && i == indexes[job.id];
  }

  /** new Map(current.map((job, index) => [job.id, index])). */
  method IndexJobs(jobs: seq<JobView>) returns (indexes: map<JobId, nat>)
    requires UniqueIds(jobs)
    ensures Indexed(indexes, jobs)
  {
    indexes := map[];
    var n := 0;
    while n < |jobs|
      invariant 0 <= n <= |jobs|
      invariant Indexed(indexes, jobs[..n])
    {
      indexes := indexes[jobs[n].id := n];
      n := n + 1;
    }
    assert jobs[..n] == jobs;
  }

  /** The upsert of two lists without repeated ids, by id: the union, with the newer version
      where both have one. */
  lemma UpsertById(current: seq<JobView>, incoming: seq<JobView>, id: JobId)
    requires UniqueIds(current) && UniqueIds(incoming)
    ensures var r := NewOnes(current, incoming) + Refreshed(current, incoming);
            && UniqueIds(r)
            && (id in ById(r) <==> id in ById(current) || id in ById(incoming))
            && (id in ById(r) ==> ById(r)[id] == Newest(ById(current), ById(incoming), id))
  {
    var a, b := NewOnes(current, incoming), Refreshed(current, incoming);
    NewOnesById(current, incoming);
    NewOnesUnique(current, incoming);
    RefreshedById(current, incoming, id);
    ByIdConcat(a, b);
    forall i, k | 0 <= i < |a| && 0 <= k < |b| ensures a[i].id != b[k].id {
      ByIdAt(a, i);
      ByIdDomain(current, a[i].id);
      RefreshedIds(current, incoming, k);
    }
  }

  function Newest(current: map<JobId, JobView>, incoming: map<JobId, JobView>, id: JobId): JobView
    requires id in current || id in incoming
  {
    if id !in incoming then current[id]
    else if id !in current then incoming[id]
    else NewerJob(current[id], incoming[id])
  }

  lemma UpdateThenDrop(m: map<JobId, JobView>, job: JobView, ids: set<JobId>)
    ensures m[job.id := job] - ids == if job.id in ids then m - ids else (m - ids)[job.id := job]
  {}

  lemma {:induction false} NewOnesById(current: seq<JobView>, incoming: seq<JobView>)
    ensures ById(NewOnes(current, incoming)) == ById(incoming) - ById(current).Keys
  {
    if incoming != [] {
      var init, last := incoming[..|incoming| - 1], incoming[|incoming| - 1];
      NewOnesById(current, init);
      UpdateThenDrop(ById(init), last, ById(current).Keys);
      var kept := NewOnes(current, init);
      if last.id in ById(current) {
        assert kept + [] == kept;
      } else {
        ByIdAppend(kept, last);
      }
    }
  }

  lemma {:induction false} NewOnesUnique(current: seq<JobView>, incoming: seq<JobView>)
    requires UniqueIds(incoming)
    ensures UniqueIds(NewOnes(current, incoming))
  {
    if incoming != [] {
      var init, last := incoming[..|incoming| - 1], incoming[|incoming| - 1];
      NewOnesUnique(current, init);
      NewOnesById(current, init);
      var kept := NewOnes(current, init);
      ByIdDomain(init, last.id);
      forall i | 0 <= i < |kept| ensures kept[i].id != last.id { ByIdAt(kept, i); }
    }
  }

  lemma RefreshedIds(current: seq<JobView>, incoming: seq<JobView>, i: nat)
    requires i < |current|
    ensures Refreshed(current, incoming)[i].id == current[i].id
  {
    ByIdDomain(incoming, current[i].id);
  }

  lemma RefreshedById(current: seq<JobView>, incoming: seq<JobView>, id: JobId)
    requires UniqueIds(current)
    ensures var r := Refreshed(current, incoming);
            && UniqueIds(r)
            && (id in ById(r) <==> id in ById(current))
            && (id in ById(r) ==> ById(r)[id] == Newest(ById(current), ById(incoming), id))
  {
    var r := Refreshed(current, incoming);
    forall i | 0 <= i < |r| ensures r[i].id == current[i].id { RefreshedIds(current, incoming, i); }
    ByIdDomain(r, id);
    ByIdDomain(current, id);
    if id in ById(current) {
      var i :| 0 <= i < |current| && current[i].id == id;
      ByIdAt(current, i);
      ByIdAt(r, i);
    }
  }

  lemma {:induction false} ByIdConcat(a: seq<JobView>, b: seq<JobView>)
    ensures ById(a + b) == ById(a) + ById(b)
  {
    if b == [] {
      assert a + b == a;
    } else {
      ByIdConcat(a, b[..|b| - 1]);
      assert (a + b)[..|a + b| - 1] == a + b[..|b| - 1];
    }
  }

  /** upsertJob. */
  method UpsertJob(currentJobs: seq<JobView>, job: JobView) returns (r: seq<JobView>)
    ensures UniqueIds(r) && ById(r) == Merge(ById(Dedup(currentJobs)), job)
    ensures |r| == |Dedup(currentJobs)| + (if job.id in ById(Dedup(currentJobs)) then 0 else 1)
  {
    r := UpsertJobs(currentJobs, [job]);
    var d := Dedup(currentJobs);
    DedupMerges(currentJobs);
    DedupOfUnique([job]);
    OnlyOne(d, job);
    forall id
      ensures id in ById(r) <==> id in Merge(ById(d), job)
      ensures id in ById(r) ==> ById(r)[id] == Merge(ById(d), job)[id]
    {
      UpsertById(d, [job], id);
    }
    UpsertById(d, [job], job.id);
  }

  lemma OnlyOne(jobs: seq<JobView>, job: JobView)
    ensures ById([job]) == map[job.id := job]
    ensures |NewOnes(jobs, [job])| == if job.id in ById(jobs) then 0 else 1
  {
    assert [job][..0] == [];
    assert ById([]) == map[] && NewOnes(jobs, []) == [];
  }

  /** reconcileJobsFromSnapshot. */
  function ReconcileJobs(current: seq<JobView>, snapshot: seq<JobView>): seq<JobView> {
    var d := Dedup(snapshot);
    var m := ById(current);
    seq(|d|, i requires 0 <= i < |d| => if d[i].id in m then NewerJob(m[d[i].id], d[i]) else d[i])
  }

  /** Exactly the snapshot's jobs remain, deduplicated, each in the newer of the two versions. */
  lemma ReconcileKeepsNewer(current: seq<JobView>, snapshot: seq<JobView>, id: JobId)
    ensures UniqueIds(ReconcileJobs(current, snapshot))
    ensures var r, d := ById(ReconcileJobs(current, snapshot)), ById(Dedup(snapshot));
            && (id in r <==> id in d)
            && (id in r ==> r[id] == if id in ById(current) then NewerJob(ById(current)[id], d[id]) else d[id])
  {
    var d := Dedup(snapshot);
    DedupMerges(snapshot);
    var r := ReconcileJobs(current, snapshot);
    assert forall i :: 0 <= i < |r| ==> r[i].id == d[i].id by {
      forall i | 0 <= i < |r| ensures r[i].id == d[i].id { ByIdDomain(current, d[i].id); }
    }
    ByIdDomain(r, id);
    ByIdDomain(d, id);
    if id in ById(d) {
      var i :| 0 <= i < |d| && d[i].id == id;
      ByIdAt(d, i);
      ByIdAt(r, i);
    }
  }

  /** And they stay in the order of the snapshot, whatever the client held. */
  lemma ReconcileKeepsOrder(current: seq<JobView>, snapshot: seq<JobView>, i: nat)
    ensures |ReconcileJobs(current, snapshot)| == |Dedup(snapshot)|
    ensures i < |Dedup(snapshot)| ==> ReconcileJobs(current, snapshot)[i].id == Dedup(snapshot)[i].id
  {
    if i < |Dedup(snapshot)| { ByIdDomain(current, Dedup(snapshot)[i].id); }
  }

  /** at picks r out of s, in order. */
  ghost predicate Picks(at: seq<nat>, r: seq<JobView>, s: seq<JobView>) {
    && |at| == |r|
    && (forall i :: 0 <= i < |at| ==> at[i] < |s| && s[at[i]] == r[i])
    && (forall i, k :: 0 <= i < k < |at| ==> at[i] < at[k])
  }

  lemma PicksStep(at: seq<nat>, r: seq<JobView>, s: seq<JobView>, x: JobView)
    requires Picks(at, r, s)
    ensures Picks(at, r, s + [x]) && Picks(at + [|s|], r + [x], s + [x])
  {}

  /** The new jobs of an upsert come in the order of the incoming ones. */
  lemma {:induction false} NewOnesInOrder(current: seq<JobView>, incoming: seq<JobView>) returns (at: seq<nat>)
    ensures Picks(at, NewOnes(current, incoming), incoming)
    ensures forall job :: job in NewOnes(current, incoming) <==> job in incoming && job.id !in ById(current)
  {
    at := [];
    if incoming != [] {
      var init, last := incoming[..|incoming| - 1], incoming[|incoming| - 1];
      at := NewOnesInOrder(current, init);
      PicksStep(at, NewOnes(current, init), init, last);
      assert incoming == init + [last];
      if last.id !in ById(current) {
        at := at + [|init|];
      } else {
        assert NewOnes(current, init) + [] == NewOnes(current, init);
      }
    }
  }

  /** removeJob: the other jobs keep their order. */
  function RemoveJob(jobs: seq<JobView>, id: JobId): seq<JobView> {
    if jobs == [] then []
    else RemoveJob(jobs[..|jobs| - 1], id) + (if jobs[|jobs| - 1].id == id then [] else [jobs[|jobs| - 1]])
  }

  lemma {:induction false} RemoveDropsExactly(jobs: seq<JobView>, id: JobId)
    ensures ById(RemoveJob(jobs, id)) == ById(jobs) - {id}
  {
    if jobs != [] {
      var init, last := jobs[..|jobs| - 1], jobs[|jobs| - 1];
      RemoveDropsExactly(init, id);
      UpdateThenDrop(ById(init), last, {id});
      if last.id != id {
        ByIdAppend(RemoveJob(init, id), last);
      } else {
        assert RemoveJob(init, id) + [] == RemoveJob(init, id);
      }
    }
  }

  /** Every job but that one stays, in its order. */
  lemma {:induction false} RemoveInOrder(jobs: seq<JobView>, id: JobId) returns (at: seq<nat>)
    ensures Picks(at, RemoveJob(jobs, id), jobs)
    ensures forall job :: job in RemoveJob(jobs, id) <==> job in jobs && job.id != id
  {
    at := [];
    if jobs != [] {
      var init, last := jobs[..|jobs| - 1], jobs[|jobs| - 1];
      at := RemoveInOrder(init, id);
      PicksStep(at, RemoveJob(init, id), init, last);
      assert jobs == init + [last];
      if last.id != id {
        at := at + [|init|];
      } else {
        assert RemoveJob(init, id) + [] == RemoveJob(init, id);
      }
    }
  }

  lemma {:induction false} RemoveKeepsUnique(jobs: seq<JobView>, id: JobId)
    requires UniqueIds(jobs)
    ensures UniqueIds(RemoveJob(jobs, id))
  {
    if jobs != [] {
      var init, last := jobs[..|jobs| - 1], jobs[|jobs| - 1];
      RemoveKeepsUnique(init, id);
      RemoveDropsExactly(init, id);
      var kept := RemoveJob(init, id);
      forall i | 0 <= i < |kept| ensures kept[i].id != last.id {
        ByIdAt(kept, i);
        ByIdDomain(init, last.id);
      }
    }
  }
}
