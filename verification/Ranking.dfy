/** The dispatch order of the queue: internal/job/policy.go.
    Times are integers on one clock; a score is an unbounded integer. */
module Ranking {
  import opened Text

  datatype QueueAction = Start | Resume

  datatype QueuedJob = QueuedJob(
    jobId: string,
    position: int,
    action: QueueAction,
    notBefore: Option<int>,
    enqueuedAt: int,
    updatedAt: int,
    priority: string,
    engine: string)

  datatype AgingConfig = AgingConfig(interval: int, points: int, maxBonus: int)

  const SECOND := 1_000_000_000
  const DEFAULT_AGING := AgingConfig(60 * SECOND, 5, 250)

  function PriorityScore(p: string): int {
    var l := ToLower(p);
    if l == "high" then 200 else if l == "low" then 0 else 100
  }

  function AgingContribution(enqueuedAt: int, now: int, cfg: AgingConfig): int {
    if cfg.interval <= 0 || cfg.points <= 0 || cfg.maxBonus <= 0 then 0
    else if now - enqueuedAt <= 0 then 0
    else
      var bonus := (now - enqueuedAt) / cfg.interval * cfg.points;
      if bonus > cfg.maxBonus then cfg.maxBonus else bonus
  }

  function EffectivePriority(q: QueuedJob, now: int, cfg: AgingConfig): int {
    PriorityScore(q.priority) + AgingContribution(q.enqueuedAt, now, cfg)
  }

  predicate IsRunNow(q: QueuedJob) {
    q.position <= 0
  }

  /** Negative when a is dispatched before b. */
  function Compare(a: QueuedJob, b: QueuedJob, now: int, cfg: AgingConfig): int {
    if IsRunNow(a) != IsRunNow(b) then
      if IsRunNow(a) then -1 else 1
    else if IsRunNow(a) then
      if a.position != b.position then (if a.position < b.position then -1 else 1)
      else if a.updatedAt != b.updatedAt then (if a.updatedAt < b.updatedAt then -1 else 1)
      else if a.enqueuedAt != b.enqueuedAt then (if a.enqueuedAt < b.enqueuedAt then -1 else 1)
      else CompareStrings(a.jobId, b.jobId)
    else
      var effA, effB := EffectivePriority(a, now, cfg), EffectivePriority(b, now, cfg);
      var baseA, baseB := PriorityScore(a.priority), PriorityScore(b.priority);
      if effA != effB then (if effA > effB then -1 else 1)
      else if baseA != baseB then (if baseA > baseB then -1 else 1)
      else if a.position != b.position then (if a.position < b.position then -1 else 1)
      else if a.enqueuedAt != b.enqueuedAt then (if a.enqueuedAt < b.enqueuedAt then -1 else 1)
      else CompareStrings(a.jobId, b.jobId)
  }

  // ---------- the comparison is a strict total order ----------

  lemma CompareTotal(a: QueuedJob, b: QueuedJob, now: int, cfg: AgingConfig)
    ensures Compare(a, b, now, cfg) == -Compare(b, a, now, cfg)
    ensures Compare(a, b, now, cfg) == 0 ==> a.jobId == b.jobId
    ensures a == b ==> Compare(a, b, now, cfg) == 0
  {
    CompareStringsAntisymmetric(a.jobId, b.jobId);
  }

  lemma CompareTransitive(a: QueuedJob, b: QueuedJob, c: QueuedJob, now: int, cfg: AgingConfig)
    requires Compare(a, b, now, cfg) <= 0 && Compare(b, c, now, cfg) <= 0
    ensures Compare(a, c, now, cfg) <= 0
    ensures Compare(a, b, now, cfg) < 0 || Compare(b, c, now, cfg) < 0 ==> Compare(a, c, now, cfg) < 0
  {
    CompareStringsAntisymmetric(a.jobId, b.jobId);
    CompareStringsAntisymmetric(b.jobId, c.jobId);
    if CompareStrings(a.jobId, b.jobId) < 0 && CompareStrings(b.jobId, c.jobId) < 0 {
      CompareStringsTransitive(a.jobId, b.jobId, c.jobId);
    }
  }

  ghost predicate DistinctIds(s: seq<QueuedJob>) {
    forall i, j :: 0 <= i < j < |s| ==> s[i].jobId != s[j].jobId
  }

  ghost predicate Sorted(s: seq<QueuedJob>, now: int, cfg: AgingConfig) {
    forall i, j :: 0 <= i < j < |s| ==> Compare(s[i], s[j], now, cfg) <= 0
  }

  // ---------- ranking: the stable sort ----------

  /** Puts x in front of the first element it does not lose to. */
  function Insert(x: QueuedJob, s: seq<QueuedJob>, now: int, cfg: AgingConfig): seq<QueuedJob> {
    if s == [] then [x]
    else if Compare(x, s[0], now, cfg) <= 0 then [x] + s
    else [s[0]] + Insert(x, s[1..], now, cfg)
  }

  function Ranked(s: seq<QueuedJob>, now: int, cfg: AgingConfig): seq<QueuedJob> {
    if s == [] then [] else Insert(s[0], Ranked(s[1..], now, cfg), now, cfg)
  }

  /** The jobs of s that tie with x, in the order s lists them. */
  function Ties(s: seq<QueuedJob>, x: QueuedJob, now: int, cfg: AgingConfig): seq<QueuedJob> {
    if s == [] then []
    else (if Compare(s[0], x, now, cfg) == 0 then [s[0]] else []) + Ties(s[1..], x, now, cfg)
  }

  lemma SortedCons(h: QueuedJob, t: seq<QueuedJob>, now: int, cfg: AgingConfig)
    requires Sorted(t, now, cfg)
    requires forall j :: 0 <= j < |t| ==> Compare(h, t[j], now, cfg) <= 0
    ensures Sorted([h] + t, now, cfg)
  {
    var r := [h] + t;
    forall i, j | 0 <= i < j < |r| ensures Compare(r[i], r[j], now, cfg) <= 0 {
      assert r[j] == t[j - 1];
      if i > 0 { assert r[i] == t[i - 1]; }
    }
  }

  lemma {:induction false} InsertPermutes(x: QueuedJob, s: seq<QueuedJob>, now: int, cfg: AgingConfig)
    ensures var r := Insert(x, s, now, cfg); multiset(r) == multiset{x} + multiset(s) && |r| == |s| + 1
  {
    if s != [] && Compare(x, s[0], now, cfg) > 0 {
      InsertPermutes(x, s[1..], now, cfg);
      assert s == [s[0]] + s[1..];
    }
  }

  lemma {:induction false} InsertSorts(x: QueuedJob, s: seq<QueuedJob>, now: int, cfg: AgingConfig)
    requires Sorted(s, now, cfg)
    ensures Sorted(Insert(x, s, now, cfg), now, cfg)
  {
    if s == [] {
    } else if Compare(x, s[0], now, cfg) <= 0 {
      forall j | 0 <= j < |s| ensures Compare(x, s[j], now, cfg) <= 0 {
        if j > 0 { CompareTransitive(x, s[0], s[j], now, cfg); }
      }
      SortedCons(x, s, now, cfg);
    } else {
      var t := Insert(x, s[1..], now, cfg);
      InsertSorts(x, s[1..], now, cfg);
      InsertPermutes(x, s[1..], now, cfg);
      CompareTotal(x, s[0], now, cfg);
      forall j | 0 <= j < |t| ensures Compare(s[0], t[j], now, cfg) <= 0 {
        assert t[j] in multiset(t);
        if t[j] != x {
          var k :| 0 <= k < |s[1..]| && s[1..][k] == t[j];
          assert Compare(s[0], s[k + 1], now, cfg) <= 0;
        }
      }
      SortedCons(s[0], t, now, cfg);
    }
  }

  lemma {:induction false} InsertKeepsTies(x: QueuedJob, s: seq<QueuedJob>, y: QueuedJob, now: int, cfg: AgingConfig)
    ensures Ties(Insert(x, s, now, cfg), y, now, cfg) == Ties([x] + s, y, now, cfg)
  {
    assert ([x] + s)[1..] == s;
    if s != [] && Compare(x, s[0], now, cfg) > 0 {
      var t := Insert(x, s[1..], now, cfg);
      InsertKeepsTies(x, s[1..], y, now, cfg);
      assert ([s[0]] + t)[1..] == t && ([x] + s[1..])[1..] == s[1..];
      if Compare(s[0], y, now, cfg) == 0 {
        CompareTotal(s[0], y, now, cfg);
        if Compare(x, y, now, cfg) == 0 { CompareTransitive(x, y, s[0], now, cfg); }
      }
    }
  }

  lemma {:induction false} RankedSorts(s: seq<QueuedJob>, now: int, cfg: AgingConfig)
    ensures var r := Ranked(s, now, cfg); Sorted(r, now, cfg) && multiset(r) == multiset(s) && |r| == |s|
  {
    if s != [] {
      RankedSorts(s[1..], now, cfg);
      var t := Ranked(s[1..], now, cfg);
      InsertSorts(s[0], t, now, cfg);
      InsertPermutes(s[0], t, now, cfg);
      assert s == [s[0]] + s[1..];
    }
  }

  lemma {:induction false} RankedKeepsTies(s: seq<QueuedJob>, y: QueuedJob, now: int, cfg: AgingConfig)
    ensures Ties(Ranked(s, now, cfg), y, now, cfg) == Ties(s, y, now, cfg)
  {
    if s != [] {
      var t := Ranked(s[1..], now, cfg);
      RankedKeepsTies(s[1..], y, now, cfg);
      InsertKeepsTies(s[0], t, y, now, cfg);
      assert ([s[0]] + t)[1..] == t;
    }
  }

  /** The ranking is a sorted permutation that keeps tied jobs in their old order. */
  lemma RankedIsStableSort(s: seq<QueuedJob>, now: int, cfg: AgingConfig)
    ensures var r := Ranked(s, now, cfg); Sorted(r, now, cfg) && multiset(r) == multiset(s) && |r| == |s|
    ensures forall y :: Ties(Ranked(s, now, cfg), y, now, cfg) == Ties(s, y, now, cfg)
  {
    RankedSorts(s, now, cfg);
    forall y ensures Ties(Ranked(s, now, cfg), y, now, cfg) == Ties(s, y, now, cfg) {
      RankedKeepsTies(s, y, now, cfg);
    }
  }

  lemma {:induction false} TiesMember(s: seq<QueuedJob>, k: nat, now: int, cfg: AgingConfig)
    requires k < |s|
    ensures Ties(s, s[k], now, cfg) != []
  {
    if k == 0 { CompareTotal(s[0], s[0], now, cfg); } else { TiesMember(s[1..], k - 1, now, cfg); }
  }

  lemma {:induction false} TiesWitness(s: seq<QueuedJob>, y: QueuedJob, now: int, cfg: AgingConfig) returns (k: nat)
    requires Ties(s, y, now, cfg) != []
    ensures k < |s| && Compare(s[k], y, now, cfg) == 0
  {
    if Compare(s[0], y, now, cfg) == 0 { k := 0; } else { k := TiesWitness(s[1..], y, now, cfg); k := k + 1; }
  }

  /** Two sorted lists with the same ties agree at the head. */
  lemma SortedHeadUnique(r: seq<QueuedJob>, t: seq<QueuedJob>, now: int, cfg: AgingConfig)
    requires Sorted(r, now, cfg) && Sorted(t, now, cfg)
    requires forall y :: Ties(r, y, now, cfg) == Ties(t, y, now, cfg)
    requires r != [] && t != []
    ensures r[0] == t[0]
  {
    TiesMember(r, 0, now, cfg);
    var k := TiesWitness(t, r[0], now, cfg);
    TiesMember(t, 0, now, cfg);
    var m := TiesWitness(r, t[0], now, cfg);
    CompareTotal(r[0], t[0], now, cfg);
    CompareTotal(t[k], r[0], now, cfg);
    CompareTotal(r[m], t[0], now, cfg);
    if k > 0 { CompareTransitive(t[0], t[k], r[0], now, cfg); }
    if m > 0 { CompareTransitive(r[0], r[m], t[0], now, cfg); }
    CompareTotal(r[0], r[0], now, cfg);
    assert Ties(r, r[0], now, cfg)[0] == r[0];
    assert Ties(t, r[0], now, cfg)[0] == t[0];
  }

  /** Any stable sort of s is the ranking: the order is fully determined by the comparison. */
  lemma {:induction false} StableSortUnique(r: seq<QueuedJob>, t: seq<QueuedJob>, now: int, cfg: AgingConfig)
    requires Sorted(r, now, cfg) && Sorted(t, now, cfg)
    requires forall y :: Ties(r, y, now, cfg) == Ties(t, y, now, cfg)
    ensures r == t
  {
    if r == [] && t == [] {
    } else if r == [] {
      TiesMember(t, 0, now, cfg);
    } else if t == [] {
      TiesMember(r, 0, now, cfg);
    } else {
      SortedHeadUnique(r, t, now, cfg);
      forall y ensures Ties(r[1..], y, now, cfg) == Ties(t[1..], y, now, cfg) {
        assert Ties(r, y, now, cfg) == Ties(t, y, now, cfg);
        var h := if Compare(r[0], y, now, cfg) == 0 then [r[0]] else [];
        assert Ties(r, y, now, cfg)[|h|..] == Ties(r[1..], y, now, cfg);
        assert Ties(t, y, now, cfg)[|h|..] == Ties(t[1..], y, now, cfg);
      }
      StableSortUnique(r[1..], t[1..], now, cfg);
      assert r == [r[0]] + r[1..] && t == [t[0]] + t[1..];
    }
  }

  lemma {:induction false} InsertKeepsDistinct(x: QueuedJob, s: seq<QueuedJob>, now: int, cfg: AgingConfig)
    requires DistinctIds([x] + s)
    ensures DistinctIds(Insert(x, s, now, cfg))
    ensures forall q :: q in Insert(x, s, now, cfg) <==> q == x || q in s
  {
    if s != [] && Compare(x, s[0], now, cfg) > 0 {
      forall i, j | 0 <= i < j < |[x] + s[1..]| ensures ([x] + s[1..])[i].jobId != ([x] + s[1..])[j].jobId {
        assert ([x] + s)[if i == 0 then 0 else i + 1].jobId != ([x] + s)[j + 1].jobId;
      }
      InsertKeepsDistinct(x, s[1..], now, cfg);
      var t := Insert(x, s[1..], now, cfg);
      assert s == [s[0]] + s[1..];
      forall j | 0 <= j < |t| ensures t[j].jobId != s[0].jobId {
        assert t[j] in t;
        assert ([x] + s)[0].jobId != ([x] + s)[1].jobId;
        if t[j] in s[1..] {
          var k :| 0 <= k < |s[1..]| && s[1..][k] == t[j];
          assert ([x] + s)[1].jobId != ([x] + s)[k + 2].jobId;
        }
      }
    } else {
      assert Insert(x, s, now, cfg) == [x] + s;
    }
  }

  lemma {:induction false} RankedKeepsDistinct(s: seq<QueuedJob>, now: int, cfg: AgingConfig)
    requires DistinctIds(s)
    ensures DistinctIds(Ranked(s, now, cfg))
    ensures forall q :: q in Ranked(s, now, cfg) <==> q in s
  {
    if s != [] {
      var t := Ranked(s[1..], now, cfg);
      RankedKeepsDistinct(s[1..], now, cfg);
      assert s == [s[0]] + s[1..];
      forall j | 0 <= j < |t| ensures t[j].jobId != s[0].jobId {
        assert t[j] in s[1..];
        var k :| 0 <= k < |s[1..]| && s[1..][k] == t[j];
        assert s[0].jobId != s[k + 1].jobId;
      }
      InsertKeepsDistinct(s[0], t, now, cfg);
    }
  }

  /** Distinct job IDs rank strictly: no two places of a ranking tie. */
  lemma RankedStrict(s: seq<QueuedJob>, now: int, cfg: AgingConfig)
    requires DistinctIds(s)
    ensures var r := Ranked(s, now, cfg);
            DistinctIds(r) && (forall q :: q in r <==> q in s) &&
            forall i, j :: 0 <= i < j < |r| ==> Compare(r[i], r[j], now, cfg) < 0
  {
    RankedSorts(s, now, cfg);
    RankedKeepsDistinct(s, now, cfg);
    var r := Ranked(s, now, cfg);
    forall i, j | 0 <= i < j < |r| ensures Compare(r[i], r[j], now, cfg) < 0 {
      CompareTotal(r[i], r[j], now, cfg);
    }
  }

  /** sort.SliceStable over the slice, in place. */
  method RankQueuedJobs(jobs: array<QueuedJob>, now: int, cfg: AgingConfig)
    modifies jobs
    ensures jobs[..] == Ranked(old(jobs[..]), now, cfg)
  {
    var r := Ranked(jobs[..], now, cfg);
    RankedIsStableSort(jobs[..], now, cfg);
    forall i | 0 <= i < jobs.Length { jobs[i] := r[i]; }
  }

  /** The linear scan returns exactly the first element of the ranking. */
  method SelectNextRunnable(jobs: seq<QueuedJob>, now: int, cfg: AgingConfig) returns (result: Option<QueuedJob>)
    ensures result == if jobs == [] then None else Some(Ranked(jobs, now, cfg)[0])
  {
    if |jobs| == 0 { return None; }
    var best := 0;
    var i := 1;
    CompareTotal(jobs[0], jobs[0], now, cfg);
    while i < |jobs|
      invariant 0 <= best < i <= |jobs|
      invariant forall k :: 0 <= k < i ==> Compare(jobs[best], jobs[k], now, cfg) <= 0
      invariant forall k :: 0 <= k < best ==> Compare(jobs[best], jobs[k], now, cfg) < 0
    {
      CompareTotal(jobs[i], jobs[best], now, cfg);
      CompareTotal(jobs[i], jobs[i], now, cfg);
      if Compare(jobs[i], jobs[best], now, cfg) < 0 {
        forall k | 0 <= k < i ensures Compare(jobs[i], jobs[k], now, cfg) < 0 {
          CompareTransitive(jobs[i], jobs[best], jobs[k], now, cfg);
        }
        best := i;
      }
      i := i + 1;
    }
    FirstMinimumIsHead(jobs, best, now, cfg);
    result := Some(jobs[best]);
  }

  /** The first minimum of s: it loses to nobody and beats everyone listed before it. */
  ghost predicate FirstMinimum(s: seq<QueuedJob>, best: nat, now: int, cfg: AgingConfig)
    requires best < |s|
  {
    && (forall k :: 0 <= k < |s| ==> Compare(s[best], s[k], now, cfg) <= 0)
    && (forall k :: 0 <= k < best ==> Compare(s[best], s[k], now, cfg) < 0)
  }

  lemma FirstMinimumTail(s: seq<QueuedJob>, best: nat, now: int, cfg: AgingConfig)
    requires 0 < best < |s| && FirstMinimum(s, best, now, cfg)
    ensures FirstMinimum(s[1..], best - 1, now, cfg)
  {
    forall k | 0 <= k < |s[1..]|
      ensures Compare(s[1..][best - 1], s[1..][k], now, cfg) <= 0
      ensures k < best - 1 ==> Compare(s[1..][best - 1], s[1..][k], now, cfg) < 0
    {
      assert s[1..][k] == s[k + 1] && s[1..][best - 1] == s[best];
    }
  }

  lemma {:induction false} FirstMinimumIsHead(s: seq<QueuedJob>, best: nat, now: int, cfg: AgingConfig)
    requires best < |s| && FirstMinimum(s, best, now, cfg)
    ensures Ranked(s, now, cfg) != [] && Ranked(s, now, cfg)[0] == s[best]
  {
    var t := Ranked(s[1..], now, cfg);
    if best == 0 {
      RankedIsStableSort(s[1..], now, cfg);
      if t != [] {
        assert t[0] in multiset(t);
        var k :| 0 <= k < |s[1..]| && s[1..][k] == t[0];
        assert Compare(s[0], s[k + 1], now, cfg) <= 0;
      }
    } else {
      FirstMinimumTail(s, best, now, cfg);
      FirstMinimumIsHead(s[1..], best - 1, now, cfg);
      CompareTotal(s[0], s[best], now, cfg);
      assert Compare(s[best], s[0], now, cfg) < 0;
    }
  }

  // ---------- aging ----------

  lemma AgingMonotoneAndBounded(enqueuedAt: int, t0: int, t1: int, cfg: AgingConfig)
    requires t0 <= t1
    ensures 0 <= AgingContribution(enqueuedAt, t0, cfg) <= AgingContribution(enqueuedAt, t1, cfg)
    ensures cfg == DEFAULT_AGING ==> AgingContribution(enqueuedAt, t1, cfg) <= 250
  {
    if cfg.interval > 0 && cfg.points > 0 && cfg.maxBonus > 0 && t0 - enqueuedAt > 0 {
      var a, b := (t0 - enqueuedAt) / cfg.interval, (t1 - enqueuedAt) / cfg.interval;
      DivMonotone(t0 - enqueuedAt, t1 - enqueuedAt, cfg.interval);
      MulMonotone(a, b, cfg.points);
    } else if cfg.interval > 0 && cfg.points > 0 && t1 - enqueuedAt > 0 {
      MulMonotone(0, (t1 - enqueuedAt) / cfg.interval, cfg.points);
    }
  }

  lemma DivMonotone(a: int, b: int, d: int)
    requires 0 <= a <= b && d > 0
    ensures 0 <= a / d <= b / d
  {
    var q, p := a / d, b / d;
    assert a == d * q + a % d && b == d * p + b % d;
    assert d * q < d * (p + 1);
  }

  lemma MulMonotone(a: int, b: int, m: int)
    requires 0 <= a <= b && m > 0
    ensures 0 <= a * m <= b * m
  {}

  // ---------- what the priorities mean ----------

  predicate IsHigh(q: QueuedJob) { ToLower(q.priority) == "high" }

  predicate IsLow(q: QueuedJob) { ToLower(q.priority) == "low" }

  /** Any other priority, known or not, is a normal one. */
  predicate IsNormal(q: QueuedJob) { !IsHigh(q) && !IsLow(q) }

  predicate SameClass(a: QueuedJob, b: QueuedJob) {
    (IsHigh(a) <==> IsHigh(b)) && (IsLow(a) <==> IsLow(b))
  }

  /** High before Normal before Low. */
  predicate HigherClass(a: QueuedJob, b: QueuedJob) {
    (IsHigh(a) && !IsHigh(b)) || (!IsLow(a) && IsLow(b))
  }

  /** Letter case does not matter. */
  lemma PriorityNames(q: QueuedJob)
    ensures q.priority in {"high", "High", "HIGH"} ==> IsHigh(q)
    ensures q.priority in {"low", "Low", "LOW"} ==> IsLow(q)
    ensures q.priority in {"normal", "Normal", "", "urgent"} ==> IsNormal(q)
  {
    assert ToLower("high") == ToLower("High") == ToLower("HIGH") == "high";
    assert ToLower("low") == ToLower("Low") == ToLower("LOW") == "low";
    assert |ToLower("normal")| == |ToLower("Normal")| == |ToLower("urgent")| == 6 && ToLower("") == "";
  }

  /** Among ordinary jobs that have waited equally long the priority decides at every time, and
      within one priority the position. */
  lemma PriorityOrder(a: QueuedJob, b: QueuedJob, now: int, cfg: AgingConfig)
    requires a.position > 0 && b.position > 0 && a.enqueuedAt == b.enqueuedAt
    ensures HigherClass(a, b) ==> Compare(a, b, now, cfg) < 0
    ensures SameClass(a, b) ==> PriorityScore(a.priority) == PriorityScore(b.priority)
    ensures SameClass(a, b) ==>
      (Compare(a, b, now, cfg) < 0 <==>
        a.position < b.position || (a.position == b.position && Precedes(a.jobId, b.jobId)))
  {
    CompareStringsOrders(a.jobId, b.jobId);
  }

  /** Without aging the priority decides whatever the ages, then position, age and id. */
  lemma OrderWithoutAging(a: QueuedJob, b: QueuedJob, now: int, cfg: AgingConfig)
    requires a.position > 0 && b.position > 0 && (cfg.interval <= 0 || cfg.points <= 0 || cfg.maxBonus <= 0)
    ensures HigherClass(a, b) ==> Compare(a, b, now, cfg) < 0
    ensures SameClass(a, b) ==>
      (Compare(a, b, now, cfg) < 0 <==>
        || a.position < b.position
        || (a.position == b.position && a.enqueuedAt < b.enqueuedAt)
        || (a.position == b.position && a.enqueuedAt == b.enqueuedAt && Precedes(a.jobId, b.jobId)))
  {
    CompareStringsOrders(a.jobId, b.jobId);
  }

  /** Jobs to be run now come before all others, lower positions first, then by request, by age and
      by id. */
  lemma RunNowOrder(a: QueuedJob, b: QueuedJob, now: int, cfg: AgingConfig)
    requires a.position <= 0
    ensures b.position > 0 ==> Compare(a, b, now, cfg) < 0
    ensures b.position <= 0 ==>
      (Compare(a, b, now, cfg) < 0 <==>
        || a.position < b.position
        || (a.position == b.position && a.updatedAt < b.updatedAt)
        || (a.position == b.position && a.updatedAt == b.updatedAt && a.enqueuedAt < b.enqueuedAt)
        || (a.position == b.position && a.updatedAt == b.updatedAt && a.enqueuedAt == b.enqueuedAt
            && Precedes(a.jobId, b.jobId)))
  {
    CompareStringsOrders(a.jobId, b.jobId);
  }

  /** For each whole interval waited a job gains the points, up to the bonus; a parameter that is not
      positive turns aging off. */
  lemma AgingExactly(enqueuedAt: int, now: int, cfg: AgingConfig, k: nat)
    ensures cfg.interval <= 0 || cfg.points <= 0 || cfg.maxBonus <= 0 || now <= enqueuedAt ==>
      AgingContribution(enqueuedAt, now, cfg) == 0
    ensures cfg.interval > 0 && cfg.points > 0 && cfg.maxBonus > 0 &&
            k * cfg.interval <= now - enqueuedAt < (k + 1) * cfg.interval ==>
      AgingContribution(enqueuedAt, now, cfg) == if k * cfg.points <= cfg.maxBonus then k * cfg.points else cfg.maxBonus
  {
    var wait := now - enqueuedAt;
    if cfg.interval > 0 && k * cfg.interval <= wait < (k + 1) * cfg.interval {
      assert wait / cfg.interval == k by { QuotientIs(wait, cfg.interval, k); }
    }
  }

  lemma QuotientIs(a: int, d: int, k: nat)
    requires d > 0 && k * d <= a < (k + 1) * d
    ensures a / d == k
  {
    var q := a / d;
    assert a == d * q + a % d;
    if q < k { MulMonotone(q + 1, k, d); } else if q > k { MulMonotone(k + 1, q, d); }
  }

  // ---------- when aging overtakes a priority ----------

  /** One minute, in nanoseconds. */
  const MINUTE := 60_000_000_000

  /** By default a job gains 5 points a minute for 50 minutes. */
  lemma DefaultBonus(enqueuedAt: int, now: int)
    requires enqueuedAt <= now
    ensures var minutes := (now - enqueuedAt) / MINUTE;
            AgingContribution(enqueuedAt, now, DEFAULT_AGING) == if minutes <= 50 then 5 * minutes else 250
  {}

  /** The lower job goes first as long as the higher one has not waited n minutes. */
  ghost predicate Leads(lower: QueuedJob, higher: QueuedJob, n: int) {
    forall now :: higher.enqueuedAt <= now < higher.enqueuedAt + n * MINUTE ==>
      Compare(lower, higher, now, DEFAULT_AGING) < 0
  }

  /** A gap of 5k points is overtaken by a lead of k + 1 minutes until the higher job has waited
      50 - k minutes itself, and never by a lead of k. */
  lemma GapAt(lower: QueuedJob, higher: QueuedJob, k: int, now: int)
    requires lower.position > 0 && higher.position > 0 && 0 < k < 50 && now >= higher.enqueuedAt
    requires PriorityScore(higher.priority) - PriorityScore(lower.priority) == 5 * k
    ensures higher.enqueuedAt - lower.enqueuedAt >= (k + 1) * MINUTE ==>
      (Compare(lower, higher, now, DEFAULT_AGING) < 0 <==> now - higher.enqueuedAt < (50 - k) * MINUTE)
      && (Compare(higher, lower, now, DEFAULT_AGING) < 0 <==> now - higher.enqueuedAt >= (50 - k) * MINUTE)
    ensures higher.enqueuedAt - lower.enqueuedAt <= k * MINUTE ==> Compare(higher, lower, now, DEFAULT_AGING) < 0
  {
    var wl, wh := now - lower.enqueuedAt, now - higher.enqueuedAt;
    DefaultBonus(higher.enqueuedAt, now);
    if wl >= 0 { DefaultBonus(lower.enqueuedAt, now); }
    if wl >= wh + (k + 1) * MINUTE { assert wl / MINUTE >= wh / MINUTE + k + 1; }
    if 0 <= wl <= wh + k * MINUTE { assert wl / MINUTE <= wh / MINUTE + k; }
  }

  lemma GapExactly(lower: QueuedJob, higher: QueuedJob, k: int)
    requires lower.position > 0 && higher.position > 0 && 0 < k < 50
    requires PriorityScore(higher.priority) - PriorityScore(lower.priority) == 5 * k
    ensures Leads(lower, higher, 50 - k) <==> higher.enqueuedAt - lower.enqueuedAt >= (k + 1) * MINUTE
  {
    if higher.enqueuedAt - lower.enqueuedAt >= (k + 1) * MINUTE {
      forall now | higher.enqueuedAt <= now < higher.enqueuedAt + (50 - k) * MINUTE
        ensures Compare(lower, higher, now, DEFAULT_AGING) < 0
      {
        GapAt(lower, higher, k, now);
      }
    } else {
      // When the higher job arrives the lower one has waited at most k whole minutes.
      var now := higher.enqueuedAt;
      DefaultBonus(higher.enqueuedAt, now);
      if lower.enqueuedAt <= now {
        DefaultBonus(lower.enqueuedAt, now);
        assert (now - lower.enqueuedAt) / MINUTE <= k;
      }
      assert Compare(lower, higher, now, DEFAULT_AGING) > 0;
    }
  }

  /** A Low job enqueued at least 41 minutes before a High job leads it exactly until the High job
      has itself waited 10 minutes. */
  lemma LowOvertakesHigh(low: QueuedJob, high: QueuedJob, now: int)
    requires IsLow(low) && IsHigh(high) && low.position > 0 && high.position > 0
    requires high.enqueuedAt - low.enqueuedAt >= 41 * MINUTE && now >= high.enqueuedAt
    ensures Compare(low, high, now, DEFAULT_AGING) < 0 <==> now - high.enqueuedAt < 10 * MINUTE
    ensures Compare(high, low, now, DEFAULT_AGING) < 0 <==> now - high.enqueuedAt >= 10 * MINUTE
  {
    GapAt(low, high, 40, now);
  }

  /** A lead of 40 minutes is not enough: such a Low job never goes first. */
  lemma FortyIntervalsNeverSuffice(low: QueuedJob, high: QueuedJob, now: int)
    requires IsLow(low) && IsHigh(high) && low.position > 0 && high.position > 0
    requires high.enqueuedAt - low.enqueuedAt <= 40 * MINUTE && now >= high.enqueuedAt
    ensures Compare(high, low, now, DEFAULT_AGING) < 0
  {
    GapAt(low, high, 40, now);
  }

  /** A lead of 41 minutes is what it takes: the Low job goes first for all of the High job's first
      10 minutes exactly then. */
  lemma FortyOneIntervalsExactly(low: QueuedJob, high: QueuedJob)
    requires IsLow(low) && IsHigh(high) && low.position > 0 && high.position > 0
    ensures Leads(low, high, 10) <==> high.enqueuedAt - low.enqueuedAt >= 41 * MINUTE
  {
    GapExactly(low, high, 40);
  }

  /** One priority up, 21 minutes are what it takes, and the lead lasts for 30. */
  lemma TwentyOneIntervalsExactly(lower: QueuedJob, higher: QueuedJob)
    requires (IsLow(lower) && IsNormal(higher)) || (IsNormal(lower) && IsHigh(higher))
    requires lower.position > 0 && higher.position > 0
    ensures Leads(lower, higher, 30) <==> higher.enqueuedAt - lower.enqueuedAt >= 21 * MINUTE
    ensures higher.enqueuedAt - lower.enqueuedAt >= 21 * MINUTE ==>
      forall now :: now >= higher.enqueuedAt + 30 * MINUTE ==> Compare(higher, lower, now, DEFAULT_AGING) < 0
    ensures higher.enqueuedAt - lower.enqueuedAt <= 20 * MINUTE ==>
      forall now :: now >= higher.enqueuedAt ==> Compare(higher, lower, now, DEFAULT_AGING) < 0
  {
    GapExactly(lower, higher, 20);
    forall now | now >= higher.enqueuedAt + 30 * MINUTE && higher.enqueuedAt - lower.enqueuedAt >= 21 * MINUTE
      ensures Compare(higher, lower, now, DEFAULT_AGING) < 0
    {
      GapAt(lower, higher, 20, now);
    }
    forall now | now >= higher.enqueuedAt && higher.enqueuedAt - lower.enqueuedAt <= 20 * MINUTE
      ensures Compare(higher, lower, now, DEFAULT_AGING) < 0
    {
      GapAt(lower, higher, 20, now);
    }
  }
}
