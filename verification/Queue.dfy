/** Queue positions: Enqueue, NextPosition and Reorder of internal/database/queue_repository.go,
    and what they mean for the dispatch order of internal/job/policy.go. */
module Queue {
  import opened Text
  import opened Jobs
  import opened Ranking
  import opened Scheduler

  const RUN_NOW_POSITION := 0

  /** id has a queue entry and belongs to the priority lane. */
  predicate InLane(s: Store, id: JobId, priority: string) {
    id in s.queue && id in s.jobs && s.jobs[id].priority == priority
  }

  /** INSERT ... ON CONFLICT DO UPDATE: everything but the original enqueue time is replaced. */
  function WithEntry(s: Store, id: JobId, e: QueueEntry): Store {
    s.(queue := s.queue[id := if id in s.queue then e.(enqueuedAt := s.queue[id].enqueuedAt) else e])
  }

  /** The position a reordering gives to id: one more than the last place that lists it, as every
      UPDATE overwrites the one before. */
  function LastPlace(ids: seq<JobId>, id: JobId): int {
    if ids == [] then 0
    else if ids[|ids| - 1] == id then |ids|
    else LastPlace(ids[..|ids| - 1], id)
  }

  lemma {:induction false} LastPlaceOf(ids: seq<JobId>, i: nat)
    requires i < |ids| && forall k :: i < k < |ids| ==> ids[k] != ids[i]
    ensures LastPlace(ids, ids[i]) == i + 1
  {
    if i < |ids| - 1 { LastPlaceOf(ids[..|ids| - 1], i); }
  }

  /** after is s with every listed job at its last place in ids and nothing else changed. */
  ghost predicate Reordered(s: Store, after: Store, ids: seq<JobId>) {
    && after.jobs == s.jobs
    && after.queue.Keys == s.queue.Keys
    && forall id :: id in s.queue ==>
         after.queue[id] == if id in ids then s.queue[id].(position := LastPlace(ids, id)) else s.queue[id]
  }

  lemma ReorderedStep(s: Store, mid: Store, ids: seq<JobId>, i: nat)
    requires i < |ids| && Reordered(s, mid, ids[..i])
    ensures var id := ids[i];
            var after := if id !in mid.queue then mid
                         else mid.(queue := mid.queue[id := mid.queue[id].(position := i + 1)]);
            Reordered(s, after, ids[..i + 1])
  {
    var done := ids[..i + 1];
    assert done == ids[..i] + [ids[i]];
    assert done[..|done| - 1] == ids[..i] && done[|done| - 1] == ids[i];
  }

  class QueueRepository {
    var store: Store

    constructor (s: Store)
      ensures store == s
    {
      store := s;
    }

    method Enqueue(id: JobId, e: QueueEntry)
      modifies this
      ensures store == WithEntry(old(store), id, e)
    {
      var kept := if id in store.queue then e.(enqueuedAt := store.queue[id].enqueuedAt) else e;
      store := store.(queue := store.queue[id := kept]);
    }

    /** COALESCE(MAX(position), 0) + 1 over the lane. */
    method NextPosition(priority: string) returns (next: int)
      ensures forall id :: InLane(store, id, priority) ==> store.queue[id].position < next
      ensures (forall id :: !InLane(store, id, priority)) ==> next == 1
      ensures (exists id :: InLane(store, id, priority)) ==>
        exists id :: InLane(store, id, priority) && store.queue[id].position + 1 == next
    {
      var largest: Option<int> := None;
      var rest := store.queue.Keys;
      while rest != {}
        invariant rest <= store.queue.Keys
        invariant forall id :: InLane(store, id, priority) && id !in rest ==>
          largest.Some? && store.queue[id].position <= largest.value
        invariant largest.Some? ==>
          exists id :: InLane(store, id, priority) && store.queue[id].position == largest.value
        decreases rest
      {
        var id :| id in rest;
        rest := rest - {id};
        if InLane(store, id, priority) {
          var p := store.queue[id].position;
          if largest == None || p > largest.value { largest := Some(p); }
        }
      }
      next := (if largest.Some? then largest.value else 0) + 1;
    }

    /** One UPDATE per listed job; an unknown job is no row. */
    method Reorder(ids: seq<JobId>)
      modifies this
      ensures Reordered(old(store), store, ids)
    {
      var i := 0;
      while i < |ids|
        invariant 0 <= i <= |ids|
        invariant Reordered(old(store), store, ids[..i])
      {
        var id := ids[i];
        ReorderedStep(old(store), store, ids, i);
        if id in store.queue {
          store := store.(queue := store.queue[id := store.queue[id].(position := i + 1)]);
        }
        i := i + 1;
      }
      assert ids[..i] == ids;
    }
  }

  // ---------- what positions mean for the order ----------

  /** A reordering is honoured between two jobs of a lane exactly as long as aging does not
      favour the later one. */
  lemma ReorderHonouredUntilAged(s: Store, after: Store, ids: seq<JobId>, i: nat, k: nat, now: int, cfg: AgingConfig)
    requires Reordered(s, after, ids) && i < k < |ids|
    requires forall n :: i < n < |ids| ==> ids[n] != ids[i]
    requires forall n :: k < n < |ids| ==> ids[n] != ids[k]
    requires ids[i] in s.queue && ids[i] in s.jobs && ids[k] in s.queue && ids[k] in s.jobs
    requires s.jobs[ids[i]].priority == s.jobs[ids[k]].priority
    ensures Compare(Joined(after, ids[i]), Joined(after, ids[k]), now, cfg) < 0 <==>
            AgingContribution(s.queue[ids[i]].enqueuedAt, now, cfg)
              >= AgingContribution(s.queue[ids[k]].enqueuedAt, now, cfg)
  {
    LastPlaceOf(ids, i);
    LastPlaceOf(ids, k);
  }

  /** A job enqueued at the next position of its lane, no earlier than the others, goes after
      every one of them at all times. */
  lemma NewcomerGoesLast(s: Store, id: JobId, e: QueueEntry, other: JobId, now: int, cfg: AgingConfig)
    requires id in s.jobs && id !in s.queue && InLane(s, other, s.jobs[id].priority)
    requires e.position > s.queue[other].position && e.position > RUN_NOW_POSITION
    requires e.enqueuedAt >= s.queue[other].enqueuedAt
    ensures var after := WithEntry(s, id, e);
            Compare(Joined(after, other), Joined(after, id), now, cfg) < 0
  {
    AgingPrefersElder(s.queue[other].enqueuedAt, e.enqueuedAt, now, cfg);
  }

  lemma AgingPrefersElder(elder: int, younger: int, now: int, cfg: AgingConfig)
    requires elder <= younger
    ensures AgingContribution(elder, now, cfg) >= AgingContribution(younger, now, cfg)
  {
    AgingMonotoneAndBounded(elder, now - (younger - elder), now, cfg);
  }

  /** Run Now puts a job before every ordinary one at all times, and two Run Now jobs go in the
      order they were requested. */
  lemma RunNowGoesFirst(s: Store, id: JobId, e: QueueEntry, other: JobId, now: int, cfg: AgingConfig)
    requires id in s.jobs && other in s.jobs && other in s.queue && other != id
    requires e.position == RUN_NOW_POSITION
    ensures var after := WithEntry(s, id, e);
            var order := Compare(Joined(after, id), Joined(after, other), now, cfg);
            && (s.queue[other].position > RUN_NOW_POSITION ==> order < 0)
            && (s.queue[other].position == RUN_NOW_POSITION && s.queue[other].updatedAt < e.updatedAt ==> order > 0)
  {}

  /** a is dispatched before b whenever both are runnable. */
  ghost predicate AlwaysBefore(s: Store, a: JobId, b: JobId)
    requires a in s.jobs && a in s.queue && b in s.jobs && b in s.queue
  {
    forall now :: Compare(Joined(s, a), Joined(s, b), now, DEFAULT_AGING) < 0
  }

  /** The next position of the lane is an ordinary one: always, unless every position in it is
      negative. */
  ghost predicate OrdinaryNext(s: Store, priority: string) {
    (exists id :: InLane(s, id, priority)) ==>
      exists id :: InLane(s, id, priority) && s.queue[id].position >= RUN_NOW_POSITION
  }

  /** What each of the two repository calls of an enqueue answers. */
  datatype Answers = Answers(position: bool, write: bool)

  /** enqueueJobWithMetadata: a job that is new to the queue goes last in its lane, for good, if its
      position is an ordinary one; an error of either call leaves the queue as it was. */
  method EnqueueJob(
    r: QueueRepository, id: JobId, action: QueueAction, retryCount: int, notBefore: Option<int>, now: int,
    answers: Answers) returns (ok: bool)
    requires id in r.store.jobs
    modifies r
    ensures ok <==> answers.position && answers.write
    ensures !ok ==> r.store == old(r.store)
    ensures ok ==> Enqueued(old(r.store), r.store, id, QueueEntry(0, action, retryCount, notBefore, now, now))
    ensures ok && id !in old(r.store.queue) && OrdinaryNext(old(r.store), r.store.jobs[id].priority) ==>
      forall other ::
        InLane(old(r.store), other, r.store.jobs[id].priority) && r.store.queue[other].enqueuedAt <= now ==>
          AlwaysBefore(r.store, other, id)
  {
    if !answers.position { return false; }
    var next := r.NextPosition(r.store.jobs[id].priority);
    var e := QueueEntry(next, action, retryCount, notBefore, now, now);
    if !answers.write { return false; }
    ghost var before := r.store;
    r.Enqueue(id, e);
    if id !in before.queue && OrdinaryNext(before, before.jobs[id].priority) {
      forall other, t: int | InLane(before, other, before.jobs[id].priority) && before.queue[other].enqueuedAt <= now
        ensures Compare(Joined(r.store, other), Joined(r.store, id), t, DEFAULT_AGING) < 0
      {
        NewcomerGoesLast(before, id, e, other, t, DEFAULT_AGING);
      }
    }
    ok := true;
  }

  /** after is before with the job's entry like e, at a position behind its lane, and as old as the
      entry it had. */
  ghost predicate Enqueued(before: Store, after: Store, id: JobId, e: QueueEntry)
    requires id in before.jobs
  {
    && after.jobs == before.jobs && after.queue.Keys == before.queue.Keys + {id}
    && (forall other :: other in before.queue && other != id ==> after.queue[other] == before.queue[other])
    && (after.queue[id].position > RUN_NOW_POSITION <==> OrdinaryNext(before, before.jobs[id].priority))
    && (forall other :: InLane(before, other, before.jobs[id].priority) ==>
          before.queue[other].position < after.queue[id].position)
    && after.queue[id] == e.(
         position := after.queue[id].position,
         enqueuedAt := if id in before.queue then before.queue[id].enqueuedAt else e.enqueuedAt)
  }
}
