/** Snapshot plus replay converges: publishers of internal/job/manager.go write the database,
    then advance the durable cursor (internal/database/execution_repository.go), then publish;
    a client loads GetSyncSnapshot and applies the events after its cursor. */
module StateSync {
  import opened Text
  import opened Jobs
  import opened Events
  import opened JobState

  /** One atomic step of some publisher.  Write and Delete change the database.  Payload changes
      nothing: it is what an event says that carries a payload in place of its job.  Advance(of)
      takes the next sequence number for the event that announces step of. */
  datatype Step = Write(job: JobView) | Delete(job: JobView) | Payload(job: JobView) | Advance(of: nat)

  type Trace = seq<Step>

  predicate Touches(s: Step, id: JobId) { (s.Write? || s.Delete?) && s.job.id == id }

  /** A publisher advances the cursor only after its own write. */
  predicate WriteBeforeAdvance(t: Trace) {
    forall p :: 0 <= p < |t| && t[p].Advance? ==> t[p].of < p && !t[t[p].of].Advance?
  }

  /** The server's job map. */
  function Db(t: Trace): map<JobId, JobView> {
    if t == [] then map[]
    else
      var d := Db(t[..|t| - 1]);
      match t[|t| - 1]
      case Write(j) => d[j.id := j]
      case Delete(j) => d - {j.id}
      case _ => d
  }

  /** The steps announced, in sequence order: sequence s announces step Announced(t)[s - 1]. */
  function Announced(t: Trace): seq<nat> {
    if t == [] then []
    else
      var a := Announced(t[..|t| - 1]);
      if t[|t| - 1].Advance? then a + [t[|t| - 1].of] else a
  }

  function Cursor(t: Trace): nat { |Announced(t)| }

  /** The event with sequence s. */
  function EventAt(t: Trace, s: nat): Event
    requires WriteBeforeAdvance(t) && 1 <= s <= Cursor(t)
  {
    AnnouncedAreSteps(t);
    var step := t[Announced(t)[s - 1]];
    Event(s, if step.Delete? then JobDeleted else if step.Payload? then JobPayload else JobUpdated, step.job)
  }

  lemma {:induction false} AnnouncedAreSteps(t: Trace)
    requires WriteBeforeAdvance(t)
    ensures forall k :: 0 <= k < Cursor(t) ==> Announced(t)[k] < |t| && !t[Announced(t)[k]].Advance?
  {
    if t != [] {
      var init := t[..|t| - 1];
      assert forall p :: 0 <= p < |init| ==> init[p] == t[p];
      AnnouncedAreSteps(init);
    }
  }

  /** A prefix of the trace announces a prefix, all of it about steps inside the prefix. */
  lemma {:induction false} AnnouncedPrefix(t: Trace, n: nat)
    requires WriteBeforeAdvance(t) && n <= |t|
    ensures WriteBeforeAdvance(t[..n])
    ensures Announced(t[..n]) <= Announced(t)
    ensures forall k :: 0 <= k < Cursor(t[..n]) ==> Announced(t)[k] < n
  {
    if n == |t| {
      assert t[..n] == t;
      AnnouncedAreSteps(t);
    } else {
      var init := t[..|t| - 1];
      assert forall p :: 0 <= p < |init| ==> init[p] == t[p];
      AnnouncedPrefix(init, n);
      assert init[..n] == t[..n];
    }
  }

  // ---------- the last word on a job ----------

  ghost predicate LastTouch(t: Trace, id: JobId, w: nat) {
    w < |t| && Touches(t[w], id) && forall p :: w < p < |t| ==> !Touches(t[p], id)
  }

  ghost predicate Untouched(t: Trace, id: JobId) {
    forall p :: 0 <= p < |t| ==> !Touches(t[p], id)
  }

  lemma {:induction false} DbIsLastTouch(t: Trace, id: JobId, w: nat)
    requires LastTouch(t, id, w)
    ensures id in Db(t) <==> t[w].Write?
    ensures id in Db(t) ==> Db(t)[id] == t[w].job
  {
    if w < |t| - 1 {
      assert !Touches(t[|t| - 1], id);
      DbIsLastTouch(t[..|t| - 1], id, w);
    }
  }

  lemma {:induction false} DbWithoutTouch(t: Trace, id: JobId)
    requires Untouched(t, id)
    ensures id !in Db(t)
  {
    if t != [] {
      assert !Touches(t[|t| - 1], id);
      DbWithoutTouch(t[..|t| - 1], id);
    }
  }

  lemma {:induction false} SomeLastTouch(t: Trace, id: JobId) returns (w: nat)
    requires !Untouched(t, id)
    ensures LastTouch(t, id, w)
  {
    w := |t| - 1;
    if !Touches(t[|t| - 1], id) {
      var init := t[..|t| - 1];
      assert !Untouched(init, id) by {
        var p :| 0 <= p < |t| && Touches(t[p], id);
        assert Touches(init[p], id);
      }
      w := SomeLastTouch(init, id);
    }
  }

  /** The client prefers last over job j. */
  predicate Yields(j: JobView, last: Step) {
    last.Write? ==> NewerJob(j, last.job) == last.job
  }

  /** The client keeps the last write when it sees s after it. */
  predicate StrictlyOlder(s: Step, last: Step) {
    && s.Write? && last.Write? && s.job.updatedAt.Some? && last.job.updatedAt.Some?
    && s.job.updatedAt.value < last.job.updatedAt.value
  }

  /** Step w, the last on its job, is announced as sequence a + 1, and whatever is announced on
      the job after that is the same step again or strictly older. */
  ghost predicate AnnouncedLast(t: Trace, id: JobId, w: nat, a: nat)
    requires WriteBeforeAdvance(t)
  {
    AnnouncedAreSteps(t);
    && w < |t|
    && a < Cursor(t) && Announced(t)[a] == w
    && forall b :: a < b < Cursor(t) && Touches(t[Announced(t)[b]], id) ==>
         Announced(t)[b] == w || StrictlyOlder(t[Announced(t)[b]], t[w])
  }

  /** What has to hold of one job: its last step has been announced, no earlier write is newer,
      and late announcements of earlier writes are strictly older. */
  ghost predicate Settled(t: Trace, id: JobId)
    requires WriteBeforeAdvance(t)
  {
    forall w: nat :: LastTouch(t, id, w) ==>
      && (forall p :: 0 <= p < w && Touches(t[p], id) && t[p].Write? ==> Yields(t[p].job, t[w]))
      && exists a: nat :: AnnouncedLast(t, id, w, a)
  }

  ghost predicate AllSettled(t: Trace)
    requires WriteBeforeAdvance(t)
  {
    forall id :: Settled(t, id)
  }

  /** Stamps grow with every write of the job, and a deletion is its last step. */
  ghost predicate StampedInOrder(t: Trace, id: JobId) {
    && (forall p, q :: 0 <= p < q < |t| && Touches(t[p], id) && Touches(t[q], id) && t[q].Write? ==>
          StrictlyOlder(t[p], t[q]))
    && (forall p, q :: 0 <= p < q < |t| && Touches(t[p], id) && Touches(t[q], id) ==> t[p].Write?)
  }

  /** The last step on the job has an event; when it is a deletion, no other event of the job
      comes after that one. */
  ghost predicate LastIsAnnounced(t: Trace, id: JobId)
    requires WriteBeforeAdvance(t)
  {
    AnnouncedAreSteps(t);
    forall w: nat :: LastTouch(t, id, w) ==> exists a: nat :: AnnouncedAt(t, id, w, a)
  }

  ghost predicate AnnouncedAt(t: Trace, id: JobId, w: nat, a: nat)
    requires WriteBeforeAdvance(t)
  {
    AnnouncedAreSteps(t);
    && w < |t| && a < Cursor(t) && Announced(t)[a] == w
    && (t[w].Delete? ==> forall b :: a < b < Cursor(t) && Touches(t[Announced(t)[b]], id) ==> Announced(t)[b] == w)
  }

  /** That discipline is enough: events of one job may be published in any order. */
  lemma OrderedStampsSettle(t: Trace, id: JobId)
    requires WriteBeforeAdvance(t) && StampedInOrder(t, id) && LastIsAnnounced(t, id)
    ensures Settled(t, id)
  {
    AnnouncedAreSteps(t);
    forall w: nat | LastTouch(t, id, w)
      ensures forall p :: 0 <= p < w && Touches(t[p], id) && t[p].Write? ==> Yields(t[p].job, t[w])
      ensures exists a: nat :: AnnouncedLast(t, id, w, a)
    {
      var a: nat :| AnnouncedAt(t, id, w, a);
      forall b | a < b < Cursor(t) && Touches(t[Announced(t)[b]], id)
        ensures Announced(t)[b] == w || StrictlyOlder(t[Announced(t)[b]], t[w])
      {
        assert Announced(t)[b] <= w;
      }
      assert AnnouncedLast(t, id, w, a);
    }
  }

  // ---------- the client, as a map ----------

  /** handleEvent on the jobs. */
  function Handled(m: map<JobId, JobView>, e: Event): map<JobId, JobView> {
    if e.kind == JobDeleted then m - {e.job.id} else Merge(m, e.job)
  }

  /** No listener hears an event that carries a payload. */
  function ApplyEvent(m: map<JobId, JobView>, e: Event): map<JobId, JobView> {
    if e.kind == JobPayload then m else Handled(m, e)
  }

  /** The client's map after the events with sequences lo + 1 .. hi. */
  function Apply(t: Trace, m: map<JobId, JobView>, lo: nat, hi: nat): map<JobId, JobView>
    requires WriteBeforeAdvance(t) && lo <= hi <= Cursor(t)
    decreases hi
  {
    if lo == hi then m else ApplyEvent(Apply(t, m, lo, hi - 1), EventAt(t, hi))
  }

  /** Event s carries its job. */
  predicate Carries(t: Trace, s: nat)
    requires WriteBeforeAdvance(t) && 1 <= s <= Cursor(t)
  {
    EventAt(t, s).kind != JobPayload
  }

  /** No event in lo + 1 .. hi carries a job. */
  ghost predicate Silent(t: Trace, lo: nat, hi: nat)
    requires WriteBeforeAdvance(t) && hi <= Cursor(t)
  {
    forall s :: lo < s <= hi ==> !Carries(t, s)
  }

  /** A client at cursor c has handled every event that carries a job. */
  ghost predicate CaughtUp(t: Trace, c: nat)
    requires WriteBeforeAdvance(t)
  {
    c <= Cursor(t) && Silent(t, c, Cursor(t))
  }

  lemma {:induction false} ApplySilent(t: Trace, m: map<JobId, JobView>, lo: nat, mid: nat, hi: nat)
    requires WriteBeforeAdvance(t) && lo <= mid <= hi <= Cursor(t) && Silent(t, mid, hi)
    ensures Apply(t, m, lo, hi) == Apply(t, m, lo, mid)
    decreases hi
  {
    if mid < hi {
      ApplySilent(t, m, lo, mid, hi - 1);
      assert !Carries(t, hi);
    }
  }

  lemma {:induction false} ApplyJoins(t: Trace, m: map<JobId, JobView>, lo: nat, mid: nat, hi: nat)
    requires WriteBeforeAdvance(t) && lo <= mid <= hi <= Cursor(t)
    ensures Apply(t, Apply(t, m, lo, mid), mid, hi) == Apply(t, m, lo, hi)
    decreases hi
  {
    if mid < hi { ApplyJoins(t, m, lo, mid, hi - 1); }
  }

  /** The client agrees with step w about its job. */
  predicate Agrees(m: map<JobId, JobView>, id: JobId, w: Step) {
    (id in m <==> w.Write?) && (id in m && w.Write? ==> m[id] == w.job)
  }

  predicate Behind(m: map<JobId, JobView>, id: JobId, w: Step) {
    id in m ==> Yields(m[id], w)
  }

  /** From a map that is merely behind, the announcement of the last step brings agreement, and
      nothing after it takes the agreement away. */
  lemma {:induction false} ApplySettles(t: Trace, m: map<JobId, JobView>, lo: nat, hi: nat, id: JobId, w: nat, a: nat)
    requires WriteBeforeAdvance(t) && lo <= hi <= Cursor(t)
    requires LastTouch(t, id, w) && AnnouncedLast(t, id, w, a)
    requires forall p :: 0 <= p < w && Touches(t[p], id) && t[p].Write? ==> Yields(t[p].job, t[w])
    requires if lo > a then Agrees(m, id, t[w]) else Behind(m, id, t[w])
    ensures var r := Apply(t, m, lo, hi); if hi > a then Agrees(r, id, t[w]) else Behind(r, id, t[w])
    decreases hi
  {
    if lo < hi {
      ApplySettles(t, m, lo, hi - 1, id, w, a);
      AnnouncedAreSteps(t);
      var before := Apply(t, m, lo, hi - 1);
      var p := Announced(t)[hi - 1];
      assert EventAt(t, hi).job == t[p].job;
      if Touches(t[p], id) { assert p <= w; }
    }
  }

  lemma {:induction false} ApplyUntouched(t: Trace, m: map<JobId, JobView>, lo: nat, hi: nat, id: JobId)
    requires WriteBeforeAdvance(t) && lo <= hi <= Cursor(t)
    requires Untouched(t, id) && id !in m
    ensures id !in Apply(t, m, lo, hi)
    decreases hi
  {
    if lo < hi {
      ApplyUntouched(t, m, lo, hi - 1, id);
      AnnouncedAreSteps(t);
      assert !Touches(t[Announced(t)[hi - 1]], id);
    }
  }

  /** reconcileJobsFromSnapshot, by id. */
  function ReconcileMap(current: map<JobId, JobView>, snapshot: map<JobId, JobView>): map<JobId, JobView> {
    map id | id in snapshot :: if id in current then NewerJob(current[id], snapshot[id]) else snapshot[id]
  }

  /** Every job the client still holds from before gives way to that job's last write. */
  ghost predicate NothingNewer(t: Trace, current: map<JobId, JobView>) {
    forall id, w: nat :: id in current && LastTouch(t, id, w) ==> Yields(current[id], t[w])
  }

  /** The main result: read the cursor at one moment, the jobs at a later one, load or reconcile,
      and apply the events after the cursor: the client ends with the server's job map. */
  lemma Converges(t: Trace, t1: nat, t2: nat, current: map<JobId, JobView>)
    requires WriteBeforeAdvance(t) && t1 <= t2 <= |t|
    requires AllSettled(t)
    requires NothingNewer(t, current)
    ensures Cursor(t[..t1]) <= Cursor(t)
    ensures Apply(t, ReconcileMap(current, Db(t[..t2])), Cursor(t[..t1]), Cursor(t)) == Db(t)
  {
    AnnouncedPrefix(t, t1);
    var m := ReconcileMap(current, Db(t[..t2]));
    var r := Apply(t, m, Cursor(t[..t1]), Cursor(t));
    forall id
      ensures id in r <==> id in Db(t)
      ensures id in r ==> r[id] == Db(t)[id]
    {
      ConvergesOn(t, t1, t2, current, id);
    }
  }

  lemma ConvergesOn(t: Trace, t1: nat, t2: nat, current: map<JobId, JobView>, id: JobId)
    requires WriteBeforeAdvance(t) && t1 <= t2 <= |t| && Settled(t, id)
    requires NothingNewer(t, current) && Cursor(t[..t1]) <= Cursor(t)
    ensures var r := Apply(t, ReconcileMap(current, Db(t[..t2])), Cursor(t[..t1]), Cursor(t));
            (id in r <==> id in Db(t)) && (id in r ==> r[id] == Db(t)[id])
  {
    var snap := t[..t2];
    var m := ReconcileMap(current, Db(snap));
    if Untouched(t, id) {
      DbWithoutTouch(t, id);
      assert forall p :: 0 <= p < |snap| ==> snap[p] == t[p];
      DbWithoutTouch(snap, id);
      ApplyUntouched(t, m, Cursor(t[..t1]), Cursor(t), id);
    } else {
      var w := SomeLastTouch(t, id);
      DbIsLastTouch(t, id, w);
      var a: nat :| AnnouncedLast(t, id, w, a);
      SnapshotStart(t, t1, t2, current, id, w, a);
      ApplySettles(t, m, Cursor(t[..t1]), Cursor(t), id, w, a);
    }
  }

  /** The reconciled snapshot agrees on jobs whose last step was announced before its cursor and
      is behind on all others. */
  lemma SnapshotStart(t: Trace, t1: nat, t2: nat, current: map<JobId, JobView>, id: JobId, w: nat, a: nat)
    requires WriteBeforeAdvance(t) && t1 <= t2 <= |t| && NothingNewer(t, current)
    requires LastTouch(t, id, w) && AnnouncedLast(t, id, w, a)
    requires forall p :: 0 <= p < w && Touches(t[p], id) && t[p].Write? ==> Yields(t[p].job, t[w])
    ensures var m := ReconcileMap(current, Db(t[..t2]));
            if Cursor(t[..t1]) > a then Agrees(m, id, t[w]) else Behind(m, id, t[w])
  {
    var snap := t[..t2];
    AnnouncedPrefix(t, t1);
    assert forall p :: 0 <= p < |snap| ==> snap[p] == t[p];
    if w < t2 {
      assert LastTouch(snap, id, w);
      DbIsLastTouch(snap, id, w);
    } else if Untouched(snap, id) {
      DbWithoutTouch(snap, id);
    } else {
      var v := SomeLastTouch(snap, id);
      DbIsLastTouch(snap, id, v);
      assert Touches(t[v], id);
    }
  }

  // ---------- exactly when ----------

  /** Event s + 1 is about id. */
  predicate About(t: Trace, s: nat, id: JobId)
    requires WriteBeforeAdvance(t) && s < Cursor(t)
  {
    AnnouncedAreSteps(t);
    Touches(t[Announced(t)[s]], id)
  }

  ghost predicate NoneAbout(t: Trace, lo: nat, hi: nat, id: JobId)
    requires WriteBeforeAdvance(t) && hi <= Cursor(t)
  {
    forall k :: lo <= k < hi ==> !About(t, k, id)
  }

  lemma {:induction false} ApplyUnrelated(t: Trace, m: map<JobId, JobView>, lo: nat, hi: nat, id: JobId)
    requires WriteBeforeAdvance(t) && lo <= hi <= Cursor(t) && NoneAbout(t, lo, hi, id)
    ensures var r := Apply(t, m, lo, hi); (id in r <==> id in m) && (id in m ==> r[id] == m[id])
    decreases hi
  {
    if lo < hi {
      ApplyUnrelated(t, m, lo, hi - 1, id);
      AnnouncedAreSteps(t);
      assert !About(t, hi - 1, id);
    }
  }

  /** Whatever the client started from and whatever was announced before, a job's last event alone
      decides whether the client has the job: a deletion holds exactly as the last event. */
  lemma {:induction false} LastEventDecides(t: Trace, m: map<JobId, JobView>, lo: nat, hi: nat, id: JobId, b: nat)
    requires WriteBeforeAdvance(t) && lo <= b < hi <= Cursor(t)
    requires About(t, b, id) && NoneAbout(t, b + 1, hi, id)
    ensures Announced(t)[b] < |t|
    ensures id in Apply(t, m, lo, hi) <==> t[Announced(t)[b]].Write?
    decreases hi
  {
    AnnouncedAreSteps(t);
    if b < hi - 1 {
      LastEventDecides(t, m, lo, hi - 1, id, b);
      assert !About(t, hi - 1, id);
    }
  }

  lemma {:induction false} LastEventAbout(t: Trace, lo: nat, hi: nat, id: JobId) returns (b: nat)
    requires WriteBeforeAdvance(t) && lo <= hi <= Cursor(t) && !NoneAbout(t, lo, hi, id)
    ensures lo <= b < hi && About(t, b, id) && NoneAbout(t, b + 1, hi, id)
    decreases hi
  {
    if About(t, hi - 1, id) {
      b := hi - 1;
    } else {
      b := LastEventAbout(t, lo, hi - 1, id);
    }
  }

  ghost predicate NoDeletion(t: Trace, id: JobId) {
    forall p :: 0 <= p < |t| && Touches(t[p], id) ==> t[p].Write?
  }

  /** Sequence a + 1 won: whatever came about the job after it is the same step or strictly older. */
  ghost predicate Won(t: Trace, hi: nat, id: JobId, a: nat)
    requires WriteBeforeAdvance(t) && hi <= Cursor(t)
  {
    AnnouncedAreSteps(t);
    && a < hi && About(t, a, id)
    && forall b :: a < b < hi && About(t, b, id) ==>
         Announced(t)[b] == Announced(t)[a] || StrictlyOlder(t[Announced(t)[b]], t[Announced(t)[a]])
  }

  /** What a client that started empty holds was won by some announcement. */
  lemma {:induction false} HeldWasWon(t: Trace, hi: nat, id: JobId) returns (a: nat)
    requires WriteBeforeAdvance(t) && hi <= Cursor(t) && NoDeletion(t, id)
    requires id in Apply(t, map[], 0, hi)
    ensures Won(t, hi, id, a)
    ensures Announced(t)[a] < |t| && t[Announced(t)[a]].Write?
    ensures Apply(t, map[], 0, hi)[id] == t[Announced(t)[a]].job
    decreases hi
  {
    AnnouncedAreSteps(t);
    var before := Apply(t, map[], 0, hi - 1);
    if !About(t, hi - 1, id) {
      a := HeldWasWon(t, hi - 1, id);
    } else if id in before && NewerJob(before[id], t[Announced(t)[hi - 1]].job) != t[Announced(t)[hi - 1]].job {
      a := HeldWasWon(t, hi - 1, id);
    } else {
      a := hi - 1;
    }
  }

  /** Once the client holds something newer than w, no write of the job brings it back to w. */
  lemma {:induction false} StaysNewer(t: Trace, m: map<JobId, JobView>, lo: nat, hi: nat, id: JobId, w: Step)
    requires WriteBeforeAdvance(t) && lo <= hi <= Cursor(t) && NoDeletion(t, id) && w.Write?
    requires forall p :: 0 <= p < |t| && Touches(t[p], id) ==> t[p].job.updatedAt.Some?
    requires id in m && StrictlyOlder(w, Write(m[id]))
    ensures id in Apply(t, m, lo, hi) && StrictlyOlder(w, Write(Apply(t, m, lo, hi)[id]))
    decreases hi
  {
    if lo < hi {
      StaysNewer(t, m, lo, hi - 1, id, w);
      AnnouncedAreSteps(t);
    }
  }

  /** The writes of the job can be told apart and compared, and a deletion is its last step. */
  ghost predicate Tellable(t: Trace, id: JobId) {
    && (forall p, q :: 0 <= p < q < |t| && Touches(t[p], id) && Touches(t[q], id) ==> t[p].Write?)
    && (forall p, q :: 0 <= p < q < |t| && Touches(t[p], id) && Touches(t[q], id) && t[q].Write? ==>
          t[p].job.updatedAt.Some? && t[q].job.updatedAt.Some? && t[p].job != t[q].job)
  }

  ghost predicate NeverWritten(t: Trace, id: JobId) {
    forall p :: 0 <= p < |t| && Touches(t[p], id) ==> t[p].Delete?
  }

  /** A client that reads the cursor at t1 and the jobs at t2 ends with the server's view of id. */
  ghost predicate AgreesFrom(t: Trace, t1: nat, t2: nat, id: JobId)
    requires WriteBeforeAdvance(t) && t1 <= t2 <= |t|
  {
    AnnouncedPrefix(t, t1);
    var r := Apply(t, Db(t[..t2]), Cursor(t[..t1]), Cursor(t));
    (id in r <==> id in Db(t)) && (id in r ==> r[id] == Db(t)[id])
  }

  ghost predicate AlwaysAgrees(t: Trace, id: JobId)
    requires WriteBeforeAdvance(t)
  {
    forall t1, t2 :: 0 <= t1 <= t2 <= |t| ==> AgreesFrom(t, t1, t2, id)
  }

  /** The condition of convergence is the exact one: for any publish order and any stamps, every
      snapshot leads to the server's view of the job if and only if no earlier write is newer than
      the last, the last step is announced, and what is announced of the job later is strictly
      older. */
  lemma ConvergesExactly(t: Trace, id: JobId)
    requires WriteBeforeAdvance(t) && Tellable(t, id)
    ensures AlwaysAgrees(t, id) <==> Settled(t, id) || NeverWritten(t, id)
  {
    if Settled(t, id) {
      forall t1, t2 | 0 <= t1 <= t2 <= |t| ensures AgreesFrom(t, t1, t2, id) {
        AnnouncedPrefix(t, t1);
        assert ReconcileMap(map[], Db(t[..t2])) == Db(t[..t2]);
        ConvergesOn(t, t1, t2, map[], id);
      }
    } else if NeverWritten(t, id) {
      forall t1, t2 | 0 <= t1 <= t2 <= |t| ensures AgreesFrom(t, t1, t2, id) {
        NeverHeld(t, t1, t2, id);
      }
    } else if AlwaysAgrees(t, id) {
      forall w: nat | LastTouch(t, id, w)
        ensures forall p :: 0 <= p < w && Touches(t[p], id) && t[p].Write? ==> Yields(t[p].job, t[w])
        ensures exists a: nat :: AnnouncedLast(t, id, w, a)
      {
        if t[w].Write? { WriteMustSettle(t, id, w); } else { DeletionMustSettle(t, id, w); }
      }
      assert Settled(t, id);
    }
  }

  lemma NeverHeld(t: Trace, t1: nat, t2: nat, id: JobId)
    requires WriteBeforeAdvance(t) && t1 <= t2 <= |t| && NeverWritten(t, id)
    ensures AgreesFrom(t, t1, t2, id)
  {
    AnnouncedPrefix(t, t1);
    NeverInDb(t, id);
    NeverInDb(t[..t2], id);
    var c := Cursor(t[..t1]);
    if NoneAbout(t, c, Cursor(t), id) {
      ApplyUnrelated(t, Db(t[..t2]), c, Cursor(t), id);
    } else {
      var b := LastEventAbout(t, c, Cursor(t), id);
      LastEventDecides(t, Db(t[..t2]), c, Cursor(t), id, b);
    }
  }

  lemma {:induction false} NeverInDb(t: Trace, id: JobId)
    requires NeverWritten(t, id)
    ensures id !in Db(t)
  {
    if t != [] {
      assert forall p :: 0 <= p < |t| - 1 ==> t[..|t| - 1][p] == t[p];
      NeverInDb(t[..|t| - 1], id);
      assert Touches(t[|t| - 1], id) ==> t[|t| - 1].Delete?;
    }
  }

  /** A snapshot taken right after an earlier but newer write never gets over it. */
  lemma NewerWriteDisagrees(t: Trace, id: JobId, w: nat, p: nat)
    requires WriteBeforeAdvance(t) && Tellable(t, id) && LastTouch(t, id, w) && t[w].Write?
    requires p < w && Touches(t[p], id) && t[p].Write? && !Yields(t[p].job, t[w])
    ensures !AgreesFrom(t, p + 1, p + 1, id)
  {
    DbIsLastTouch(t, id, w);
    var snap := t[..p + 1];
    assert LastTouch(snap, id, p);
    DbIsLastTouch(snap, id, p);
    AnnouncedPrefix(t, p + 1);
    StaysNewer(t, Db(snap), Cursor(snap), Cursor(t), id, t[w]);
  }

  lemma WriteMustSettle(t: Trace, id: JobId, w: nat)
    requires WriteBeforeAdvance(t) && Tellable(t, id) && AlwaysAgrees(t, id) && LastTouch(t, id, w) && t[w].Write?
    ensures forall p :: 0 <= p < w && Touches(t[p], id) && t[p].Write? ==> Yields(t[p].job, t[w])
    ensures exists a: nat :: AnnouncedLast(t, id, w, a)
  {
    DbIsLastTouch(t, id, w);
    forall p | 0 <= p < w && Touches(t[p], id) && t[p].Write? ensures Yields(t[p].job, t[w]) {
      if !Yields(t[p].job, t[w]) { NewerWriteDisagrees(t, id, w, p); }
    }
    assert AgreesFrom(t, 0, 0, id);
    assert t[..0] == [];
    AnnouncedAreSteps(t);
    var a := HeldWasWon(t, Cursor(t), id);
    assert Announced(t)[a] == w;
    assert AnnouncedLast(t, id, w, a) by {
      forall b | a < b < Cursor(t) && Touches(t[Announced(t)[b]], id)
        ensures Announced(t)[b] == w || StrictlyOlder(t[Announced(t)[b]], t[w])
      {
        assert About(t, b, id);
      }
    }
  }

  lemma DeletionMustSettle(t: Trace, id: JobId, w: nat)
    requires WriteBeforeAdvance(t) && Tellable(t, id) && AlwaysAgrees(t, id) && LastTouch(t, id, w)
    requires t[w].Delete? && !NeverWritten(t, id)
    ensures exists a: nat :: AnnouncedLast(t, id, w, a)
  {
    DbIsLastTouch(t, id, w);
    var p :| 0 <= p < |t| && Touches(t[p], id) && !t[p].Delete?;
    var snap := t[..p + 1];
    assert LastTouch(snap, id, p);
    DbIsLastTouch(snap, id, p);
    AnnouncedPrefix(t, p + 1);
    assert AgreesFrom(t, p + 1, p + 1, id);
    AbsenceNeedsDeletion(t, Db(snap), Cursor(snap), id, w);
  }

  /** A job the client had and lost was lost to the deletion, announced as the job's last event. */
  lemma AbsenceNeedsDeletion(t: Trace, m: map<JobId, JobView>, c: nat, id: JobId, w: nat)
    requires WriteBeforeAdvance(t) && Tellable(t, id) && LastTouch(t, id, w) && t[w].Delete? && c <= Cursor(t)
    requires id in m && id !in Apply(t, m, c, Cursor(t))
    ensures exists a: nat :: AnnouncedLast(t, id, w, a)
  {
    AnnouncedAreSteps(t);
    if NoneAbout(t, c, Cursor(t), id) {
      ApplyUnrelated(t, m, c, Cursor(t), id);
    } else {
      var b := LastEventAbout(t, c, Cursor(t), id);
      LastEventDecides(t, m, c, Cursor(t), id, b);
      assert Announced(t)[b] == w;
      assert AnnouncedLast(t, id, w, b) by {
        forall k | b < k < Cursor(t) ensures !Touches(t[Announced(t)[k]], id) { assert !About(t, k, id); }
      }
    }
  }

  /** Under the writers' discipline of growing stamps the condition shrinks to: the last step is
      announced, a deletion as the job's last event. */
  lemma OrderedStampsConvergeExactly(t: Trace, id: JobId)
    requires WriteBeforeAdvance(t) && StampedInOrder(t, id)
    ensures AlwaysAgrees(t, id) <==> LastIsAnnounced(t, id) || NeverWritten(t, id)
  {
    assert Tellable(t, id);
    ConvergesExactly(t, id);
    if LastIsAnnounced(t, id) { OrderedStampsSettle(t, id); }
    if Settled(t, id) {
      AnnouncedAreSteps(t);
      forall w: nat | LastTouch(t, id, w) ensures exists a: nat :: AnnouncedAt(t, id, w, a) {
        var a: nat :| AnnouncedLast(t, id, w, a);
        assert AnnouncedAt(t, id, w, a);
      }
    }
  }

  // ---------- resuming anywhere ----------

  /** The announcement of step w is still to come after sequence p. */
  ghost predicate AnnouncedFrom(t: Trace, w: nat, p: nat)
    requires WriteBeforeAdvance(t)
  {
    exists b: nat :: p <= b < Cursor(t) && Announced(t)[b] == w
  }

  /** Of every job the map m has the last word, or that word is still to be announced after p. */
  ghost predicate Covers(t: Trace, m: map<JobId, JobView>, p: nat)
    requires WriteBeforeAdvance(t)
  {
    forall id, w: nat :: LastTouch(t, id, w) ==> Agrees(m, id, t[w]) || AnnouncedFrom(t, w, p)
  }

  ghost predicate OnlyTouched(t: Trace, m: map<JobId, JobView>) {
    forall id :: id in m ==> !Untouched(t, id)
  }

  /** Strictly older events do not bring the client to w. */
  lemma {:induction false} NeverReaches(t: Trace, m: map<JobId, JobView>, lo: nat, hi: nat, id: JobId, w: Step)
    requires WriteBeforeAdvance(t) && lo <= hi <= Cursor(t) && w.Write? && !(id in m && m[id] == w.job)
    requires forall k :: lo <= k < hi && About(t, k, id) ==>
      Announced(t)[k] < |t| && StrictlyOlder(t[Announced(t)[k]], w)
    ensures var r := Apply(t, m, lo, hi); !(id in r && r[id] == w.job)
    decreases hi
  {
    if lo < hi {
      NeverReaches(t, m, lo, hi - 1, id, w);
      AnnouncedAreSteps(t);
      assert About(t, hi - 1, id) ==> StrictlyOlder(t[Announced(t)[hi - 1]], w);
    }
  }

  /** A client that holds m and applies the events after p ends with the server's job map exactly
      when m and those events cover it. */
  lemma ResumesExactly(t: Trace, m: map<JobId, JobView>, p: nat)
    requires WriteBeforeAdvance(t) && p <= Cursor(t) && AllSettled(t) && NothingNewer(t, m) && OnlyTouched(t, m)
    ensures Apply(t, m, p, Cursor(t)) == Db(t) <==> Covers(t, m, p)
  {
    var r := Apply(t, m, p, Cursor(t));
    forall id | Untouched(t, id) ensures id !in r && id !in Db(t) {
      ApplyUntouched(t, m, p, Cursor(t), id);
      DbWithoutTouch(t, id);
    }
    forall id, w: nat | LastTouch(t, id, w)
      ensures Agrees(r, id, t[w]) <==> Agrees(m, id, t[w]) || AnnouncedFrom(t, w, p)
      ensures Agrees(Db(t), id, t[w])
    {
      DbIsLastTouch(t, id, w);
      ResumesExactlyOn(t, m, p, id, w);
    }
    if Covers(t, m, p) {
      forall id ensures id in r <==> id in Db(t) ensures id in r ==> r[id] == Db(t)[id] {
        if !Untouched(t, id) {
          var w := SomeLastTouch(t, id);
          assert Agrees(r, id, t[w]) && Agrees(Db(t), id, t[w]);
        }
      }
    }
  }

  lemma ResumesExactlyOn(t: Trace, m: map<JobId, JobView>, p: nat, id: JobId, w: nat)
    requires WriteBeforeAdvance(t) && p <= Cursor(t) && Settled(t, id) && NothingNewer(t, m) && LastTouch(t, id, w)
    ensures Agrees(Apply(t, m, p, Cursor(t)), id, t[w]) <==> Agrees(m, id, t[w]) || AnnouncedFrom(t, w, p)
  {
    AnnouncedAreSteps(t);
    var a: nat :| AnnouncedLast(t, id, w, a);
    if AnnouncedFrom(t, w, p) {
      var b: nat :| p <= b < Cursor(t) && Announced(t)[b] == w;
      assert a < b ==> AnnouncedLast(t, id, w, b);
      ApplySettles(t, m, p, Cursor(t), id, w, if a < b then b else a);
    } else {
      assert a < p;
      if Agrees(m, id, t[w]) {
        ApplySettles(t, m, p, Cursor(t), id, w, a);
      } else if t[w].Write? {
        NeverReaches(t, m, p, Cursor(t), id, t[w]);
      } else {
        forall k | p <= k < Cursor(t) ensures !About(t, k, id) {}
        ApplyUnrelated(t, m, p, Cursor(t), id);
      }
    }
  }

  lemma ReconciledIsTouched(t: Trace, n: nat, current: map<JobId, JobView>)
    requires n <= |t|
    ensures OnlyTouched(t, ReconcileMap(current, Db(t[..n])))
  {
    forall id | Untouched(t, id) ensures id !in Db(t[..n]) {
      assert forall p :: 0 <= p < n ==> t[..n][p] == t[p];
      DbWithoutTouch(t[..n], id);
    }
  }

  /** What covering means for a listing taken after n steps: of every job it saw the last step, or
      that step is still to be announced, or it is a deletion of a job the listing does not have. */
  lemma ListingCovers(t: Trace, n: nat, p: nat)
    requires WriteBeforeAdvance(t) && n <= |t| && forall id :: Tellable(t, id)
    ensures Covers(t, Db(t[..n]), p) <==> forall id, w: nat :: LastTouch(t, id, w) ==> SeenOrAnnounced(t, n, p, id, w)
  {
    forall id, w: nat | LastTouch(t, id, w)
      ensures Agrees(Db(t[..n]), id, t[w]) <==> w < n || (t[w].Delete? && id !in Db(t[..n]))
    {
      var listing := t[..n];
      assert forall k :: 0 <= k < n ==> listing[k] == t[k];
      if w < n {
        assert LastTouch(listing, id, w);
        DbIsLastTouch(listing, id, w);
      } else if Untouched(listing, id) {
        DbWithoutTouch(listing, id);
      } else {
        var v := SomeLastTouch(listing, id);
        DbIsLastTouch(listing, id, v);
        assert Tellable(t, id) && Touches(t[v], id);
      }
    }
  }

  ghost predicate SeenOrAnnounced(t: Trace, n: nat, p: nat, id: JobId, w: nat)
    requires WriteBeforeAdvance(t) && n <= |t| && w < |t|
  {
    w < n || AnnouncedFrom(t, w, p) || (t[w].Delete? && id !in Db(t[..n]))
  }

  // ---------- the snapshot reader ----------

  datatype Snapshot = Snapshot(cursor: nat, jobs: map<JobId, JobView>)

  /** clock says how far the trace had got at each successive read. */
  ghost predicate Ticking(t: Trace, clock: nat -> nat) {
    forall i, k :: 0 <= i <= k ==> clock(i) <= clock(k) <= |t|
  }

  /** What the trace had come to at read i. */
  function Upto(t: Trace, clock: nat -> nat, i: nat): Trace
    requires Ticking(t, clock)
  {
    assert clock(i) <= clock(i) <= |t|;
    t[..clock(i)]
  }

  /** What attempt k reads: the cursor, then the jobs. */
  function ReadBy(t: Trace, clock: nat -> nat, k: nat): Snapshot
    requires Ticking(t, clock)
  {
    Snapshot(Cursor(Upto(t, clock, 3 * k)), Db(Upto(t, clock, 3 * k + 1)))
  }

  /** The cursor does not move during attempt k. */
  predicate QuietAttempt(t: Trace, clock: nat -> nat, k: nat)
    requires Ticking(t, clock)
  {
    Cursor(Upto(t, clock, 3 * k)) == Cursor(Upto(t, clock, 3 * k + 2))
  }

  /** The attempt that counts: the first quiet one, or else the third. */
  function LastAttempt(t: Trace, clock: nat -> nat): (n: nat)
    requires Ticking(t, clock)
    ensures n < 3
  {
    if QuietAttempt(t, clock, 0) then 0 else if QuietAttempt(t, clock, 1) then 1 else 2
  }

  /** Every attempt before the one that counts saw the cursor move; and unless all three did, the jobs
      were read while the cursor stood at the snapshot's own. */
  lemma SnapshotIsQuietOrThird(t: Trace, clock: nat -> nat)
    requires WriteBeforeAdvance(t) && Ticking(t, clock)
    ensures var n := LastAttempt(t, clock);
            && (forall k: nat :: k < n ==> Cursor(Upto(t, clock, 3 * k)) < Cursor(Upto(t, clock, 3 * k + 2)))
            && (n < 2 || Cursor(Upto(t, clock, 6)) == Cursor(Upto(t, clock, 8)) ==>
                  Cursor(Upto(t, clock, 3 * n + 1)) == ReadBy(t, clock, n).cursor)
            && (exists i: nat :: i <= 6 && ReadBy(t, clock, n).cursor == Cursor(Upto(t, clock, i))
                                   && ReadBy(t, clock, n).jobs == Db(Upto(t, clock, i + 1)))
  {
    var n := LastAttempt(t, clock);
    forall i: nat, k: nat | i <= k ensures Cursor(Upto(t, clock, i)) <= Cursor(Upto(t, clock, k)) {
      assert clock(i) <= clock(k) <= |t|;
      AnnouncedPrefix(t, clock(k));
      AnnouncedPrefix(t[..clock(k)], clock(i));
      assert t[..clock(k)][..clock(i)] == t[..clock(i)];
    }
    assert 3 * n <= 6;
  }

  /** GetSyncSnapshot while publishers run; listed says which listings succeed.  It fails exactly
      when one of the listings it needs does, and otherwise returns what its last attempt read:
      the cursor first, the jobs no earlier. */
  method GetSyncSnapshot(t: Trace, clock: nat -> nat, listed: nat -> bool) returns (snapshot: Option<Snapshot>)
    requires Ticking(t, clock)
    ensures snapshot.Some? <==> forall k: nat :: k <= LastAttempt(t, clock) ==> listed(k)
    ensures snapshot.Some? ==> snapshot.value == ReadBy(t, clock, LastAttempt(t, clock))
  {
    var attempt := 0;
    snapshot := None;
    while attempt < 3
      invariant 0 <= attempt <= 3
      invariant forall k: nat :: k < attempt ==> listed(k) && !QuietAttempt(t, clock, k)
      invariant attempt > 0 ==> snapshot == Some(ReadBy(t, clock, attempt - 1))
    {
      var c1 := Cursor(Upto(t, clock, 3 * attempt));
      if !listed(attempt) { return None; }
      var jobs := Db(Upto(t, clock, 3 * attempt + 1));
      var c2 := Cursor(Upto(t, clock, 3 * attempt + 2));
      snapshot := Some(Snapshot(c1, jobs));
      if c1 == c2 { return; }
      attempt := attempt + 1;
    }
  }

  // ---------- the edges of the condition ----------

  /** Two writes of one job announced in the wrong order: the client ends right exactly when the
      stamps tell them apart. */
  lemma ReorderedPair(older: JobView, newer: JobView)
    requires older.id == newer.id
    ensures var t := [Write(older), Write(newer), Advance(1), Advance(0)];
            WriteBeforeAdvance(t) && Cursor(t) == 2
            && (Apply(t, map[], 0, 2) == Db(t) <==> older == newer || StrictlyOlder(Write(older), Write(newer)))
  {
    var t := [Write(older), Write(newer), Advance(1), Advance(0)];
    FourSteps(t);
    assert Db(t) == map[newer.id := newer];
    assert EventAt(t, 1) == Event(1, JobUpdated, newer) && EventAt(t, 2) == Event(2, JobUpdated, older);
    assert Apply(t, map[], 0, 1) == map[newer.id := newer];
    assert Apply(t, map[], 0, 2) == map[newer.id := NewerJob(newer, older)];
    assert Apply(t, map[], 0, 2)[newer.id] == NewerJob(newer, older);
    assert Db(t)[newer.id] == newer;
  }

  /** An update announced after its job's deletion brings the job back for good. */
  lemma DeletionMustComeLast(job: JobView)
    ensures var t := [Write(job), Delete(job), Advance(1), Advance(0)];
            WriteBeforeAdvance(t) && Cursor(t) == 2 && Db(t) == map[] && Apply(t, map[], 0, 2) == map[job.id := job]
  {
    var t := [Write(job), Delete(job), Advance(1), Advance(0)];
    FourSteps(t);
    assert Db(t[..2]) == map[];
    assert EventAt(t, 1) == Event(1, JobDeleted, job) && EventAt(t, 2) == Event(2, JobUpdated, job);
    assert Apply(t, map[], 0, 1) == map[];
  }

  lemma FourSteps(t: Trace)
    requires |t| == 4 && t[0].Write? && !t[1].Advance? && !t[1].Payload? && t[2] == Advance(1) && t[3] == Advance(0)
    ensures WriteBeforeAdvance(t) && Announced(t) == [1, 0]
    ensures Db(t) == Db(t[..2])
    ensures Db(t[..2]) == if t[1].Write? then Db(t[..1])[t[1].job.id := t[1].job] else Db(t[..1]) - {t[1].job.id}
    ensures Db(t[..1]) == map[t[0].job.id := t[0].job]
  {
    OneMore(t, 0);
    OneMore(t, 1);
    OneMore(t, 2);
    OneMore(t, 3);
    assert t[..4] == t && Db(t[..0]) == map[] && Announced(t[..0]) == [];
  }

  lemma OneMore(t: Trace, n: nat)
    requires n < |t|
    ensures Announced(t[..n + 1]) == if t[n].Advance? then Announced(t[..n]) + [t[n].of] else Announced(t[..n])
    ensures Db(t[..n + 1]) == match t[n]
                              case Write(j) => Db(t[..n])[j.id := j]
                              case Delete(j) => Db(t[..n]) - {j.id}
                              case _ => Db(t[..n])
  {
    assert t[..n + 1][..n] == t[..n];
  }

  /** A write and its announcement. */
  lemma TwoMore(t: Trace, n: nat)
    requires n + 1 < |t| && t[n].Write? && t[n + 1] == Advance(n)
    ensures Announced(t[..n + 2]) == Announced(t[..n]) + [n] && Db(t[..n + 2]) == Db(t[..n])[t[n].job.id := t[n].job]
  {
    OneMore(t, n);
    OneMore(t, n + 1);
  }

  /** The loss at the first load, concretely: event 1 is applied, then a snapshot taken before
      anything happened replaces the jobs, then event 2 is applied. */
  lemma FirstLoadLoses(a: JobView, b: JobView)
    requires a.id != b.id
    ensures var t := [Write(a), Advance(0), Write(b), Advance(2)];
            && WriteBeforeAdvance(t) && AllSettled(t) && Cursor(t) == 2 && Cursor(t[..0]) == 0
            && EventAt(t, 1) == Event(1, JobUpdated, a) && EventAt(t, 2) == Event(2, JobUpdated, b)
            && Apply(t, Db(t[..0]), 1, 2) == map[b.id := b] && Db(t) == map[a.id := a, b.id := b]
            && Apply(t, Db(t[..0]), 1, 2) != Db(t) && !Covers(t, Db(t[..0]), 1)
  {
    var t := [Write(a), Advance(0), Write(b), Advance(2)];
    TwoMore(t, 0);
    TwoMore(t, 2);
    assert t[..4] == t && Db(t[..0]) == map[] && Announced(t[..0]) == [];
    assert Announced(t) == [0, 2];
    TwoWritesSettle(t);
    assert Apply(t, map[], 1, 1) == map[];
    assert a.id in Db(t);
    assert LastTouch(t, a.id, 0) && !Agrees(map[], a.id, t[0]) && !AnnouncedFrom(t, 0, 1);
  }

  /** A job a, changed to later by a publisher whose event carries a payload, and a job b. */
  function PayloadTrace(a: JobView, later: JobView, b: JobView): Trace {
    [Write(a), Advance(0), Write(later), Payload(later), Advance(3), Write(b), Advance(5)]
  }

  lemma PayloadTraceSteps(a: JobView, later: JobView, b: JobView)
    requires a.id == later.id != b.id
    ensures var t := PayloadTrace(a, later, b);
            && WriteBeforeAdvance(t) && Announced(t) == [0, 3, 5] && Announced(t[..2]) == [0]
            && Db(t) == map[a.id := later, b.id := b] && Db(t[..2]) == map[a.id := a]
  {
    var t := PayloadTrace(a, later, b);
    TwoMore(t, 0);
    OneMore(t, 2);
    OneMore(t, 3);
    OneMore(t, 4);
    TwoMore(t, 5);
    assert t[..7] == t && Db(t[..0]) == map[] && Announced(t[..0]) == [];
  }

  /** Its stamps grow, but the last word on a has no event that carries it. */
  lemma PayloadLeavesUnannounced(a: JobView, later: JobView, b: JobView)
    requires a.id == later.id != b.id && StrictlyOlder(Write(a), Write(later))
    ensures var t := PayloadTrace(a, later, b);
            WriteBeforeAdvance(t) && (forall id :: StampedInOrder(t, id)) && !LastIsAnnounced(t, a.id)
  {
    var t := PayloadTrace(a, later, b);
    PayloadTraceSteps(a, later, b);
    assert LastTouch(t, a.id, 2);
    forall k: nat ensures !AnnouncedAt(t, a.id, 2, k) {}
  }

  lemma TwoWritesSettle(t: Trace)
    requires |t| == 4 && t[0].Write? && t[2].Write? && t[1] == Advance(0) && t[3] == Advance(2)
    requires t[0].job.id != t[2].job.id && WriteBeforeAdvance(t) && Announced(t) == [0, 2]
    ensures AllSettled(t)
  {
    forall id, w: nat | LastTouch(t, id, w) ensures exists k: nat :: AnnouncedLast(t, id, w, k) {
      assert AnnouncedLast(t, id, w, if w == 0 then 0 else 1);
    }
  }
}
