/** The client's event handling and rehydration in web/src/App.tsx, the listeners of
    web/src/transport/http.ts, and the whole loop: snapshot, stream, resync. */
module Client {
  import opened Text
  import opened Jobs
  import opened Events
  import opened Stream
  import opened JobState
  import opened StateSync

  /** What the client shows, by id, its cursor, and the last event id its open stream has carried,
      0 if none. */
  datatype View = View(jobs: map<JobId, JobView>, cursor: nat, id: nat)

  /** A listener is registered for the types that carry a job, and for no other. */
  predicate Heard(f: Frame) { f.Sent? && f.event.kind != JobPayload }

  /** One frame.  A tick has no id of its own and arrives under the last one; whatever arrives at or
      below the cursor counts as applied before. */
  function Hear(v: View, f: Frame): View {
    var id := if f.Sent? && f.event.sequence > 0 then f.event.sequence else v.id;
    if !Heard(f) || 0 < id <= v.cursor then v.(id := id)
    else View(Handled(v.jobs, f.event), if id > 0 then id else v.cursor, id)
  }

  /** A tick before any id is applied; after one it is applied exactly if that id is above the cursor,
      which then moves to it. */
  lemma HearsTickUnderLastId(v: View, e: Event)
    requires e.sequence <= 0 && e.kind != JobPayload
    ensures v.id == 0 ==> Hear(v, Sent(e)) == View(Handled(v.jobs, e), v.cursor, 0)
    ensures 0 < v.id <= v.cursor ==> Hear(v, Sent(e)) == v
    ensures v.id > v.cursor ==> Hear(v, Sent(e)) == View(Handled(v.jobs, e), v.id, v.id)
  {}

  function HearAll(v: View, out: seq<Frame>): View {
    if out == [] then v else Hear(HearAll(v, out[..|out| - 1]), out[|out| - 1])
  }

  /** Frame k moves the client's cursor above c. */
  predicate Moves(v: View, out: seq<Frame>, k: nat, c: nat) {
    k < |out| && Heard(out[k]) && HearAll(v, out[..k + 1]).id > c
  }

  /** The cursor never goes back, and moves exactly with a frame that is heard under an id above
      it. */
  lemma {:induction false} CursorMoves(v: View, out: seq<Frame>)
    ensures HearAll(v, out).cursor >= v.cursor
    ensures HearAll(v, out).cursor > v.cursor <==> exists k: nat :: Moves(v, out, k, v.cursor)
    decreases |out|
  {
    if out != [] {
      var n := |out| - 1;
      var init := out[..n];
      CursorMoves(v, init);
      forall k: nat | k < n ensures Moves(v, out, k, v.cursor) <==> Moves(v, init, k, v.cursor) {
        assert init[..k + 1] == out[..k + 1];
      }
      assert out[..n + 1] == out;
      if HearAll(v, init).cursor > v.cursor {
        var k: nat :| Moves(v, init, k, v.cursor);
        assert Moves(v, out, k, v.cursor);
      } else if Heard(out[n]) && HearAll(v, out).id > v.cursor {
        assert Moves(v, out, n, v.cursor);
      }
    }
  }

  class App {
    var jobs: seq<JobView>
    var lastAppliedCursor: nat
    var rehydrationGen: nat
    /** Of the open EventSource. */
    var lastEventId: nat

    ghost function Shown(): View reads this { View(ById(jobs), lastAppliedCursor, lastEventId) }

    constructor ()
      ensures jobs == [] && lastAppliedCursor == 0 && rehydrationGen == 0 && lastEventId == 0
    {
      jobs, lastAppliedCursor, rehydrationGen, lastEventId := [], 0, 0, 0;
    }

    /** The answer to the snapshot request made at mount: it replaces jobs and cursor, whatever
        the stream opened at mount has delivered since, and only a positive cursor asks for a new
        stream. */
    method Load(cursor: nat, snapshot: seq<JobView>) returns (reopen: bool)
      modifies this`jobs, this`lastAppliedCursor
      ensures jobs == snapshot && lastAppliedCursor == cursor && rehydrationGen == old(rehydrationGen)
      ensures reopen <==> cursor > 0
    {
      lastAppliedCursor := cursor;
      jobs := snapshot;
      reopen := cursor > 0;
    }

    /** handleEvent: an event at or below the cursor was applied before. */
    method HandleEvent(e: Event)
      requires UniqueIds(jobs)
      modifies this`jobs, this`lastAppliedCursor
      ensures UniqueIds(jobs)
      ensures old(Stale(e)) ==> jobs == old(jobs) && lastAppliedCursor == old(lastAppliedCursor)
      ensures !old(Stale(e)) ==> ById(jobs) == Handled(old(ById(jobs)), e)
      ensures !old(Stale(e)) ==> lastAppliedCursor == if e.sequence > 0 then e.sequence else old(lastAppliedCursor)
    {
      if e.sequence > 0 {
        if e.sequence <= lastAppliedCursor { return; }
        lastAppliedCursor := e.sequence;
      }
      if e.kind == JobDeleted {
        RemoveDropsExactly(jobs, e.job.id);
        RemoveKeepsUnique(jobs, e.job.id);
        jobs := RemoveJob(jobs, e.job.id);
      } else {
        DedupOfUnique(jobs);
        jobs := UpsertJob(jobs, e.job);
      }
    }

    predicate Stale(e: Event) reads this {
      0 < e.sequence <= lastAppliedCursor
    }

    /** The listeners of connectSSE. */
    method OnFrame(f: Frame)
      requires UniqueIds(jobs)
      modifies this
      ensures UniqueIds(jobs) && rehydrationGen == old(rehydrationGen)
      ensures Shown() == Hear(old(Shown()), f)
    {
      if f.Sent? && f.event.sequence > 0 { lastEventId := f.event.sequence; }
      if Heard(f) { HandleEvent(f.event.(sequence := lastEventId)); }
    }

    /** handleSyncRequired, before the snapshot request. */
    method BeginRehydration() returns (gen: nat)
      modifies this`rehydrationGen
      ensures gen == rehydrationGen == old(rehydrationGen) + 1
    {
      rehydrationGen := rehydrationGen + 1;
      gen := rehydrationGen;
    }

    /** handleSyncRequired, when the answer to request gen arrives: a superseded one is dropped. */
    method FinishRehydration(gen: nat, cursor: nat, snapshot: seq<JobView>)
      requires UniqueIds(snapshot)
      modifies this`jobs, this`lastAppliedCursor
      ensures gen != rehydrationGen ==> jobs == old(jobs) && lastAppliedCursor == old(lastAppliedCursor)
      ensures gen == rehydrationGen ==> lastAppliedCursor == cursor
      ensures gen == rehydrationGen ==> UniqueIds(jobs) && ById(jobs) == ReconcileMap(old(ById(jobs)), ById(snapshot))
    {
      if gen != rehydrationGen { return; }
      DedupOfUnique(snapshot);
      forall id
        ensures id in ById(ReconcileJobs(jobs, snapshot)) <==> id in ById(snapshot)
        ensures id in ById(snapshot) ==>
          ById(ReconcileJobs(jobs, snapshot))[id] == ReconcileMap(ById(jobs), ById(snapshot))[id]
      {
        ReconcileKeepsNewer(jobs, snapshot, id);
      }
      ReconcileKeepsNewer(jobs, snapshot, "");
      jobs := ReconcileJobs(jobs, snapshot);
      lastAppliedCursor := cursor;
    }
  }

  /** The client handles the frames a stream has delivered. */
  method Follow(app: App, out: seq<Frame>)
    requires UniqueIds(app.jobs)
    modifies app
    ensures UniqueIds(app.jobs) && app.Shown() == HearAll(old(app.Shown()), out)
  {
    var n := 0;
    while n < |out|
      invariant 0 <= n <= |out| && UniqueIds(app.jobs)
      invariant app.Shown() == HearAll(old(app.Shown()), out[..n])
    {
      assert out[..n + 1][..n] == out[..n];
      app.OnFrame(out[n]);
      n := n + 1;
    }
    assert out[..n] == out;
  }

  // ---------- following a stream of the server's events ----------

  /** e is the server's event with that sequence. */
  predicate FromServer(t: Trace, e: Event)
    requires WriteBeforeAdvance(t)
  {
    1 <= e.sequence <= Cursor(t) && e == EventAt(t, e.sequence)
  }

  predicate AllFromServer(t: Trace, es: seq<Event>)
    requires WriteBeforeAdvance(t)
  {
    forall e :: e in es && e.sequence > 0 ==> FromServer(t, e)
  }

  predicate SentFromServer(t: Trace, out: seq<Frame>)
    requires WriteBeforeAdvance(t)
  {
    forall f :: f in out && f.Sent? && f.event.sequence > 0 ==> FromServer(t, f.event)
  }

  /** out is a stream of the server's events after sequence at. */
  predicate OpenAt(t: Trace, out: seq<Frame>, at: nat)
    requires WriteBeforeAdvance(t)
  {
    SentFromServer(t, out) && Consecutive(Sequences(out), at + 1) && at <= Cursor(t)
  }

  function Least(a: nat, b: nat): nat { if a < b then a else b }

  function Greatest(a: nat, b: nat): nat { if a < b then b else a }

  /** A client at cursor c has come to cursor r through the events start + 1 .. end: nothing after r
      carries a job, nor anything at all if the cursor has not moved. */
  ghost predicate CursorReached(t: Trace, c: nat, start: nat, end: nat, r: nat)
    requires WriteBeforeAdvance(t) && end <= Cursor(t)
  {
    if r == c then Silent(t, start, end) else start <= r <= end && Silent(t, r, end)
  }

  /** What the events lo + 1 .. hi make of a view: those above its cursor are applied. */
  ghost predicate MovedTo(t: Trace, v: View, lo: nat, hi: nat, r: View)
    requires WriteBeforeAdvance(t) && v.cursor <= Cursor(t) && lo <= hi <= Cursor(t)
  {
    var start := Greatest(lo, v.cursor);
    var end := Greatest(start, hi);
    && r.jobs == Apply(t, v.jobs, start, end)
    && CursorReached(t, v.cursor, start, end, r.cursor)
    && r.id == if hi > lo then hi else v.id
  }

  /** No tick in out tells the client anything but progress, which is not part of a view. */
  predicate Echoes(v: View, out: seq<Frame>) {
    out != [] ==>
      var init, f := out[..|out| - 1], out[|out| - 1];
      Echoes(v, init)
      && (f.Sent? && f.event.sequence <= 0 ==> Hear(HearAll(v, init), f).jobs == HearAll(v, init).jobs)
  }

  lemma ConsecutiveSplit(s: seq<int>, first: int, n: nat)
    requires Consecutive(s, first) && n <= |s|
    ensures Consecutive(s[..n], first) && Consecutive(s[n..], first + n)
  {}

  /** A stream of the server's events ends at the server's cursor at the latest. */
  lemma ReachesAtMost(t: Trace, out: seq<Frame>, at: nat)
    requires WriteBeforeAdvance(t) && OpenAt(t, out, at)
    ensures at + |Sequences(out)| <= Cursor(t)
  {
    if Sequences(out) != [] {
      var s := Sequences(out)[|Sequences(out)| - 1];
      var f := SentAs(out, s);
      assert FromServer(t, f.event);
    }
  }

  lemma {:induction false} SentAs(out: seq<Frame>, s: int) returns (f: Frame)
    requires s in Sequences(out)
    ensures f in out && f.Sent? && f.event.sequence == s
  {
    if out[0].Sent? && out[0].event.sequence > 0 && out[0].event.sequence == s {
      f := out[0];
    } else {
      f := SentAs(out[1..], s);
    }
  }

  /** Frames split as their sequence numbers do. */
  lemma FramesSplit(t: Trace, out: seq<Frame>, k: nat, at: nat)
    requires WriteBeforeAdvance(t) && k <= |out| && OpenAt(t, out, at)
    ensures |Sequences(out)| == |Sequences(out[..k])| + |Sequences(out[k..])|
    ensures OpenAt(t, out[..k], at) && at + |Sequences(out[..k])| <= Cursor(t)
    ensures OpenAt(t, out[k..], at + |Sequences(out[..k])|)
  {
    assert out[..k] + out[k..] == out;
    SequencesAppend(out[..k], out[k..]);
    ConsecutiveSplit(Sequences(out), at + 1, |Sequences(out[..k])|);
    assert Sequences(out)[..|Sequences(out[..k])|] == Sequences(out[..k]);
    assert Sequences(out)[|Sequences(out[..k])|..] == Sequences(out[k..]);
    ReachesAtMost(t, out[..k], at);
  }

  lemma HearsEvent(t: Trace, v: View, lo: nat, hi: nat, r: View, e: Event)
    requires WriteBeforeAdvance(t) && v.cursor <= Cursor(t) && lo <= hi < Cursor(t)
    requires MovedTo(t, v, lo, hi, r) && e == EventAt(t, hi + 1)
    ensures MovedTo(t, v, lo, hi + 1, Hear(r, Sent(e)))
  {
    var start := Greatest(lo, v.cursor);
    if hi >= start {
      assert Apply(t, v.jobs, start, hi + 1) == ApplyEvent(Apply(t, v.jobs, start, hi), e);
    }
  }

  lemma HearsTick(t: Trace, v: View, lo: nat, hi: nat, r: View, f: Frame)
    requires WriteBeforeAdvance(t) && v.cursor <= Cursor(t) && lo <= hi <= Cursor(t) && v.id in {0, lo}
    requires MovedTo(t, v, lo, hi, r) && (f.Sent? ==> f.event.sequence <= 0 && Hear(r, f).jobs == r.jobs)
    ensures MovedTo(t, v, lo, hi, Hear(r, f))
  {}

  /** The last frame is the next sequenced event, or has no number. */
  lemma LastFrame(t: Trace, out: seq<Frame>, at: nat)
    requires WriteBeforeAdvance(t) && OpenAt(t, out, at) && out != []
    ensures var init, f := out[..|out| - 1], out[|out| - 1];
            var hi := at + |Sequences(init)|;
            && OpenAt(t, init, at) && hi <= at + |Sequences(out)| <= Cursor(t)
            && (if f.Sent? && f.event.sequence > 0
                then at + |Sequences(out)| == hi + 1 && f.event == EventAt(t, hi + 1)
                else at + |Sequences(out)| == hi)
  {
    ReachesAtMost(t, out, at);
    var init, f := out[..|out| - 1], out[|out| - 1];
    FramesSplit(t, out, |init|, at);
    assert out[|init|..] == [f];
    if f.Sent? && f.event.sequence > 0 {
      assert f in out && FromServer(t, f.event);
      assert Sequences([f])[0] == f.event.sequence;
    } else {
      assert Sequences([f]) == [];
    }
  }

  /** Following a stream moves the client along the server's events. */
  lemma {:induction false} Hearing(t: Trace, v: View, out: seq<Frame>, at: nat)
    requires WriteBeforeAdvance(t) && v.cursor <= Cursor(t) && OpenAt(t, out, at)
    requires v.id in {0, at} && Echoes(v, out)
    ensures at + |Sequences(out)| <= Cursor(t)
    ensures MovedTo(t, v, at, at + |Sequences(out)|, HearAll(v, out))
    decreases |out|
  {
    ReachesAtMost(t, out, at);
    if out != [] {
      var init, f := out[..|out| - 1], out[|out| - 1];
      LastFrame(t, out, at);
      Hearing(t, v, init, at);
      if f.Sent? && f.event.sequence > 0 {
        HearsEvent(t, v, at, at + |Sequences(init)|, HearAll(v, init), f.event);
      } else {
        HearsTick(t, v, at, at + |Sequences(init)|, HearAll(v, init), f);
      }
    }
  }

  /** From base, the events start + 1 .. end bring the client, once nothing after them carries a job,
      to the server's jobs exactly when base and the events after start cover those. */
  lemma MovedExactly(t: Trace, base: map<JobId, JobView>, start: nat, end: nat)
    requires WriteBeforeAdvance(t) && AllSettled(t) && NothingNewer(t, base) && OnlyTouched(t, base)
    requires start <= end <= Cursor(t) && Silent(t, end, Cursor(t))
    ensures Apply(t, base, start, end) == Db(t) <==> Covers(t, base, start)
  {
    ApplySilent(t, base, start, end, Cursor(t));
    ResumesExactly(t, base, start);
  }

  // ---------- connections ----------

  /** What a stream has to offer: the server's cursor when it is opened, the answers of the replay
      buffer, and what the subscription delivers. */
  datatype Channel = Channel(serverCursor: nat, replay: nat -> Option<seq<Event>>, live: seq<Event>)

  /** The answer to a snapshot request, the one made at mount or a resync's: when it was read, after
      how many frames of the stream then open it arrives, how many more frames that stream delivers
      before a later effect closes it, and the stream opened then. */
  datatype Answer = Answer(first: bool, clock: nat -> nat, frames: nat, window: nat, channel: Channel)

  /** The replay buffer answers with the server's events, as GetEventsAfter promises; the
      subscription delivers server events, in any order, with any number of them dropped, and any
      ticks. */
  ghost predicate Plausible(t: Trace, ch: Channel)
    requires WriteBeforeAdvance(t)
  {
    && (forall c: nat :: ch.replay(c).Some? ==>
          RunOf(ch.replay(c).value, c + 1) && AllFromServer(t, ch.replay(c).value))
    && AllFromServer(t, ch.live)
  }

  /** The buffer still reaches back to the client's cursor c, and the subscription drops nothing up
      to the newest event. */
  ghost predicate InOrder(t: Trace, c: nat, ch: Channel)
    requires WriteBeforeAdvance(t) && Plausible(t, ch)
  {
    && c <= ch.serverCursor <= Cursor(t)
    && (c < ch.serverCursor ==> ReachesBack(ch, c))
    && exists first: nat :: DeliversFrom(t, ch, first)
  }

  predicate ReachesBack(ch: Channel, c: nat) {
    ch.replay(c).Some? && c + |ch.replay(c).value| >= ch.serverCursor
  }

  predicate DeliversFrom(t: Trace, ch: Channel, first: nat) {
    && 1 <= first <= ch.serverCursor + 1 && RunOf(Sequenced(ch.live), first)
    && first + |Sequenced(ch.live)| - 1 == Cursor(t)
  }

  function Output(c: nat, ch: Channel): seq<Frame> {
    Serve(c, ch.serverCursor, ch.replay(c), ch.live)
  }

  lemma InOrderCatchesUp(t: Trace, c: nat, ch: Channel)
    requires WriteBeforeAdvance(t) && Plausible(t, ch) && InOrder(t, c, ch)
    ensures c + |Sequences(Output(c, ch))| == Cursor(t) && Pinned(c, ch.serverCursor, ch.live)
  {
    var first: nat :| DeliversFrom(t, ch, first);
    if c < ch.serverCursor {
      assert ReachesBack(ch, c);
      var replay := ch.replay(c).value;
      assert replay[|replay| - 1] in replay;
    }
    ServeDeliversAll(c, ch.serverCursor, ch.replay(c), ch.live, first);
  }

  /** A stream opened at the client's cursor runs through the server's events from its start on. */
  lemma StreamOpens(t: Trace, c: nat, ch: Channel)
    requires WriteBeforeAdvance(t) && Plausible(t, ch) && c <= Cursor(t)
    ensures OpenAt(t, Output(c, ch), StreamStart(c, ch.serverCursor, ch.live))
    ensures c <= StreamStart(c, ch.serverCursor, ch.live)
    ensures c == StreamStart(c, ch.serverCursor, ch.live) <==> Pinned(c, ch.serverCursor, ch.live)
  {
    ServeRunsFromStart(c, ch.serverCursor, ch.replay(c), ch.live);
    SentIsFromServer(t, c, ch);
    if !Pinned(c, ch.serverCursor, ch.live) { assert FromServer(t, Sequenced(ch.live)[0]); }
  }

  /** Whatever order the database lists them in. */
  method ListJobs(m: map<JobId, JobView>) returns (jobs: seq<JobView>)
    requires forall id :: id in m ==> m[id].id == id
    ensures UniqueIds(jobs) && ById(jobs) == m
  {
    jobs := [];
    var rest := m.Keys;
    while rest != {}
      invariant rest <= m.Keys
      invariant UniqueIds(jobs) && ById(jobs) == m - rest
      decreases rest
    {
      var id :| id in rest;
      ByIdAppend(jobs, m[id]);
      forall i | 0 <= i < |jobs| ensures jobs[i].id != id { ByIdAt(jobs, i); }
      jobs := jobs + [m[id]];
      rest := rest - {id};
    }
    assert m - {} == m;
  }

  lemma {:induction false} DbKeys(t: Trace, id: JobId)
    requires id in Db(t)
    ensures Db(t)[id].id == id
  {
    if t != [] && (!t[|t| - 1].Write? || t[|t| - 1].job.id != id) { DbKeys(t[..|t| - 1], id); }
  }

  lemma SentIsFromServer(t: Trace, c: nat, ch: Channel)
    requires WriteBeforeAdvance(t) && Plausible(t, ch)
    ensures SentFromServer(t, Output(c, ch))
  {
    var out := Output(c, ch);
    var (head, last) := Replayed(c, ch.serverCursor, ch.replay(c));
    forall f | f in out && f.Sent? && f.event.sequence > 0 ensures FromServer(t, f.event) {
      if f in head {
        assert f.event in ch.replay(c).value;
      } else {
        SentWasDelivered(last.value, ch.live, f);
      }
    }
  }

  /** Values the client holds never get ahead of the server's last word. */
  lemma {:induction false} ApplyStaysBehind(t: Trace, m: map<JobId, JobView>, lo: nat, hi: nat)
    requires WriteBeforeAdvance(t) && lo <= hi <= Cursor(t) && AllSettled(t) && NothingNewer(t, m)
    ensures NothingNewer(t, Apply(t, m, lo, hi))
    decreases hi
  {
    if lo < hi {
      ApplyStaysBehind(t, m, lo, hi - 1);
      AnnouncedAreSteps(t);
      var p := Announced(t)[hi - 1];
      var r := Apply(t, m, lo, hi);
      forall id, w: nat | id in r && LastTouch(t, id, w) ensures Yields(r[id], t[w]) {
        assert Settled(t, id);
        if Touches(t[p], id) { assert p <= w; }
      }
    }
  }

  lemma SnapshotStaysBehind(t: Trace, n: nat, current: map<JobId, JobView>)
    requires WriteBeforeAdvance(t) && n <= |t| && AllSettled(t) && NothingNewer(t, current)
    ensures NothingNewer(t, ReconcileMap(current, Db(t[..n])))
  {
    var m := ReconcileMap(current, Db(t[..n]));
    forall id, w: nat | id in m && LastTouch(t, id, w) ensures Yields(m[id], t[w]) {
      assert Settled(t, id);
      if Untouched(t[..n], id) { DbWithoutTouch(t[..n], id); }
      var v := SomeLastTouch(t[..n], id);
      DbIsLastTouch(t[..n], id, v);
      assert Touches(t[v], id);
    }
  }

  lemma MovedStaysTouched(t: Trace, m: map<JobId, JobView>, lo: nat, hi: nat)
    requires WriteBeforeAdvance(t) && lo <= hi <= Cursor(t) && OnlyTouched(t, m)
    ensures OnlyTouched(t, Apply(t, m, lo, hi))
  {
    forall id | Untouched(t, id) ensures id !in Apply(t, m, lo, hi) { ApplyUntouched(t, m, lo, hi, id); }
  }

  /** A snapshot and the events from its own cursor on always cover the server's jobs. */
  lemma SnapshotCovers(t: Trace, t1: nat, t2: nat, held: map<JobId, JobView>)
    requires WriteBeforeAdvance(t) && t1 <= t2 <= |t| && AllSettled(t) && NothingNewer(t, held)
    ensures NothingNewer(t, ReconcileMap(held, Db(t[..t2]))) && OnlyTouched(t, ReconcileMap(held, Db(t[..t2])))
    ensures Cursor(t[..t1]) <= Cursor(t) && Covers(t, ReconcileMap(held, Db(t[..t2])), Cursor(t[..t1]))
  {
    SnapshotStaysBehind(t, t2, held);
    ReconciledIsTouched(t, t2, held);
    Converges(t, t1, t2, held);
    ResumesExactly(t, ReconcileMap(held, Db(t[..t2])), Cursor(t[..t1]));
  }

  // ---------- a client's life ----------

  /** A client between two answers: what it shows, what its open stream has still to deliver, and
      the sequence that stream has reached. */
  datatype State = State(view: View, open: seq<Frame>, at: nat)

  /** The sequence the open stream ends at, and what the client shows then. */
  function End(s: State): nat { s.at + |Sequences(s.open)| }

  function Shows(s: State): View { HearAll(s.view, s.open) }

  /** What the answer says. */
  function Listing(t: Trace, a: Answer): Snapshot
    requires Ticking(t, a.clock)
  {
    ReadBy(t, a.clock, LastAttempt(t, a.clock))
  }

  /** The frames of the open stream that come before the answer, and those that come after it. */
  function Before(open: seq<Frame>, a: Answer): seq<Frame> { open[..Least(a.frames, |open|)] }

  function After(open: seq<Frame>, a: Answer): seq<Frame> { open[Least(a.frames, |open|)..] }

  /** The sequence the open stream has reached when the answer arrives. */
  function Position(s: State, a: Answer): nat { s.at + |Sequences(Before(s.open, a))| }

  /** The view right after the answer: the first one replaces the jobs, a resync's is reconciled
      with them. */
  function Taken(t: Trace, s: State, a: Answer): View
    requires Ticking(t, a.clock)
  {
    var snapshot := Listing(t, a);
    var seen := HearAll(s.view, Before(s.open, a));
    View(if a.first then snapshot.jobs else ReconcileMap(seen.jobs, snapshot.jobs), snapshot.cursor, seen.id)
  }

  /** Only a first answer at cursor zero leaves the open stream alone. */
  predicate Reopens(t: Trace, a: Answer)
    requires Ticking(t, a.clock)
  {
    !a.first || Listing(t, a).cursor > 0
  }

  /** What the open stream still delivers before it is closed. */
  function Window(open: seq<Frame>, a: Answer): seq<Frame> { After(open, a)[..Least(a.window, |After(open, a)|)] }

  /** The view when the new stream is opened. */
  function Reopening(t: Trace, s: State, a: Answer): View
    requires Ticking(t, a.clock)
  {
    HearAll(Taken(t, s, a), Window(s.open, a))
  }

  /** The old stream moves the client in the window. */
  predicate Overtaken(t: Trace, s: State, a: Answer)
    requires Ticking(t, a.clock)
  {
    exists k: nat ::
      k < |Window(s.open, a)| && Moves(Taken(t, s, a), Window(s.open, a), k, Taken(t, s, a).cursor)
  }

  /** The ticks heard around an answer tell only progress. */
  predicate Quiet(t: Trace, s: State, a: Answer)
    requires Ticking(t, a.clock)
  {
    Echoes(s.view, Before(s.open, a)) && (Reopens(t, a) ==> Echoes(Taken(t, s, a), Window(s.open, a)))
  }

  /** The client after an answer, and after the stream it may open has been opened. */
  function Arrive(t: Trace, s: State, a: Answer): State
    requires Ticking(t, a.clock)
  {
    if Reopens(t, a) then Opened(Reopening(t, s, a), a.channel)
    else State(Taken(t, s, a), After(s.open, a), Position(s, a))
  }

  function Opened(v: View, ch: Channel): State {
    State(v.(id := 0), Output(v.cursor, ch), StreamStart(v.cursor, ch.serverCursor, ch.live))
  }

  /** A first answer leaves exactly the listing, a resync the newer version of each job it lists; and
      only a first answer at cursor zero leaves the old stream open. */
  lemma AnswerKinds(t: Trace, s: State, a: Answer)
    requires Ticking(t, a.clock)
    ensures a.first ==> Taken(t, s, a).jobs == Listing(t, a).jobs
    ensures !a.first ==> Taken(t, s, a).jobs.Keys == Listing(t, a).jobs.Keys
    ensures !a.first ==> forall id :: id in Listing(t, a).jobs ==>
      var held, listed := HearAll(s.view, Before(s.open, a)).jobs, Listing(t, a).jobs[id];
      Taken(t, s, a).jobs[id]
        == if id in held && StrictlyOlder(Write(listed), Write(held[id])) then held[id] else listed
    ensures a.first && Listing(t, a).cursor == 0 ==> Arrive(t, s, a).open == After(s.open, a)
    ensures !a.first || Listing(t, a).cursor > 0 ==>
      Arrive(t, s, a).open == Output(Arrive(t, s, a).view.cursor, a.channel)
  {}

  /** The client after a stream opened at mount and a number of answers. */
  function Run(t: Trace, mount: Channel, answers: seq<Answer>): State
    requires forall a :: a in answers ==> Ticking(t, a.clock)
  {
    if answers == [] then Opened(View(map[], 0, 0), mount)
    else Arrive(t, Run(t, mount, answers[..|answers| - 1]), answers[|answers| - 1])
  }

  /** What it shows when the stream then open has delivered everything it will. */
  function Final(t: Trace, mount: Channel, answers: seq<Answer>): View
    requires forall a :: a in answers ==> Ticking(t, a.clock)
  {
    Shows(Run(t, mount, answers))
  }

  /** The sequence after which events are applied to what the answer left.  A frame that moves the
      client in the window makes the new stream go on from where the old one is. */
  function Resume(t: Trace, s: State, a: Answer): nat
    requires Ticking(t, a.clock)
  {
    var taken := Taken(t, s, a);
    if !Reopens(t, a) then Position(s, a)
    else if Overtaken(t, s, a) then Greatest(Position(s, a), taken.cursor)
    else StreamStart(taken.cursor, a.channel.serverCursor, a.channel.live)
  }

  /** Between two frames: the client's jobs are behind the server's, never ahead. */
  ghost predicate SoundView(t: Trace, v: View)
    requires WriteBeforeAdvance(t)
  {
    NothingNewer(t, v.jobs) && OnlyTouched(t, v.jobs) && v.cursor <= Cursor(t)
  }

  ghost predicate Sound(t: Trace, s: State)
    requires WriteBeforeAdvance(t)
  {
    SoundView(t, s.view) && OpenAt(t, s.open, s.at) && s.view.cursor <= s.at && s.view.id in {0, s.at}
  }

  /** An answer reads its cursor at one moment and its jobs at a later one. */
  lemma ReadTimes(t: Trace, a: Answer) returns (t1: nat, t2: nat)
    requires Ticking(t, a.clock)
    ensures a.clock(0) <= t1 <= t2 <= |t| && t1 <= a.clock(8)
    ensures Listing(t, a) == Snapshot(Cursor(t[..t1]), Db(t[..t2]))
  {
    var k := LastAttempt(t, a.clock);
    assert a.clock(0) <= a.clock(3 * k) <= a.clock(3 * k + 1) <= a.clock(8) <= |t|;
    t1, t2 := a.clock(3 * k), a.clock(3 * k + 1);
  }

  lemma HearingStaysSound(t: Trace, v: View, out: seq<Frame>, at: nat)
    requires WriteBeforeAdvance(t) && AllSettled(t) && SoundView(t, v) && OpenAt(t, out, at)
    requires v.id in {0, at} && Echoes(v, out)
    ensures SoundView(t, HearAll(v, out)) && HearAll(v, out).id in {0, at + |Sequences(out)|}
  {
    Hearing(t, v, out, at);
    var start := Greatest(at, v.cursor);
    var end := Greatest(start, at + |Sequences(out)|);
    ApplyStaysBehind(t, v.jobs, start, end);
    MovedStaysTouched(t, v.jobs, start, end);
  }

  lemma OpenSplits(t: Trace, s: State, a: Answer)
    requires WriteBeforeAdvance(t) && OpenAt(t, s.open, s.at)
    ensures OpenAt(t, Before(s.open, a), s.at) && OpenAt(t, After(s.open, a), Position(s, a))
    ensures OpenAt(t, Window(s.open, a), Position(s, a))
  {
    FramesSplit(t, s.open, |Before(s.open, a)|, s.at);
    FramesSplit(t, After(s.open, a), |Window(s.open, a)|, Position(s, a));
  }

  /** The answer: what it leaves is sound, and covers the server's jobs from its own cursor on. */
  lemma TakenIsSound(t: Trace, s: State, a: Answer)
    requires WriteBeforeAdvance(t) && AllSettled(t) && Sound(t, s) && Ticking(t, a.clock)
    requires Echoes(s.view, Before(s.open, a))
    ensures SoundView(t, Taken(t, s, a)) && Covers(t, Taken(t, s, a).jobs, Taken(t, s, a).cursor)
    ensures Taken(t, s, a).id in {0, Position(s, a)}
  {
    OpenSplits(t, s, a);
    HearingStaysSound(t, s.view, Before(s.open, a), s.at);
    var t1, t2 := ReadTimes(t, a);
    var held := if a.first then map[] else HearAll(s.view, Before(s.open, a)).jobs;
    SnapshotCovers(t, t1, t2, held);
    assert ReconcileMap(map[], Db(t[..t2])) == Db(t[..t2]);
  }

  lemma ArriveIsSound(t: Trace, s: State, a: Answer)
    requires WriteBeforeAdvance(t) && AllSettled(t) && Sound(t, s) && Ticking(t, a.clock) && Plausible(t, a.channel)
    requires Quiet(t, s, a)
    ensures Sound(t, Arrive(t, s, a))
  {
    OpenSplits(t, s, a);
    TakenIsSound(t, s, a);
    if Reopens(t, a) {
      HearingStaysSound(t, Taken(t, s, a), Window(s.open, a), Position(s, a));
      StreamOpens(t, Reopening(t, s, a).cursor, a.channel);
    }
  }

  /** Nothing after the end of the open stream carries a job. */
  ghost predicate Delivered(t: Trace, s: State)
    requires WriteBeforeAdvance(t)
  {
    End(s) <= Cursor(t) && Silent(t, End(s), Cursor(t))
  }

  lemma ShowsApplied(t: Trace, s: State)
    requires WriteBeforeAdvance(t) && Sound(t, s) && Echoes(s.view, s.open)
    ensures s.at <= End(s) <= Cursor(t) && Shows(s).jobs == Apply(t, s.view.jobs, s.at, End(s))
    ensures CursorReached(t, s.view.cursor, s.at, End(s), Shows(s).cursor)
  {
    Hearing(t, s.view, s.open, s.at);
  }

  /** The stream of a client that has caught up delivers every event that carries a job, and so does
      one that ends at the server's cursor. */
  lemma CaughtUpMeansDelivered(t: Trace, s: State)
    requires WriteBeforeAdvance(t) && Sound(t, s) && Echoes(s.view, s.open)
    ensures CaughtUp(t, Shows(s).cursor) ==> Delivered(t, s)
    ensures End(s) == Cursor(t) ==> Delivered(t, s)
    ensures Delivered(t, s) && s.view.cursor == s.at ==> CaughtUp(t, Shows(s).cursor)
  {
    ShowsApplied(t, s);
  }

  /** Events heard before the stream is reopened at the cursor they leave count once. */
  lemma WindowApplied(t: Trace, m: map<JobId, JobView>, c: nat, start: nat, end: nat, r: nat, upto: nat)
    requires WriteBeforeAdvance(t) && c <= start <= end <= Cursor(t)
    requires CursorReached(t, c, start, end, r) && r <= upto <= Cursor(t)
    ensures var heard := Apply(t, m, start, end);
            if r == c then heard == m else Apply(t, heard, r, upto) == Apply(t, m, start, upto)
  {
    if r == c {
      ApplySilent(t, m, start, start, end);
    } else {
      ApplySilent(t, m, start, r, end);
      ApplyJoins(t, m, start, r, upto);
    }
  }

  /** The view when the old stream is closed: the answer as it was, or moved on. */
  lemma ReopensFrom(t: Trace, taken: View, p: nat, window: seq<Frame>, upto: nat)
    requires WriteBeforeAdvance(t) && taken.cursor <= Cursor(t) && OpenAt(t, window, p)
    requires taken.id in {0, p} && Echoes(taken, window)
    requires HearAll(taken, window).cursor <= upto <= Cursor(t)
    ensures var v := HearAll(taken, window);
            if v.cursor <= taken.cursor then v.jobs == taken.jobs && v.cursor == taken.cursor
            else Greatest(p, taken.cursor) <= v.cursor
                 && Apply(t, v.jobs, v.cursor, upto) == Apply(t, taken.jobs, Greatest(p, taken.cursor), upto)
  {
    Hearing(t, taken, window, p);
    CursorMoves(taken, window);
    var start := Greatest(p, taken.cursor);
    WindowApplied(
      t, taken.jobs, taken.cursor, start, Greatest(start, p + |Sequences(window)|),
      HearAll(taken, window).cursor, upto);
  }

  /** What a client shows after the stream that an answer left open is the answer and the events
      after Resume. */
  lemma ShowsFromResume(t: Trace, s: State, a: Answer)
    requires WriteBeforeAdvance(t) && AllSettled(t) && Sound(t, s) && Ticking(t, a.clock) && Plausible(t, a.channel)
    requires Quiet(t, s, a) && Echoes(Arrive(t, s, a).view, Arrive(t, s, a).open)
    ensures var next := Arrive(t, s, a);
            && Resume(t, s, a) <= End(next) <= Cursor(t)
            && Shows(next).jobs == Apply(t, Taken(t, s, a).jobs, Resume(t, s, a), End(next))
  {
    ArriveIsSound(t, s, a);
    var next := Arrive(t, s, a);
    ShowsApplied(t, next);
    if Reopens(t, a) {
      OpenSplits(t, s, a);
      TakenIsSound(t, s, a);
      StreamOpens(t, next.view.cursor, a.channel);
      ReopensFrom(t, Taken(t, s, a), Position(s, a), Window(s.open, a), End(next));
      CursorMoves(Taken(t, s, a), Window(s.open, a));
    }
  }

  /** One answer, for any state before it: when the stream it leaves open has delivered every event
      that carries a job, the client shows the server's jobs exactly when the answer and the events
      after Resume cover them; and from its own cursor on an answer always does. */
  lemma ArriveExactly(t: Trace, s: State, a: Answer)
    requires WriteBeforeAdvance(t) && AllSettled(t) && Sound(t, s) && Ticking(t, a.clock) && Plausible(t, a.channel)
    requires Quiet(t, s, a) && Echoes(Arrive(t, s, a).view, Arrive(t, s, a).open)
    ensures var next, taken := Arrive(t, s, a), Taken(t, s, a);
            && (Delivered(t, next) ==> (Shows(next).jobs == Db(t) <==> Covers(t, taken.jobs, Resume(t, s, a))))
            && (Delivered(t, next) && Resume(t, s, a) == taken.cursor ==> Shows(next).jobs == Db(t))
  {
    TakenIsSound(t, s, a);
    ShowsFromResume(t, s, a);
    if Delivered(t, Arrive(t, s, a)) {
      MovedExactly(t, Taken(t, s, a).jobs, Resume(t, s, a), End(Arrive(t, s, a)));
    }
  }

  /** Exactly when the events are applied from the answer's own cursor on: no stream is reopened and
      the old one had delivered nothing; or the window moved the client, and the old stream was no
      further than the answer; or it did not, and the new stream has its first event pinned. */
  lemma ResumesAtCursor(t: Trace, s: State, a: Answer)
    requires WriteBeforeAdvance(t) && Ticking(t, a.clock) && Plausible(t, a.channel)
    requires Taken(t, s, a).cursor <= Cursor(t)
    ensures var taken := Taken(t, s, a);
            Resume(t, s, a) == taken.cursor <==>
              if !Reopens(t, a) then Position(s, a) == 0
              else if Overtaken(t, s, a) then Position(s, a) <= taken.cursor
              else Pinned(taken.cursor, a.channel.serverCursor, a.channel.live)
  {
    StreamOpens(t, Taken(t, s, a).cursor, a.channel);
  }

  /** A stream that is opened by an answer and drops nothing catches up. */
  lemma InOrderDelivers(t: Trace, s: State, a: Answer)
    requires WriteBeforeAdvance(t) && AllSettled(t) && Sound(t, s) && Ticking(t, a.clock) && Plausible(t, a.channel)
    requires Quiet(t, s, a) && Echoes(Arrive(t, s, a).view, Arrive(t, s, a).open)
    requires Reopens(t, a) && InOrder(t, Reopening(t, s, a).cursor, a.channel)
    ensures var next := Arrive(t, s, a); Delivered(t, next) && CaughtUp(t, Shows(next).cursor)
  {
    ArriveIsSound(t, s, a);
    InOrderCatchesUp(t, Reopening(t, s, a).cursor, a.channel);
    StreamOpens(t, Reopening(t, s, a).cursor, a.channel);
    CaughtUpMeansDelivered(t, Arrive(t, s, a));
  }

  /** What the theorems ask of a run: channels of the server's events, and ticks that tell only
      progress. */
  ghost predicate Regular(t: Trace, mount: Channel, answers: seq<Answer>)
    requires WriteBeforeAdvance(t)
  {
    && Plausible(t, mount)
    && (forall a :: a in answers ==> Ticking(t, a.clock) && Plausible(t, a.channel))
    && forall n :: 0 <= n < |answers| ==> QuietAt(t, mount, answers, n)
  }

  ghost predicate QuietAt(t: Trace, mount: Channel, answers: seq<Answer>, n: nat)
    requires n < |answers| && forall a :: a in answers ==> Ticking(t, a.clock)
  {
    Quiet(t, Run(t, mount, answers[..n]), answers[n])
  }

  lemma RegularPrefix(t: Trace, mount: Channel, answers: seq<Answer>)
    requires WriteBeforeAdvance(t) && Regular(t, mount, answers) && answers != []
    ensures Regular(t, mount, answers[..|answers| - 1])
  {
    var init := answers[..|answers| - 1];
    forall n | 0 <= n < |init| ensures QuietAt(t, mount, init, n) {
      assert QuietAt(t, mount, answers, n) && init[..n] == answers[..n];
    }
  }

  lemma {:induction false} RunIsSound(t: Trace, mount: Channel, answers: seq<Answer>)
    requires WriteBeforeAdvance(t) && AllSettled(t) && Regular(t, mount, answers)
    ensures Sound(t, Run(t, mount, answers))
    decreases |answers|
  {
    if answers == [] {
      StreamOpens(t, 0, mount);
    } else {
      var init, last := answers[..|answers| - 1], answers[|answers| - 1];
      RegularPrefix(t, mount, answers);
      RunIsSound(t, mount, init);
      assert QuietAt(t, mount, answers, |init|);
      ArriveIsSound(t, Run(t, mount, init), last);
    }
  }

  /** The main result, for a client's whole life. */
  lemma SessionConverges(t: Trace, mount: Channel, answers: seq<Answer>)
    requires WriteBeforeAdvance(t) && AllSettled(t) && Regular(t, mount, answers) && answers != []
    requires Echoes(Run(t, mount, answers).view, Run(t, mount, answers).open)
    ensures var s := Run(t, mount, answers[..|answers| - 1]);
            var last := answers[|answers| - 1];
            var final, taken := Final(t, mount, answers), Taken(t, s, last);
            && (CaughtUp(t, final.cursor) ==>
                  (final.jobs == Db(t) <==> Covers(t, taken.jobs, Resume(t, s, last))))
            && (CaughtUp(t, final.cursor) && Resume(t, s, last) == taken.cursor ==> final.jobs == Db(t))
            && (Reopens(t, last) && InOrder(t, Reopening(t, s, last).cursor, last.channel) ==>
                  CaughtUp(t, final.cursor))
  {
    var init, last := answers[..|answers| - 1], answers[|answers| - 1];
    var s := Run(t, mount, init);
    RegularPrefix(t, mount, answers);
    RunIsSound(t, mount, init);
    assert QuietAt(t, mount, answers, |init|);
    ArriveIsSound(t, s, last);
    CaughtUpMeansDelivered(t, Arrive(t, s, last));
    ArriveExactly(t, s, last);
    if Reopens(t, last) && InOrder(t, Reopening(t, s, last).cursor, last.channel) { InOrderDelivers(t, s, last); }
  }

  // ---------- losses, concretely ----------

  function Three(a: JobView, b: JobView, d: JobView): Trace {
    [Write(a), Advance(0), Write(b), Advance(2), Write(d), Advance(4)]
  }

  lemma ThreeSteps(a: JobView, b: JobView, d: JobView)
    requires a.id != b.id && a.id != d.id && b.id != d.id
    ensures var t := Three(a, b, d);
            && WriteBeforeAdvance(t) && Announced(t) == [0, 2, 4] && Announced(t[..2]) == [0]
            && Db(t) == map[a.id := a, b.id := b, d.id := d] && Db(t[..2]) == map[a.id := a]
  {
    var t := Three(a, b, d);
    TwoMore(t, 0);
    TwoMore(t, 2);
    TwoMore(t, 4);
    assert t[..6] == t && Db(t[..0]) == map[] && Announced(t[..0]) == [];
  }

  lemma ThreeSettle(a: JobView, b: JobView, d: JobView)
    requires a.id != b.id && a.id != d.id && b.id != d.id
    ensures WriteBeforeAdvance(Three(a, b, d)) && AllSettled(Three(a, b, d))
  {
    var t := Three(a, b, d);
    ThreeSteps(a, b, d);
    forall id, w: nat | LastTouch(t, id, w) ensures exists k: nat :: AnnouncedLast(t, id, w, k) {
      assert AnnouncedLast(t, id, w, if w == 0 then 0 else if w == 2 then 1 else 2);
    }
  }

  /** The stream opened at mount delivers two events and then e.  The first answer, read after the
      first event, arrives after the second one, and e comes before that stream is closed. */
  function Mount(a: JobView, b: JobView, e: Event): Channel {
    Channel(0, _ => None, [Event(1, JobUpdated, a), Event(2, JobUpdated, b), e])
  }

  function LateAnswer(ch: Channel): Answer { Answer(true, _ => 2, 2, 1, ch) }

  lemma MountDelivers(a: JobView, b: JobView, e: Event)
    requires e.sequence in {0, 3}
    ensures Output(0, Mount(a, b, e)) == Frames(Mount(a, b, e).live)
  {
    var live := Mount(a, b, e).live;
    assert live[1..] == [live[1], live[2]] && live[1..][1..] == [live[2]] && live[1..][1..][1..] == [];
    assert Forward(3, []) == [] && Forward(2, []) == [] && Forward(2, [live[2]]) == [Sent(live[2])];
    assert Forward(1, live[1..]) == [Sent(live[1]), Sent(live[2])];
  }

  lemma HearsOne(v: View, f: Frame)
    ensures HearAll(v, [f]) == Hear(v, f)
    ensures HearAll(v, []) == v
  {
    assert [f][..0] == [];
  }

  /** Only jobs and cursor of the snapshot are left, under the id of the stream that is still open. */
  lemma LateAnswerTaken(a: JobView, b: JobView, d: JobView, e: Event, ch: Channel)
    requires a.id != b.id && a.id != d.id && b.id != d.id && e.sequence in {0, 3}
    requires Ticking(Three(a, b, d), LateAnswer(ch).clock)
    ensures var t, start := Three(a, b, d), Run(Three(a, b, d), Mount(a, b, e), []);
            && Taken(t, start, LateAnswer(ch)) == View(map[a.id := a], 1, 2) && Reopens(t, LateAnswer(ch))
            && Window(start.open, LateAnswer(ch)) == [Sent(e)]
  {
    var t, answer := Three(a, b, d), LateAnswer(ch);
    var start := Run(t, Mount(a, b, e), []);
    ThreeSteps(a, b, d);
    MountDelivers(a, b, e);
    assert Listing(t, answer) == Snapshot(1, map[a.id := a]);
    var before := Before(start.open, answer);
    assert before == [Sent(Event(1, JobUpdated, a)), Sent(Event(2, JobUpdated, b))];
    assert before[..1] == [before[0]];
    HearsOne(start.view, before[0]);
  }

  /** The view the stream is reopened from. */
  lemma LateAnswerReopens(a: JobView, b: JobView, d: JobView, e: Event, ch: Channel)
    requires a.id != b.id && a.id != d.id && b.id != d.id && e.sequence in {0, 3}
    requires Ticking(Three(a, b, d), LateAnswer(ch).clock)
    ensures var t, mount := Three(a, b, d), Mount(a, b, e);
            && Run(t, mount, [LateAnswer(ch)]) == Opened(Hear(View(map[a.id := a], 1, 2), Sent(e)), ch)
            && (e.sequence == 3 || Hear(View(map[a.id := a], 1, 2), Sent(e)).jobs == map[a.id := a] ==>
                  QuietAt(t, mount, [LateAnswer(ch)], 0))
  {
    var t, mount, answer := Three(a, b, d), Mount(a, b, e), LateAnswer(ch);
    LateAnswerTaken(a, b, d, e, ch);
    var start := Run(t, mount, []);
    HearsOne(Taken(t, start, answer), Sent(e));
    assert [answer][..0] == [];
    assert Run(t, mount, [answer]) == Arrive(t, start, answer);
    var before := Before(start.open, answer);
    assert before[..1][..0] == [];
  }

  lemma ThreePlausible(a: JobView, b: JobView, d: JobView, e: Event, live: seq<Event>, n: nat)
    requires a.id != b.id && a.id != d.id && b.id != d.id
    requires e == Event(3, JobUpdated, d) || e.sequence == 0
    requires forall x :: x in live ==> x == Event(3, JobUpdated, d)
    ensures var t := Three(a, b, d);
            WriteBeforeAdvance(t) && Plausible(t, Mount(a, b, e)) && Plausible(t, Channel(n, _ => None, live))
  {
    ThreeSteps(a, b, d);
    var t := Three(a, b, d);
    assert EventAt(t, 1) == Event(1, JobUpdated, a) && EventAt(t, 2) == Event(2, JobUpdated, b);
    assert EventAt(t, 3) == Event(3, JobUpdated, d);
  }

  /** b is lost for good, with nothing dropped and nothing left to deliver, when the third event comes
      in the window. */
  lemma WindowLoses(a: JobView, b: JobView, d: JobView)
    requires a.id != b.id && a.id != d.id && b.id != d.id
    ensures var t, mount := Three(a, b, d), Mount(a, b, Event(3, JobUpdated, d));
            var answer := LateAnswer(Channel(3, _ => None, []));
            && WriteBeforeAdvance(t) && AllSettled(t) && Regular(t, mount, [answer])
            && Final(t, mount, [answer]) == View(map[a.id := a, d.id := d], 3, 0) && CaughtUp(t, 3)
            && Db(t) == map[a.id := a, b.id := b, d.id := d] != Final(t, mount, [answer]).jobs
  {
    var t, e, ch := Three(a, b, d), Event(3, JobUpdated, d), Channel(3, _ => None, []);
    ThreeSteps(a, b, d);
    ThreeSettle(a, b, d);
    ThreePlausible(a, b, d, e, [], 3);
    LateAnswerReopens(a, b, d, e, ch);
    WindowShows(a, d, ch);
    assert b.id in Db(t);
  }

  lemma WindowShows(a: JobView, d: JobView, ch: Channel)
    requires a.id != d.id && ch.serverCursor == 3 && ch.live == []
    ensures var next := Opened(Hear(View(map[a.id := a], 1, 2), Sent(Event(3, JobUpdated, d))), ch);
            next.open == [] && Shows(next) == View(map[a.id := a, d.id := d], 3, 0)
  {
    assert Output(3, ch) == [] + Forward(3, []) == [];
  }

  /** And so it is when only a tick comes in the window, repeating job a: it arrives under the id of
      the second event. */
  lemma TickLoses(a: JobView, b: JobView, d: JobView)
    requires a.id != b.id && a.id != d.id && b.id != d.id
    ensures var t, mount := Three(a, b, d), Mount(a, b, Event(0, JobUpdated, a));
            var answer := LateAnswer(Channel(2, _ => None, [Event(3, JobUpdated, d)]));
            && WriteBeforeAdvance(t) && AllSettled(t) && Regular(t, mount, [answer])
            && Final(t, mount, [answer]) == View(map[a.id := a, d.id := d], 3, 3) && CaughtUp(t, 3)
            && Db(t) == map[a.id := a, b.id := b, d.id := d] != Final(t, mount, [answer]).jobs
  {
    var t, e, third := Three(a, b, d), Event(0, JobUpdated, a), Event(3, JobUpdated, d);
    var ch := Channel(2, _ => None, [third]);
    ThreeSteps(a, b, d);
    ThreeSettle(a, b, d);
    ThreePlausible(a, b, d, e, [third], 2);
    TickShows(a, d, ch);
    LateAnswerReopens(a, b, d, e, ch);
    assert b.id in Db(t);
  }

  lemma DeliversOne(ch: Channel, e: Event)
    requires ch.live == [e] && 0 < e.sequence == ch.serverCursor + 1 && ch.serverCursor > 0
    ensures Output(ch.serverCursor, ch) == [Sent(e)]
  {
    assert ch.live[1..] == [] && Forward(e.sequence, []) == [];
    assert Output(ch.serverCursor, ch) == [] + Forward(ch.serverCursor, ch.live);
  }

  lemma TickShows(a: JobView, d: JobView, ch: Channel)
    requires a.id != d.id && ch.serverCursor == 2 && ch.live == [Event(3, JobUpdated, d)]
    ensures var v := Hear(View(map[a.id := a], 1, 2), Sent(Event(0, JobUpdated, a)));
            v == View(map[a.id := a], 2, 2) && Shows(Opened(v, ch)) == View(map[a.id := a, d.id := d], 3, 3)
  {
    DeliversOne(ch, Event(3, JobUpdated, d));
    HearsOne(View(map[a.id := a], 2, 0), Sent(Event(3, JobUpdated, d)));
  }

  /** A client that reads its snapshot at cursor 1 and hears everything after it, in order. */
  function EarlyAnswer(later: JobView, b: JobView): Answer {
    Answer(true, _ => 2, 0, 0, Channel(1, _ => None, [Event(2, JobPayload, later), Event(3, JobUpdated, b)]))
  }

  lemma PayloadPlausible(a: JobView, later: JobView, b: JobView)
    requires a.id == later.id != b.id
    ensures var t := PayloadTrace(a, later, b);
            WriteBeforeAdvance(t) && Plausible(t, EarlyAnswer(later, b).channel)
  {
    PayloadTraceSteps(a, later, b);
    var t := PayloadTrace(a, later, b);
    assert EventAt(t, 2) == Event(2, JobPayload, later) && EventAt(t, 3) == Event(3, JobUpdated, b);
  }

  lemma PayloadDelivered(later: JobView, b: JobView)
    ensures var ch := EarlyAnswer(later, b).channel; Output(1, ch) == [Sent(ch.live[0]), Sent(ch.live[1])]
  {
    var live := EarlyAnswer(later, b).channel.live;
    assert live[1..] == [live[1]] && live[1..][1..] == [] && Forward(3, []) == [];
    assert Forward(2, live[1..]) == [Sent(live[1])];
    assert Output(1, EarlyAnswer(later, b).channel) == [] + Forward(1, live);
  }

  lemma HearsTwo(v: View, f: Frame, g: Frame)
    ensures HearAll(v, [f, g]) == Hear(Hear(v, f), g)
  {
    assert [f, g][..1] == [f];
    HearsOne(v, f);
  }

  lemma PayloadOpens(a: JobView, later: JobView, b: JobView)
    requires a.id == later.id != b.id && Ticking(PayloadTrace(a, later, b), EarlyAnswer(later, b).clock)
    ensures var t, mount, answer := PayloadTrace(a, later, b), Channel(0, _ => None, []), EarlyAnswer(later, b);
            && Run(t, mount, [answer]) == Opened(View(map[a.id := a], 1, 0), answer.channel)
            && QuietAt(t, mount, [answer], 0)
  {
    var t, mount, answer := PayloadTrace(a, later, b), Channel(0, _ => None, []), EarlyAnswer(later, b);
    PayloadTraceSteps(a, later, b);
    var start := Run(t, mount, []);
    assert start.open == [] + Forward(0, []) == [];
    assert Listing(t, answer) == Snapshot(1, map[a.id := a]);
    assert [answer][..0] == [];
  }

  /** The loss through a payload: the second write of a has an event that carries no job.  Stamps
      grow, nothing is dropped, and the client keeps the old version of a. */
  lemma PayloadLoses(a: JobView, later: JobView, b: JobView)
    requires a.id == later.id != b.id && StrictlyOlder(Write(a), Write(later))
    ensures var t, mount, answer := PayloadTrace(a, later, b), Channel(0, _ => None, []), EarlyAnswer(later, b);
            && WriteBeforeAdvance(t) && (forall id :: StampedInOrder(t, id)) && !LastIsAnnounced(t, a.id)
            && Regular(t, mount, [answer]) && Cursor(t) == 3
            && Final(t, mount, [answer]) == View(map[a.id := a, b.id := b], 3, 3)
            && Db(t) == map[a.id := later, b.id := b] != Final(t, mount, [answer]).jobs
  {
    var t := PayloadTrace(a, later, b);
    PayloadTraceSteps(a, later, b);
    PayloadLeavesUnannounced(a, later, b);
    PayloadPlausible(a, later, b);
    PayloadOpens(a, later, b);
    PayloadDelivered(later, b);
    HearsTwo(View(map[a.id := a], 1, 0), Sent(Event(2, JobPayload, later)), Sent(Event(3, JobUpdated, b)));
    assert Db(t)[a.id] == later && later != a;
  }

  // ---------- the application's side of it ----------

  /** The answer to the request made at mount is taken over, that to a resync's reconciled. */
  method TakeAnswer(app: App, t: Trace, ghost s: State, a: Answer) returns (reopen: bool)
    requires Ticking(t, a.clock) && UniqueIds(app.jobs)
    requires app.Shown() == HearAll(s.view, Before(s.open, a))
    modifies app
    ensures UniqueIds(app.jobs) && app.Shown() == Taken(t, s, a)
    ensures reopen <==> Reopens(t, a)
  {
    var gen := app.rehydrationGen;
    if !a.first { gen := app.BeginRehydration(); }
    var answer := GetSyncSnapshot(t, a.clock, _ => true);
    var snapshot := answer.value;
    ghost var _, t2 := ReadTimes(t, a);
    forall id | id in snapshot.jobs ensures snapshot.jobs[id].id == id { DbKeys(t[..t2], id); }
    var list := ListJobs(snapshot.jobs);
    if a.first {
      reopen := app.Load(snapshot.cursor, list);
    } else {
      app.FinishRehydration(gen, snapshot.cursor, list);
      reopen := true;
    }
  }

  /** The effect that opens a stream at the client's cursor. */
  method OpenStream(app: App, ghost t: Trace, ch: Channel) returns (out: seq<Frame>)
    requires WriteBeforeAdvance(t) && Plausible(t, ch)
    modifies app`lastEventId
    ensures State(app.Shown(), out, StreamStart(app.lastAppliedCursor, ch.serverCursor, ch.live))
            == Opened(old(app.Shown()), ch)
  {
    app.lastEventId := 0;
    var c := app.lastAppliedCursor;
    out := ServeHTTP(c, ch.serverCursor, ch.replay(c), ch.live);
  }

  /** An answer arrives while the client follows a stream: it is taken, the old stream runs on until
      the effect that closes it, and the new one is opened at the cursor the client has then. */
  method OnAnswer(app: App, t: Trace, ghost s: State, open: seq<Frame>, a: Answer) returns (next: seq<Frame>)
    requires WriteBeforeAdvance(t) && Ticking(t, a.clock) && Plausible(t, a.channel)
    requires UniqueIds(app.jobs) && app.Shown() == s.view && open == s.open
    modifies app
    ensures UniqueIds(app.jobs) && app.Shown() == Arrive(t, s, a).view && next == Arrive(t, s, a).open
  {
    Follow(app, Before(open, a));
    var reopen := TakeAnswer(app, t, s, a);
    next := After(open, a);
    if reopen {
      Follow(app, Window(open, a));
      next := OpenStream(app, t, a.channel);
    }
  }

  /** A client's whole life: the stream opened at mount and the answers, in the order they arrive. */
  method Session(app: App, t: Trace, mount: Channel, answers: seq<Answer>)
    requires WriteBeforeAdvance(t) && Plausible(t, mount) && app.Shown() == View(map[], 0, 0) && app.jobs == []
    requires forall a :: a in answers ==> Ticking(t, a.clock) && Plausible(t, a.channel)
    modifies app
    ensures UniqueIds(app.jobs) && app.Shown() == Final(t, mount, answers)
  {
    var open := OpenStream(app, t, mount);
    var n := 0;
    while n < |answers|
      invariant 0 <= n <= |answers| && UniqueIds(app.jobs)
      invariant app.Shown() == Run(t, mount, answers[..n]).view && open == Run(t, mount, answers[..n]).open
    {
      assert answers[..n + 1][..n] == answers[..n];
      open := OnAnswer(app, t, Run(t, mount, answers[..n]), open, answers[n]);
      n := n + 1;
    }
    assert answers[..n] == answers;
    Follow(app, open);
  }
}
