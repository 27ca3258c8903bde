/** One event stream to one client: ServeHTTP in internal/events/sse.go.  Resuming follows
    section 9.2 of the WHATWG HTML Living Standard: a reconnecting client names the last event
    id it saw. */
module Stream {
  import opened Text
  import opened Events

  datatype Frame = Sent(event: Event) | SyncRequired(cursor: int, reason: string)

  /** The sequence numbers of the sequenced events written, in order. */
  function Sequences(out: seq<Frame>): seq<int> {
    if out == [] then []
    else if out[0].Sent? && out[0].event.sequence > 0 then [out[0].event.sequence] + Sequences(out[1..])
    else Sequences(out[1..])
  }

  /** The unsequenced events of a channel or of the output. */
  function Ticks(es: seq<Event>): seq<Event> {
    if es == [] then []
    else if es[0].sequence <= 0 then [es[0]] + Ticks(es[1..])
    else Ticks(es[1..])
  }

  predicate EndsInSync(out: seq<Frame>) {
    out != [] && out[|out| - 1].SyncRequired?
  }

  lemma {:induction false} SequencesAppend(a: seq<Frame>, b: seq<Frame>)
    ensures Sequences(a + b) == Sequences(a) + Sequences(b)
  {
    if a == [] {
      assert a + b == b;
    } else {
      assert (a + b)[1..] == a[1..] + b;
      SequencesAppend(a[1..], b);
    }
  }

  function Frames(es: seq<Event>): (r: seq<Frame>)
    ensures |r| == |es|
  {
    seq(|es|, i requires 0 <= i < |es| => Sent(es[i]))
  }

  lemma {:induction false} SequencesOfRun(es: seq<Event>, first: int)
    requires first > 0 && RunOf(es, first)
    ensures |Sequences(Frames(es))| == |es| && Consecutive(Sequences(Frames(es)), first)
  {
    if es != [] {
      var rest := es[1..];
      forall k | 0 <= k < |rest| ensures rest[k].sequence == first + 1 + k { assert rest[k] == es[k + 1]; }
      SequencesOfRun(rest, first + 1);
      assert Frames(es)[1..] == Frames(rest);
    }
  }

  /** What the live loop writes for the channel contents live when last was sent before. */
  function Forward(last: int, live: seq<Event>): seq<Frame>
    decreases |live|
  {
    if live == [] then []
    else
      var e := live[0];
      if e.sequence <= 0 then [Sent(e)] + Forward(last, live[1..])
      else if last > 0 && e.sequence > last + 1 then [SyncRequired(e.sequence, "slow_subscriber_gap_detected")]
      else if e.sequence <= last then Forward(last, live[1..])
      else [Sent(e)] + Forward(e.sequence, live[1..])
  }

  /** What the replay phase writes, and the last sequence sent, or None when the stream ends. */
  function Replayed(clientCursor: int, serverCursor: int, replay: Option<seq<Event>>): (seq<Frame>, Option<int>) {
    if clientCursor < 0 then ([], Some(0))
    else if clientCursor == serverCursor then ([], Some(serverCursor))
    else if clientCursor > serverCursor then ([SyncRequired(serverCursor, "cursor_ahead_of_server")], None)
    else if replay.Some? && replay.value != [] && replay.value[|replay.value| - 1].sequence >= serverCursor then
      (Frames(replay.value), Some(replay.value[|replay.value| - 1].sequence))
    else ([SyncRequired(serverCursor, "replay_gap_or_buffer_overflow")], None)
  }

  function Serve(clientCursor: int, serverCursor: int, replay: Option<seq<Event>>, live: seq<Event>): seq<Frame> {
    var (head, last) := Replayed(clientCursor, serverCursor, replay);
    if last == None then head else head + Forward(last.value, live)
  }

  /** ServeHTTP.  replay is the answer of GetEventsAfter; live is whatever the subscription
      delivers, in whatever order, until the connection or the subscription ends. */
  method ServeHTTP(clientCursor: int, serverCursor: int, replay: Option<seq<Event>>, live: seq<Event>)
    returns (out: seq<Frame>)
    requires replay.Some? ==> RunOf(replay.value, clientCursor + 1)
    ensures out == Serve(clientCursor, serverCursor, replay, live)
  {
    out := [];
    var lastSentSeq := 0;
    if clientCursor >= 0 {
      if clientCursor == serverCursor {
        lastSentSeq := serverCursor;
      } else if clientCursor > serverCursor {
        return [SyncRequired(serverCursor, "cursor_ahead_of_server")];
      } else {
        var replayed := false;
        if replay.Some? {
          var events := replay.value;
          if |events| > 0 && events[|events| - 1].sequence >= serverCursor {
            out, lastSentSeq := WriteReplay(events, clientCursor);
            replayed := true;
          }
        }
        if !replayed {
          return [SyncRequired(serverCursor, "replay_gap_or_buffer_overflow")];
        }
      }
    }
    var tail := LiveLoop(lastSentSeq, live);
    out := out + tail;
  }

  /** The replay loop of ServeHTTP. */
  method WriteReplay(events: seq<Event>, ghost clientCursor: nat) returns (out: seq<Frame>, lastSentSeq: int)
    requires events != [] && RunOf(events, clientCursor + 1)
    ensures out == Frames(events) && lastSentSeq == events[|events| - 1].sequence
  {
    out, lastSentSeq := [], 0;
    var k := 0;
    while k < |events|
      invariant 0 <= k <= |events|
      invariant out == Frames(events)[..k]
      invariant lastSentSeq == if k == 0 then 0 else events[k - 1].sequence
    {
      out := out + [Sent(events[k])];
      if events[k].sequence > lastSentSeq { lastSentSeq := events[k].sequence; }
      k := k + 1;
    }
  }

  /** The select loop of ServeHTTP. */
  method LiveLoop(last: int, live: seq<Event>) returns (out: seq<Frame>)
    ensures out == Forward(last, live)
  {
    out := [];
    var lastSentSeq := last;
    var n := 0;
    while n < |live|
      invariant 0 <= n <= |live|
      invariant Forward(last, live) == out + Forward(lastSentSeq, live[n..])
    {
      var event := live[n];
      assert live[n..][0] == event && live[n..][1..] == live[n + 1..];
      n := n + 1;
      if event.sequence > 0 {
        if lastSentSeq > 0 && event.sequence > lastSentSeq + 1 {
          out := out + [SyncRequired(event.sequence, "slow_subscriber_gap_detected")];
          return;
        }
        if event.sequence <= lastSentSeq { continue; }
        lastSentSeq := event.sequence;
      }
      out := out + [Sent(event)];
    }
  }

  // ---------- no gap, no duplicate, no reordering ----------

  lemma {:induction false} ForwardConsecutive(last: int, live: seq<Event>)
    requires last > 0
    ensures Consecutive(Sequences(Forward(last, live)), last + 1)
    decreases |live|
  {
    if live != [] {
      var e := live[0];
      if e.sequence <= 0 || e.sequence <= last {
        ForwardConsecutive(last, live[1..]);
      } else if e.sequence == last + 1 {
        ForwardConsecutive(last + 1, live[1..]);
      }
      if e.sequence <= 0 || e.sequence == last + 1 {
        var rest := Forward(if e.sequence <= 0 then last else e.sequence, live[1..]);
        assert ([Sent(e)] + rest)[1..] == rest;
      }
    }
  }

  /** Before anything was sent, the first sequenced event is taken as it comes. */
  lemma {:induction false} ForwardFromZero(live: seq<Event>)
    ensures var s := Sequences(Forward(0, live)); s == [] || (s[0] > 0 && Consecutive(s, s[0]))
  {
    if live != [] {
      var e := live[0];
      var rest := Forward(if e.sequence <= 0 then 0 else e.sequence, live[1..]);
      assert ([Sent(e)] + rest)[1..] == rest;
      if e.sequence <= 0 { ForwardFromZero(live[1..]); } else { ForwardConsecutive(e.sequence, live[1..]); }
    }
  }

  /** A stream opened at cursor c writes exactly c+1, c+2, ..., whatever the subscription delivers
      or drops, and in whatever order. */
  lemma StreamContiguous(c: nat, serverCursor: nat, replay: Option<seq<Event>>, live: seq<Event>)
    requires replay.Some? ==> RunOf(replay.value, c + 1)
    requires c > 0 || serverCursor > 0
    ensures Consecutive(Sequences(Serve(c, serverCursor, replay, live)), c + 1)
  {
    var (head, last) := Replayed(c, serverCursor, replay);
    if last.Some? {
      SequencesAppend(head, Forward(last.value, live));
      ForwardConsecutive(last.value, live);
      if c < serverCursor { SequencesOfRun(replay.value, c + 1); }
    }
  }

  function Sequenced(es: seq<Event>): (r: seq<Event>)
    ensures forall e :: e in r ==> e in es && e.sequence > 0
  {
    if es == [] then []
    else if es[0].sequence > 0 then [es[0]] + Sequenced(es[1..])
    else Sequenced(es[1..])
  }

  /** The first event of the stream is pinned to the cursor, or happens to be the right one. */
  predicate Pinned(c: nat, serverCursor: nat, live: seq<Event>) {
    c > 0 || serverCursor > 0 || Sequenced(live) == [] || Sequenced(live)[0].sequence == 1
  }

  lemma {:induction false} FirstFromZero(live: seq<Event>)
    ensures var s := Sequences(Forward(0, live));
            (s == [] <==> Sequenced(live) == []) && (s != [] ==> s[0] == Sequenced(live)[0].sequence)
  {
    if live != [] {
      var e := live[0];
      var rest := Forward(if e.sequence <= 0 then 0 else e.sequence, live[1..]);
      assert ([Sent(e)] + rest)[1..] == rest;
      if e.sequence <= 0 { FirstFromZero(live[1..]); }
    }
  }

  /** Exactly when a stream writes c+1, c+2, ...: always, except that a client at zero of a server
      at zero depends on the subscription to deliver event 1 first. */
  lemma StreamStartsAtCursor(c: nat, serverCursor: nat, replay: Option<seq<Event>>, live: seq<Event>)
    requires replay.Some? ==> RunOf(replay.value, c + 1)
    ensures Consecutive(Sequences(Serve(c, serverCursor, replay, live)), c + 1) <==> Pinned(c, serverCursor, live)
  {
    if c > 0 || serverCursor > 0 {
      StreamContiguous(c, serverCursor, replay, live);
    } else {
      assert [] + Forward(0, live) == Forward(0, live);
      FirstFromZero(live);
      ForwardFromZero(live);
    }
  }

  /** Even then, and without any cursor, the stream is contiguous from its first event on. */
  lemma UnpinnedStreamContiguous(c: int, serverCursor: nat, live: seq<Event>)
    requires c < 0 || (c == 0 && serverCursor == 0)
    ensures var s := Sequences(Serve(c, serverCursor, None, live)); s == [] || Consecutive(s, s[0])
  {
    ForwardFromZero(live);
    assert [] + Forward(0, live) == Forward(0, live);
  }

  /** The cursor the stream really resumes from: the client's, unless nothing pins the first event. */
  function StreamStart(c: nat, serverCursor: nat, live: seq<Event>): nat {
    if Pinned(c, serverCursor, live) then c else Sequenced(live)[0].sequence - 1
  }

  /** Every stream writes the sequenced events after its start, one by one. */
  lemma ServeRunsFromStart(c: nat, serverCursor: nat, replay: Option<seq<Event>>, live: seq<Event>)
    requires replay.Some? ==> RunOf(replay.value, c + 1)
    ensures Consecutive(Sequences(Serve(c, serverCursor, replay, live)), StreamStart(c, serverCursor, live) + 1)
    ensures !Pinned(c, serverCursor, live) ==> Sequenced(live)[0] in live && Sequenced(live)[0].sequence > 1
  {
    if Pinned(c, serverCursor, live) {
      StreamStartsAtCursor(c, serverCursor, replay, live);
    } else {
      assert [] + Forward(0, live) == Forward(0, live);
      FirstFromZero(live);
      ForwardFromZero(live);
    }
  }

  /** Only the last frame can be a resync demand. */
  predicate SyncEnds(out: seq<Frame>) {
    forall n :: 0 <= n < |out| - 1 ==> out[n].Sent?
  }

  lemma {:induction false} ForwardSyncEnds(last: int, live: seq<Event>)
    ensures SyncEnds(Forward(last, live))
    decreases |live|
  {
    if live != [] {
      var e := live[0];
      ForwardSyncEnds(if e.sequence > 0 && e.sequence > last then e.sequence else last, live[1..]);
    }
  }

  lemma ServeSyncEnds(c: nat, serverCursor: nat, replay: Option<seq<Event>>, live: seq<Event>)
    ensures SyncEnds(Serve(c, serverCursor, replay, live))
  {
    var (head, last) := Replayed(c, serverCursor, replay);
    if last.Some? { ForwardSyncEnds(last.value, live); }
  }

  // ---------- when the stream gives up ----------

  /** Event k leaps past last and past everything delivered before it; while nothing has been sent
      no event can. */
  ghost predicate Leaps(last: int, live: seq<Event>, k: nat) {
    && k < |live| && live[k].sequence > last + 1
    && (forall i :: 0 <= i < k ==> live[k].sequence > live[i].sequence + 1)
    && (last > 0 || exists i :: 0 <= i < k && live[i].sequence > 0)
  }

  ghost predicate FirstLeap(last: int, live: seq<Event>, k: nat) {
    Leaps(last, live, k) && forall i: nat :: i < k ==> !Leaps(last, live, i)
  }

  ghost predicate HasLeap(last: int, live: seq<Event>) {
    exists k: nat :: Leaps(last, live, k)
  }

  function HighOf(last: nat, e: Event): nat { if e.sequence > last then e.sequence else last }

  lemma LeapsLater(last: nat, live: seq<Event>, k: nat)
    requires live != [] && (last == 0 || live[0].sequence <= last + 1)
    ensures Leaps(HighOf(last, live[0]), live[1..], k) <==> Leaps(last, live, k + 1)
  {
    var rest := live[1..];
    if k < |rest| {
      forall i | 0 <= i < k ensures rest[i] == live[i + 1] {}
      if i :| 0 <= i < k && rest[i].sequence > 0 { assert live[i + 1].sequence > 0; }
      if i :| 0 <= i < k + 1 && live[i].sequence > 0 { assert i > 0 ==> rest[i - 1].sequence > 0; }
      if Leaps(last, live, k + 1) {
        forall i | 0 <= i < k ensures rest[k].sequence > rest[i].sequence + 1 {
          assert live[k + 1].sequence > live[i + 1].sequence + 1;
        }
      }
    }
  }

  /** A demand names the first event that leaps. */
  lemma {:induction false} SyncAtLeap(last: nat, live: seq<Event>) returns (k: nat)
    requires EndsInSync(Forward(last, live))
    ensures FirstLeap(last, live, k)
    ensures var out := Forward(last, live);
            out[|out| - 1] == SyncRequired(live[k].sequence, "slow_subscriber_gap_detected")
    decreases |live|
  {
    if last > 0 && live[0].sequence > last + 1 {
      k := 0;
    } else {
      var before := SyncAtLeap(HighOf(last, live[0]), live[1..]);
      k := before + 1;
      LeapsLater(last, live, before);
      forall i: nat | i < k ensures !Leaps(last, live, i) {
        if i > 0 { LeapsLater(last, live, i - 1); }
      }
    }
  }

  lemma {:induction false} NoSyncNoLeap(last: nat, live: seq<Event>, k: nat)
    requires !EndsInSync(Forward(last, live))
    ensures !Leaps(last, live, k)
    decreases |live|
  {
    if live != [] && k > 0 {
      LeapsLater(last, live, k - 1);
      NoSyncNoLeap(HighOf(last, live[0]), live[1..], k - 1);
    }
  }

  /** The live loop demands a resync exactly when some event leaps past everything before it. */
  lemma SyncExactlyOnGap(last: nat, live: seq<Event>)
    ensures EndsInSync(Forward(last, live)) <==> HasLeap(last, live)
  {
    if EndsInSync(Forward(last, live)) {
      var k := SyncAtLeap(last, live);
    } else {
      forall k: nat ensures !Leaps(last, live, k) { NoSyncNoLeap(last, live, k); }
    }
  }

  /** The buffer's answer brings the client up to the server's cursor. */
  predicate CatchesUp(serverCursor: int, replay: Option<seq<Event>>) {
    replay.Some? && replay.value != [] && replay.value[|replay.value| - 1].sequence >= serverCursor
  }

  /** Exactly when a whole stream ends in a resync demand: the client is ahead of the server; or it is
      behind and the buffer cannot bring it up; or some live event leaps past all that was sent.  In
      the first two cases the demand is all it writes, and names the server's cursor. */
  lemma DemandsSyncExactly(c: int, serverCursor: nat, replay: Option<seq<Event>>, live: seq<Event>)
    requires c >= 0 && replay.Some? ==> RunOf(replay.value, c + 1)
    ensures var out := Serve(c, serverCursor, replay, live);
            && (c > serverCursor ==> out == [SyncRequired(serverCursor, "cursor_ahead_of_server")])
            && (0 <= c < serverCursor && !CatchesUp(serverCursor, replay) ==>
                  out == [SyncRequired(serverCursor, "replay_gap_or_buffer_overflow")])
            && (c < 0 ==> (EndsInSync(out) <==> HasLeap(0, live)))
            && (c == serverCursor ==> (EndsInSync(out) <==> HasLeap(serverCursor, live)))
            && (0 <= c < serverCursor && CatchesUp(serverCursor, replay) ==>
                  Frames(replay.value) <= out && (EndsInSync(out) <==> HasLeap(c + |replay.value|, live)))
  {
    if c < 0 {
      SyncAfter([], 0, live);
    } else if c == serverCursor {
      SyncAfter([], serverCursor, live);
    } else if c < serverCursor && CatchesUp(serverCursor, replay) {
      SyncAfter(Frames(replay.value), c + |replay.value|, live);
    }
  }

  lemma SyncAfter(head: seq<Frame>, last: nat, live: seq<Event>)
    requires forall f :: f in head ==> f.Sent?
    ensures EndsInSync(head + Forward(last, live)) <==> HasLeap(last, live)
  {
    SyncExactlyOnGap(last, live);
    var tail := Forward(last, live);
    if tail == [] {
      assert head + tail == head;
      assert head != [] ==> head[|head| - 1] in head;
    }
  }

  /** Nothing sequenced is lost without a demand: a live loop that does not end in one has sent every
      event above what was sent before. */
  lemma {:induction false} SendsAllWithoutSync(last: int, live: seq<Event>, e: Event)
    requires last > 0 && !EndsInSync(Forward(last, live)) && e in live && e.sequence > last
    ensures e.sequence in Sequences(Forward(last, live))
    decreases |live|
  {
    var f, rest := live[0], live[1..];
    var high := if f.sequence > last then f.sequence else last;
    var tail := Forward(high, rest);
    assert ([Sent(f)] + tail)[1..] == tail;
    if e.sequence > high || f.sequence <= last { SendsAllWithoutSync(high, rest, e); }
  }

  /** No false alarm: when the subscription delivers everything in order, everything that was not
      sent yet is sent, and the stream never asks for a resync. */
  lemma {:induction false} InOrderDeliversAll(last: nat, live: seq<Event>, first: nat)
    requires 1 <= first <= last + 1 && RunOf(Sequenced(live), first)
    ensures forall f :: f in Forward(last, live) ==> f.Sent?
    ensures var n := first + |Sequenced(live)| - 1; |Sequences(Forward(last, live))| == if n > last then n - last else 0
    decreases |live|
  {
    if live != [] {
      var e, rest := live[0], live[1..];
      if e.sequence > 0 {
        assert e == Sequenced(live)[0];
        forall k | 0 <= k < |Sequenced(rest)| ensures Sequenced(rest)[k].sequence == first + 1 + k {
          assert Sequenced(rest)[k] == Sequenced(live)[k + 1];
        }
        InOrderDeliversAll(if e.sequence > last then e.sequence else last, rest, first + 1);
      } else {
        InOrderDeliversAll(last, rest, first);
      }
      var after := Forward(if e.sequence > last then e.sequence else last, rest);
      assert ([Sent(e)] + after)[1..] == after;
    }
  }

  /** A whole stream without drops brings the client from its cursor to the newest event. */
  lemma ServeDeliversAll(c: nat, serverCursor: nat, replay: Option<seq<Event>>, live: seq<Event>, first: nat)
    requires c <= serverCursor && 1 <= first <= serverCursor + 1 && RunOf(Sequenced(live), first)
    requires c < serverCursor ==>
      replay.Some? && RunOf(replay.value, c + 1) && serverCursor <= c + |replay.value| < first + |Sequenced(live)|
    requires serverCursor < first + |Sequenced(live)|
    ensures var out := Serve(c, serverCursor, replay, live);
            && (forall f :: f in out ==> f.Sent?)
            && c + |Sequences(out)| == first + |Sequenced(live)| - 1
  {
    var (head, last) := Replayed(c, serverCursor, replay);
    InOrderDeliversAll(last.value, live, first);
    SequencesAppend(head, Forward(last.value, live));
    if c < serverCursor { SequencesOfRun(replay.value, c + 1); }
  }

  // ---------- what is written ----------

  /** Every event written was delivered or replayed. */
  lemma {:induction false} SentWasDelivered(last: int, live: seq<Event>, f: Frame)
    requires f in Forward(last, live) && f.Sent?
    ensures f.event in live
    decreases |live|
  {
    var e := live[0];
    if (e.sequence <= 0 || last <= 0 || e.sequence <= last + 1) && f != Sent(e) {
      SentWasDelivered(if e.sequence > 0 && e.sequence > last then e.sequence else last, live[1..], f);
    }
  }

  function EventsOf(out: seq<Frame>): seq<Event> {
    if out == [] then []
    else if out[0].Sent? then [out[0].event] + EventsOf(out[1..])
    else EventsOf(out[1..])
  }

  /** Unsequenced ticks pass through untouched and in order as long as the stream lives. */
  lemma {:induction false} TicksPassThrough(last: int, live: seq<Event>)
    requires !EndsInSync(Forward(last, live))
    ensures Ticks(EventsOf(Forward(last, live))) == Ticks(live)
    decreases |live|
  {
    if live != [] {
      var e, rest := live[0], live[1..];
      var high := if e.sequence > last then e.sequence else last;
      if e.sequence <= 0 {
        TicksPassThrough(last, rest);
        assert ([Sent(e)] + Forward(last, rest))[1..] == Forward(last, rest);
      } else {
        TicksPassThrough(high, rest);
        assert ([Sent(e)] + Forward(high, rest))[1..] == Forward(high, rest);
      }
    }
  }
}
