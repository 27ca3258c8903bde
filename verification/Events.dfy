/** The event bus and its bounded replay buffer: internal/events/bus.go. */
module Events {
  import opened Text
  import opened Jobs

  /** What a client sees of a job.  updatedAt is in milliseconds, None if it does not parse. */
  datatype JobView = JobView(id: JobId, updatedAt: Option<int>, body: string)

  /** JobPayload stands for the two types whose events carry a payload in place of the job. */
  datatype EventKind = JobUpdated | JobDeleted | JobPayload

  datatype Event = Event(sequence: int, kind: EventKind, job: JobView)

  const DEFAULT_CAPACITY := 256
  const CHANNEL_CAPACITY := 64

  /** es are numbered first, first + 1, ... */
  predicate RunOf(es: seq<Event>, first: int) {
    forall k :: 0 <= k < |es| ==> es[k].sequence == first + k
  }

  /** s counts up from first. */
  predicate Consecutive(s: seq<int>, first: int) {
    forall k :: 0 <= k < |s| ==> s[k] == first + k
  }

  /** The last n of s, or all of it. */
  function LastOf<T>(s: seq<T>, n: nat): (r: seq<T>)
    ensures |r| == if |s| <= n then |s| else n
    ensures forall k :: 0 <= k < |r| ==> r[k] == s[|s| - |r| + k]
  {
    if |s| <= n then s else s[|s| - n..]
  }

  /** i is the first place in es that carries sequence s. */
  predicate FirstAt(es: seq<Event>, s: int, i: nat) {
    i < |es| && es[i].sequence == s && forall k :: 0 <= k < i ==> es[k].sequence != s
  }

  /** Exactly when the buffer can bring a client from cursor to its newest event. */
  ghost predicate Bridges(es: seq<Event>, cursor: int) {
    && es != []
    && (cursor == es[|es| - 1].sequence
        || (es[0].sequence - 1 <= cursor < es[|es| - 1].sequence
            && exists i: nat :: FirstAt(es, cursor + 1, i) && RunOf(es[i..], cursor + 1)))
  }

  /** When events were pushed in sequence order, the buffer bridges every cursor from just before
      its oldest event to its newest. */
  lemma BridgesInOrder(es: seq<Event>, cursor: int)
    requires es != [] && RunOf(es, es[0].sequence)
    ensures Bridges(es, cursor) <==> es[0].sequence - 1 <= cursor <= es[|es| - 1].sequence
  {
    if es[0].sequence - 1 <= cursor < es[|es| - 1].sequence {
      var i: nat := cursor + 1 - es[0].sequence;
      assert FirstAt(es, cursor + 1, i);
      assert RunOf(es[i..], cursor + 1);
    }
  }

  class ReplayBuffer {
    const slots: array<Event>
    var len: nat
    /** Every sequenced event pushed so far. */
    ghost var pushed: seq<Event>

    ghost predicate Valid() reads this, slots {
      && slots.Length > 0
      && len <= slots.Length
      && slots[..len] == LastOf(pushed, slots.Length)
      && forall e :: e in pushed ==> e.sequence > 0
    }

    constructor (capacity: int)
      ensures Valid() && pushed == [] && fresh(slots)
      ensures slots.Length == if capacity <= 0 then 256 else capacity
    {
      var n := if capacity <= 0 then DEFAULT_CAPACITY else capacity;
      slots := new Event[n](_ => Event(0, JobUpdated, JobView("", None, "")));
      len, pushed := 0, [];
    }

    /** Appends, or shifts everything one place down in the same array. */
    method Push(e: Event)
      requires Valid()
      modifies this, slots
      ensures Valid()
      ensures pushed == if e.sequence <= 0 then old(pushed) else old(pushed) + [e]
    {
      if e.sequence <= 0 { return; }
      LastOfGrows(pushed, e, slots.Length);
      if len >= slots.Length {
        ShiftIn(slots, e);
      } else {
        slots[len] := e;
        len := len + 1;
      }
      pushed := pushed + [e];
    }

    /** GetEventsAfter: the events that take a client from cursor to the newest one, or None. */
    method GetEventsAfter(cursor: int) returns (r: Option<seq<Event>>)
      requires Valid()
      ensures r.Some? <==> Bridges(LastOf(pushed, slots.Length), cursor)
      ensures r.Some? ==> RunOf(r.value, cursor + 1) && cursor + |r.value| == pushed[|pushed| - 1].sequence
      ensures r.Some? ==> |r.value| <= len && r.value == LastOf(pushed, |r.value|)
    {
      r := EventsAfter(slots[..len], cursor);
      if r.Some? { LastOfLast(pushed, slots.Length, |r.value|); }
    }
  }

  /** copy(events, events[1:]) in place, then the new event in the last slot. */
  method ShiftIn(slots: array<Event>, e: Event)
    requires slots.Length > 0
    modifies slots
    ensures slots[..] == old(slots[1..]) + [e]
  {
    var i := 0;
    while i < slots.Length - 1
      invariant 0 <= i <= slots.Length - 1
      invariant forall k :: 0 <= k < i ==> slots[k] == old(slots[k + 1])
      invariant forall k :: i <= k < slots.Length ==> slots[k] == old(slots[k])
    {
      slots[i] := slots[i + 1];
      i := i + 1;
    }
    slots[i] := e;
  }

  lemma LastOfLast<T>(s: seq<T>, n: nat, k: nat)
    requires k <= |LastOf(s, n)|
    ensures var l := LastOf(s, n); l[|l| - k..] == LastOf(s, k)
    ensures LastOf(s, n) != [] ==> s != [] && LastOf(s, n)[|LastOf(s, n)| - 1] == s[|s| - 1]
  {}

  lemma LastOfGrows<T>(s: seq<T>, e: T, n: nat)
    requires n > 0
    ensures LastOf(s + [e], n) == (if |s| < n then LastOf(s, n) else LastOf(s, n)[1..]) + [e]
  {}

  /** The search of GetEventsAfter, over the events it holds under its read lock. */
  method EventsAfter(es: seq<Event>, cursor: int) returns (r: Option<seq<Event>>)
    ensures r.Some? <==> Bridges(es, cursor)
    ensures r.Some? ==> RunOf(r.value, cursor + 1) && cursor + |r.value| == es[|es| - 1].sequence
    ensures r.Some? ==> |r.value| <= |es| && r.value == es[|es| - |r.value|..]
  {
    if es == [] { return None; }
    var oldest, newest := es[0].sequence, es[|es| - 1].sequence;
    if cursor == newest { return Some([]); }
    if cursor > newest { return None; }
    if cursor < oldest - 1 { return None; }
    var start := 0;
    while start < |es| && es[start].sequence != cursor + 1
      invariant 0 <= start <= |es|
      invariant forall k :: 0 <= k < start ==> es[k].sequence != cursor + 1
    {
      start := start + 1;
    }
    if start == |es| { return None; }
    var i := start;
    while i < |es| - 1
      invariant start <= i < |es|
      invariant forall k :: start <= k <= i ==> es[k].sequence == cursor + 1 + (k - start)
    {
      if es[i + 1].sequence != es[i].sequence + 1 {
        GapMeansNoBridge(es, cursor, start, i);
        return None;
      }
      i := i + 1;
    }
    SuffixBridges(es, cursor, start);
    r := Some(es[start..]);
  }

  lemma GapMeansNoBridge(es: seq<Event>, cursor: int, start: nat, i: nat)
    requires FirstAt(es, cursor + 1, start) && start <= i < |es| - 1
    requires es[i + 1].sequence != cursor + 1 + (i + 1 - start) && cursor != es[|es| - 1].sequence
    ensures !Bridges(es, cursor)
  {
    forall j: nat | FirstAt(es, cursor + 1, j) ensures !RunOf(es[j..], cursor + 1) {
      assert j == start;
      assert es[j..][i + 1 - j] == es[i + 1];
    }
  }

  lemma SuffixBridges(es: seq<Event>, cursor: int, start: nat)
    requires FirstAt(es, cursor + 1, start)
    requires forall k :: start <= k < |es| ==> es[k].sequence == cursor + 1 + (k - start)
    requires es[0].sequence - 1 <= cursor
    ensures Bridges(es, cursor) && RunOf(es[start..], cursor + 1)
  {
    assert RunOf(es[start..], cursor + 1);
    assert es[|es| - 1].sequence > cursor;
  }

  // ---------- the bus ----------

  /** A non-blocking send: a full channel drops the event. */
  function Offer(q: seq<Event>, e: Event): (r: seq<Event>)
    ensures |q| <= CHANNEL_CAPACITY ==> |r| <= CHANNEL_CAPACITY
    ensures q <= r
  {
    if |q| < CHANNEL_CAPACITY then q + [e] else q
  }

  class InMemoryBus {
    const replay: ReplayBuffer
    /** The undelivered events of every subscriber. */
    var channels: map<nat, seq<Event>>
    var next: nat

    ghost predicate Valid() reads this, replay, replay.slots {
      && replay.Valid()
      && forall id :: id in channels ==> id < next && |channels[id]| <= CHANNEL_CAPACITY
    }

    constructor (capacity: int)
      ensures Valid() && channels == map[] && replay.pushed == [] && fresh(replay) && fresh(replay.slots)
    {
      replay := new ReplayBuffer(capacity);
      channels, next := map[], 0;
    }

    method Subscribe() returns (id: nat)
      requires Valid()
      modifies this
      ensures Valid()
      ensures id !in old(channels) && channels == old(channels)[id := []]
    {
      id := next;
      channels, next := channels[id := []], next + 1;
    }

    method Unsubscribe(id: nat)
      requires Valid()
      modifies this
      ensures Valid()
      ensures channels == old(channels) - {id}
    {
      channels := channels - {id};
    }

    /** A sequenced event enters the replay buffer; every channel with room gets the event. */
    method Publish(e: Event)
      requires Valid()
      modifies this, replay, replay.slots
      ensures Valid()
      ensures replay.pushed == if e.sequence <= 0 then old(replay.pushed) else old(replay.pushed) + [e]
      ensures channels.Keys == old(channels).Keys
      ensures forall id :: id in channels ==>
        channels[id] == if |old(channels)[id]| < 64 then old(channels)[id] + [e] else old(channels)[id]
    {
      if e.sequence > 0 { replay.Push(e); }
      ghost var before := channels;
      var rest := channels.Keys;
      while rest != {}
        invariant Valid() && rest <= channels.Keys && channels.Keys == before.Keys
        invariant replay.pushed == if e.sequence <= 0 then old(replay.pushed) else old(replay.pushed) + [e]
        invariant forall id :: id in channels ==>
          channels[id] == if id in rest then before[id] else Offer(before[id], e)
        modifies this
        decreases rest
      {
        var id :| id in rest;
        rest := rest - {id};
        channels := channels[id := Offer(channels[id], e)];
      }
    }
  }
}
