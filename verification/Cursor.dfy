/** The durable event cursor: AdvanceEventCursor of internal/database/execution_repository.go
    and of internal/job/manager.go, with its in-memory fallback. */
module Cursor {
  import opened Text
  import opened Events

  /** How one transaction of the retry loop ends. */
  datatype Attempt = Committed | Busy | Broken

  const MAX_ATTEMPTS := 5

  /** The loop gets through: a commit comes before any other error and within five attempts. */
  predicate GetsThrough(attempts: nat -> Attempt) {
    exists k: nat :: k < 5 && attempts(k) == Committed && forall i: nat :: i < k ==> attempts(i) == Busy
  }

  class EventCursor {
    /** The row of scope "global", if there is one yet. */
    var row: Option<int>
    var fallback: int

    constructor ()
      ensures row == None && fallback == 0
    {
      row, fallback := None, 0;
    }

    function Durable(): int reads this { if row.Some? then row.value else 0 }

    /** SQLiteExecutionRepository.AdvanceEventCursor: read, add one, write, retried while busy. */
    method AdvanceRow(attempts: nat -> Attempt) returns (r: Option<int>)
      modifies this
      ensures fallback == old(fallback)
      ensures r.Some? <==> GetsThrough(attempts)
      ensures r.Some? ==> r.value == (if old(row).Some? then old(row).value else 0) + 1 && row == r
      ensures r == None ==> row == old(row)
    {
      var attempt := 0;
      while attempt < MAX_ATTEMPTS
        invariant 0 <= attempt <= MAX_ATTEMPTS
        invariant row == old(row) && fallback == old(fallback)
        invariant forall i: nat :: i < attempt ==> attempts(i) == Busy
      {
        match attempts(attempt) {
          case Committed =>
            row := Some(Durable() + 1);
            return row;
          case Broken => return None;
          case Busy =>
        }
        attempt := attempt + 1;
      }
      r := None;
    }

    /** Manager.AdvanceEventCursor: when the row cannot be advanced, a counter in memory is. */
    method AdvanceEventCursor(attempts: nat -> Attempt) returns (s: int)
      modifies this
      ensures (s, Durable(), fallback) == Next(GetsThrough(attempts), old(Durable()), old(fallback))
    {
      var durable := AdvanceRow(attempts);
      if durable.Some? { return durable.value; }
      fallback := fallback + 1;
      s := fallback;
    }
  }

  /** The number issued, and both counters after it. */
  function Next(ok: bool, durable: int, fallback: int): (int, int, int) {
    if ok then (durable + 1, durable + 1, fallback) else (fallback + 1, durable, fallback + 1)
  }

  /** The numbers a run of advances issues; run says which of them got through. */
  function Issued(run: seq<bool>, durable: int, fallback: int): seq<int>
    decreases |run|
  {
    if run == [] then []
    else
      var (s, d, f) := Next(run[0], durable, fallback);
      [s] + Issued(run[1..], d, f)
  }

  predicate Always(run: seq<bool>, ok: bool) {
    forall k :: 0 <= k < |run| ==> run[k] == ok
  }

  lemma {:induction false} IssuedWhileSame(run: seq<bool>, ok: bool, durable: int, fallback: int)
    requires Always(run, ok)
    ensures |Issued(run, durable, fallback)| == |run|
    ensures Consecutive(Issued(run, durable, fallback), if ok then durable + 1 else fallback + 1)
    decreases |run|
  {
    if run != [] {
      var (s, d, f) := Next(run[0], durable, fallback);
      IssuedWhileSame(run[1..], ok, d, f);
    }
  }

  /** While one counter is in use the other stands still, and shows at the first switch. */
  lemma {:induction false} IssuedAtSwitch(run: seq<bool>, k: nat, durable: int, fallback: int)
    requires 0 < k < |run| && run[k] != run[0] && Always(run[..k], run[0])
    ensures |Issued(run, durable, fallback)| > k
    ensures Issued(run, durable, fallback)[k] == (if run[0] then fallback else durable) + 1
    decreases k
  {
    var (s, d, f) := Next(run[0], durable, fallback);
    var rest := run[1..];
    var (s1, d1, f1) := Next(rest[0], d, f);
    if k > 1 {
      assert run[..k][1] == run[1] && rest[..k - 1] == run[..k][1..];
      IssuedAtSwitch(rest, k - 1, d, f);
    }
  }

  /** From the start of a process, events are numbered without gap or repetition exactly when every
      advance gets through to the database, or when none does and the database is empty. */
  lemma IssuedConsecutively(run: seq<bool>, durable: nat)
    requires run != []
    ensures Consecutive(Issued(run, durable, 0), durable + 1) <==>
      Always(run, true) || (durable == 0 && Always(run, false))
  {
    if Always(run, true) {
      IssuedWhileSame(run, true, durable, 0);
    } else if Always(run, false) {
      IssuedWhileSame(run, false, durable, 0);
      assert Issued(run, durable, 0)[0] == 1;
    } else {
      var k := FirstSwitch(run);
      IssuedAtSwitch(run, k, durable, 0);
      assert Issued(run, durable, 0)[0] == (if run[0] then durable else 0) + 1;
    }
  }

  lemma FirstSwitch(run: seq<bool>) returns (k: nat)
    requires !Always(run, true) && !Always(run, false)
    ensures 0 < k < |run| && Always(run[..k], run[0]) && run[k] != run[0]
  {
    k := 1;
    while run[k] == run[0]
      invariant 1 <= k < |run| && Always(run[..k], run[0])
      invariant exists i :: k <= i < |run| && run[i] != run[0]
      decreases |run| - k
    {
      k := k + 1;
    }
  }
}
