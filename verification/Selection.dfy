/** Torrent file selection, from validation to dispatch: StartTorrentWithPolicy and
    calculatePersistedSelectedTorrentBytes in internal/job/manager.go, and the selection part of
    the transaction in internal/database/torrent_repository.go. */
module Selection {
  datatype FilePriority = Skip | Normal | High | Maximum | Other(text: string)

  datatype EngineFile = EngineFile(index: int, size: int)

  datatype Choice = Choice(index: int, priority: FilePriority)

  /** A torrent_files row of the job. */
  datatype Row = Row(index: int, size: int, selected: bool, priority: FilePriority)

  datatype Error =
    | EngineError | InvalidRequest | NoFilesSelected          // at the start
    | NoRows | Inconsistent | NothingToDownload               // at dispatch, besides NoFilesSelected

  datatype Result<T> = Ok(value: T) | Err(error: Error)

  predicate ValidPriority(p: FilePriority) { !p.Other? }

  // ---------- what an acceptable selection is ----------

  predicate Names(choices: seq<Choice>, index: int) {
    exists k :: 0 <= k < |choices| && choices[k].index == index
  }

  predicate Offers(files: seq<EngineFile>, index: int) {
    exists k :: 0 <= k < |files| && files[k].index == index
  }

  predicate NoRepeats(choices: seq<Choice>) {
    forall i, k :: 0 <= i < k < |choices| ==> choices[i].index != choices[k].index
  }

  predicate Acceptable(files: seq<EngineFile>, choices: seq<Choice>) {
    && files != [] && |choices| == |files|
    && (forall k :: 0 <= k < |choices| ==> Offers(files, choices[k].index) && ValidPriority(choices[k].priority))
    && NoRepeats(choices)
    && exists k :: 0 <= k < |choices| && choices[k].priority != Skip
  }

  function IndexSet(choices: seq<Choice>): (s: set<int>)
    ensures forall i :: i in s <==> Names(choices, i)
  {
    set k | 0 <= k < |choices| :: choices[k].index
  }

  function FileSet(files: seq<EngineFile>): (s: set<int>)
    ensures forall i :: i in s <==> Offers(files, i)
  {
    set k | 0 <= k < |files| :: files[k].index
  }

  predicate Distinct(ids: seq<int>) {
    forall i, k :: 0 <= i < k < |ids| ==> ids[i] != ids[k]
  }

  function IdSet(ids: seq<int>): set<int> { set i | i in ids }

  lemma {:induction false} IdSetCount(ids: seq<int>)
    ensures |IdSet(ids)| <= |ids|
    ensures |IdSet(ids)| == |ids| <==> Distinct(ids)
  {
    if ids == [] {
      assert IdSet(ids) == {};
    } else {
      var init, last := ids[..|ids| - 1], ids[|ids| - 1];
      IdSetCount(init);
      assert ids == init + [last];
      assert IdSet(ids) == IdSet(init) + {last};
      if last in init {
        var k :| 0 <= k < |init| && init[k] == last;
        assert IdSet(ids) == IdSet(init);
        assert ids[k] == ids[|ids| - 1];
      }
    }
  }

  function ChoiceIds(choices: seq<Choice>): (ids: seq<int>)
    ensures |ids| == |choices|
  {
    seq(|choices|, k requires 0 <= k < |choices| => choices[k].index)
  }

  function FileIds(files: seq<EngineFile>): (ids: seq<int>)
    ensures |ids| == |files|
  {
    seq(|files|, k requires 0 <= k < |files| => files[k].index)
  }

  lemma NoRepeatsCount(choices: seq<Choice>)
    requires NoRepeats(choices)
    ensures |IndexSet(choices)| == |choices|
  {
    var ids := ChoiceIds(choices);
    IdSetCount(ids);
    forall i ensures i in IdSet(ids) <==> i in IndexSet(choices) {
      if Names(choices, i) {
        var k :| 0 <= k < |choices| && choices[k].index == i;
        assert ids[k] == i;
      }
    }
    assert IdSet(ids) == IndexSet(choices);
  }

  lemma FileSetCount(files: seq<EngineFile>)
    ensures |FileSet(files)| <= |files|
    ensures |FileSet(files)| == |files| ==> forall i, k :: 0 <= i < k < |files| ==> files[i].index != files[k].index
  {
    var ids := FileIds(files);
    IdSetCount(ids);
    forall i ensures i in IdSet(ids) <==> i in FileSet(files) {
      if Offers(files, i) {
        var k :| 0 <= k < |files| && files[k].index == i;
        assert ids[k] == i;
      }
    }
    assert IdSet(ids) == FileSet(files);
    if |FileSet(files)| == |files| {
      forall i, k | 0 <= i < k < |files| ensures files[i].index != files[k].index { assert ids[i] != ids[k]; }
    }
  }

  lemma SubsetSameSize(a: set<int>, b: set<int>)
    requires a <= b && |b| <= |a|
    ensures a == b
  {
    assert |b - a| == |b| - |a|;
  }

  /** An acceptable selection names every file exactly once. */
  lemma AcceptedIsPermutation(files: seq<EngineFile>, choices: seq<Choice>)
    requires Acceptable(files, choices)
    ensures IndexSet(choices) == FileSet(files) && NoRepeats(choices)
    ensures forall i, k :: 0 <= i < k < |files| ==> files[i].index != files[k].index
  {
    NoRepeatsCount(choices);
    FileSetCount(files);
    assert IndexSet(choices) <= FileSet(files) by {
      forall i | Names(choices, i) ensures Offers(files, i) {
        var k :| 0 <= k < |choices| && choices[k].index == i;
      }
    }
    SubsetSameSize(IndexSet(choices), FileSet(files));
  }

  /** The validation of StartTorrentWithPolicy. */
  method ValidateSelection(files: seq<EngineFile>, choices: seq<Choice>) returns (r: Result<()>)
    ensures r.Ok? <==> Acceptable(files, choices)
    ensures r == Err(EngineError) <==> files == []
    ensures r == Err(NoFilesSelected) ==> files != [] && forall k :: 0 <= k < |choices| ==> choices[k].priority == Skip
  {
    if files == [] { return Err(EngineError); }
    var valid := FileSet(files);
    if |choices| != |files| { return Err(InvalidRequest); }
    var seen: set<int> := {};
    var hasSelected := false;
    var n := 0;
    while n < |choices|
      invariant 0 <= n <= |choices|
      invariant seen == IndexSet(choices[..n]) && NoRepeats(choices[..n])
      invariant forall k :: 0 <= k < n ==> Offers(files, choices[k].index) && ValidPriority(choices[k].priority)
      invariant hasSelected <==> exists k :: 0 <= k < n && choices[k].priority != Skip
    {
      var s := choices[n];
      if s.index !in valid { return Err(InvalidRequest); }
      if s.index in seen {
        RepeatFound(choices, n);
        return Err(InvalidRequest);
      }
      SeenGrows(choices, n);
      seen := seen + {s.index};
      if !ValidPriority(s.priority) { return Err(InvalidRequest); }
      if s.priority != Skip { hasSelected := true; }
      n := n + 1;
    }
    assert choices[..n] == choices;
    NoRepeatsCount(choices);
    if |seen| != |files| { return Err(InvalidRequest); }
    if !hasSelected { return Err(NoFilesSelected); }
    r := Ok(());
  }

  lemma RepeatFound(choices: seq<Choice>, n: nat)
    requires n < |choices| && choices[n].index in IndexSet(choices[..n])
    ensures !NoRepeats(choices)
  {
    var k :| 0 <= k < n && choices[..n][k].index == choices[n].index;
    assert choices[k].index == choices[n].index;
  }

  lemma SeenGrows(choices: seq<Choice>, n: nat)
    requires n < |choices| && NoRepeats(choices[..n]) && choices[n].index !in IndexSet(choices[..n])
    ensures IndexSet(choices[..n + 1]) == IndexSet(choices[..n]) + {choices[n].index}
    ensures NoRepeats(choices[..n + 1])
  {
    var a, b := choices[..n], choices[..n + 1];
    forall k | 0 <= k < n ensures b[k] == a[k] && Names(a, b[k].index) {}
    forall i | Names(b, i) ensures Names(a, i) || i == choices[n].index {
      var k :| 0 <= k < |b| && b[k].index == i;
      assert k < n ==> a[k].index == i;
    }
    forall i | Names(a, i) ensures Names(b, i) {
      var k :| 0 <= k < |a| && a[k].index == i;
      assert b[k].index == i;
    }
    assert b[n].index == choices[n].index;
  }

  // ---------- sizes and totals ----------

  /** fileSizeMap. */
  function SizeMap(files: seq<EngineFile>): map<int, int> {
    if files == [] then map[] else SizeMap(files[..|files| - 1])[files[|files| - 1].index := files[|files| - 1].size]
  }

  lemma {:induction false} SizeMapKeys(files: seq<EngineFile>, i: int)
    ensures i in SizeMap(files) <==> Offers(files, i)
  {
    if files != [] {
      var init := files[..|files| - 1];
      SizeMapKeys(init, i);
      if Offers(files, i) {
        var k :| 0 <= k < |files| && files[k].index == i;
        assert k < |init| ==> init[k].index == i;
      }
      if Offers(init, i) {
        var k :| 0 <= k < |init| && init[k].index == i;
        assert files[k].index == i;
      }
    }
  }

  /** The bytes of one choice. */
  function ChoiceBytes(sizes: map<int, int>, c: Choice): int {
    if c.priority == Skip || c.index !in sizes then 0 else sizes[c.index]
  }

  function SelectedBytes(sizes: map<int, int>, choices: seq<Choice>): int {
    if choices == [] then 0
    else SelectedBytes(sizes, choices[..|choices| - 1]) + ChoiceBytes(sizes, choices[|choices| - 1])
  }

  /** The selectedBytes loop of StartTorrentWithPolicy. */
  method SumSelectedBytes(sizes: map<int, int>, choices: seq<Choice>) returns (total: int)
    ensures total == SelectedBytes(sizes, choices)
  {
    total := 0;
    var n := 0;
    while n < |choices|
      invariant 0 <= n <= |choices| && total == SelectedBytes(sizes, choices[..n])
    {
      assert choices[..n + 1][..n] == choices[..n];
      if choices[n].priority != Skip {
        total := total + (if choices[n].index in sizes then sizes[choices[n].index] else 0);
      }
      n := n + 1;
    }
    assert choices[..n] == choices;
  }

  // ---------- persistence ----------

  predicate DistinctRows(rows: seq<Row>) {
    forall i, k :: 0 <= i < k < |rows| ==> rows[i].index != rows[k].index
  }

  predicate HasRow(rows: seq<Row>, index: int) {
    exists k :: 0 <= k < |rows| && rows[k].index == index
  }

  /** UPDATE torrent_files SET selected, priority WHERE file_index. */
  function UpdateRows(rows: seq<Row>, c: Choice): (r: seq<Row>)
    ensures |r| == |rows|
    ensures forall k :: 0 <= k < |r| ==> r[k].index == rows[k].index && r[k].size == rows[k].size
  {
    seq(|rows|, k requires 0 <= k < |rows| =>
      if rows[k].index == c.index then rows[k].(selected := c.priority != Skip, priority := c.priority) else rows[k])
  }

  /** row carries choice c. */
  predicate Carries(row: Row, c: Choice) {
    row.index == c.index && row.selected == (c.priority != Skip) && row.priority == c.priority
  }

  /** The selection part of PersistTorrentSelectionAndEnqueue: all rows or none. */
  method PersistSelection(rows: seq<Row>, choices: seq<Choice>) returns (ok: bool, after: seq<Row>)
    requires DistinctRows(rows) && NoRepeats(choices)
    ensures ok <==> forall k :: 0 <= k < |choices| ==> HasRow(rows, choices[k].index)
    ensures !ok ==> after == rows
    ensures ok ==> |after| == |rows| && forall k :: 0 <= k < |rows| ==> Persisted(rows[k], after[k], choices)
  {
    after := rows;
    var n := 0;
    while n < |choices|
      invariant 0 <= n <= |choices| && |after| == |rows|
      invariant forall k :: 0 <= k < n ==> HasRow(rows, choices[k].index)
      invariant forall k :: 0 <= k < |rows| ==> Persisted(rows[k], after[k], choices[..n])
    {
      var c := choices[n];
      if !HasRow(rows, c.index) { return false, rows; }
      forall k | 0 <= k < |rows| ensures Persisted(rows[k], UpdateRows(after, c)[k], choices[..n + 1]) {
        PersistedGrows(rows[k], after[k], choices, n);
      }
      after := UpdateRows(after, c);
      n := n + 1;
    }
    assert choices[..n] == choices;
    ok := true;
  }

  /** row is what became of was: the choice for its index, or nothing new. */
  predicate Persisted(was: Row, row: Row, choices: seq<Choice>) {
    && row.index == was.index && row.size == was.size
    && (forall i :: 0 <= i < |choices| && choices[i].index == was.index ==> Carries(row, choices[i]))
    && (!Names(choices, was.index) ==> row == was)
  }

  lemma PersistedGrows(was: Row, row: Row, choices: seq<Choice>, n: nat)
    requires n < |choices| && NoRepeats(choices) && Persisted(was, row, choices[..n])
    ensures Persisted(was, UpdateRows([row], choices[n])[0], choices[..n + 1])
  {
    var a, b := choices[..n], choices[..n + 1];
    forall i | 0 <= i < |b| && b[i].index == was.index ensures Carries(UpdateRows([row], choices[n])[0], b[i]) {
      if i < n { assert a[i] == choices[i]; }
    }
    if Names(a, was.index) {
      var k :| 0 <= k < |a| && a[k].index == was.index;
      assert b[k].index == was.index;
    }
    assert b[n] == choices[n];
  }

  // ---------- dispatch ----------

  function RowBytes(row: Row): int { if row.selected then row.size else 0 }

  function PersistedBytes(rows: seq<Row>): int {
    if rows == [] then 0 else PersistedBytes(rows[..|rows| - 1]) + RowBytes(rows[|rows| - 1])
  }

  predicate Consistent(row: Row) { row.selected <==> row.priority != Skip }

  /** calculatePersistedSelectedTorrentBytes. */
  method CalculatePersistedBytes(rows: seq<Row>) returns (r: Result<int>)
    ensures r.Ok? <==>
      && (forall k :: 0 <= k < |rows| ==> Consistent(rows[k]))
      && (exists k :: 0 <= k < |rows| && rows[k].selected)
      && PersistedBytes(rows) > 0
    ensures r.Ok? ==> r.value == PersistedBytes(rows)
    ensures r == Err(Inconsistent) <==> exists k :: 0 <= k < |rows| && !Consistent(rows[k])
    ensures r == Err(NothingToDownload) ==> PersistedBytes(rows) <= 0
    ensures (exists k :: 0 <= k < |rows| && rows[k].selected) ==> r != Err(NoFilesSelected) && r != Err(NoRows)
    ensures r.Err? ==> r.error in {NoRows, Inconsistent, NoFilesSelected, NothingToDownload}
  {
    if rows == [] { return Err(NoRows); }
    var total := 0;
    var hasSelected := false;
    var n := 0;
    while n < |rows|
      invariant 0 <= n <= |rows| && total == PersistedBytes(rows[..n])
      invariant forall k :: 0 <= k < n ==> Consistent(rows[k])
      invariant hasSelected <==> exists k :: 0 <= k < n && rows[k].selected
    {
      var f := rows[n];
      assert rows[..n + 1][..n] == rows[..n];
      var isSkip := f.priority == Skip;
      if !f.selected && !isSkip { return Err(Inconsistent); }
      if f.selected && isSkip { return Err(Inconsistent); }
      if f.selected && !isSkip {
        total := total + f.size;
        hasSelected := true;
      }
      n := n + 1;
    }
    assert rows[..n] == rows;
    if !hasSelected { return Err(NoFilesSelected); }
    if total <= 0 { return Err(NothingToDownload); }
    r := Ok(total);
  }

  // ---------- conservation ----------

  /** The bytes the choices ask for of file i. */
  function BytesOf(sizes: map<int, int>, choices: seq<Choice>, i: int): int {
    if choices == [] then 0
    else if choices[|choices| - 1].index == i then ChoiceBytes(sizes, choices[|choices| - 1])
    else BytesOf(sizes, choices[..|choices| - 1], i)
  }

  lemma {:induction false} BytesOfChoice(sizes: map<int, int>, choices: seq<Choice>, k: nat)
    requires k < |choices| && NoRepeats(choices)
    ensures BytesOf(sizes, choices, choices[k].index) == ChoiceBytes(sizes, choices[k])
  {
    if k < |choices| - 1 { BytesOfChoice(sizes, choices[..|choices| - 1], k); }
  }

  function Sum(sizes: map<int, int>, choices: seq<Choice>, ids: seq<int>): int {
    if ids == [] then 0 else Sum(sizes, choices, ids[..|ids| - 1]) + BytesOf(sizes, choices, ids[|ids| - 1])
  }

  lemma {:induction false} SumWithout(sizes: map<int, int>, choices: seq<Choice>, ids: seq<int>, k: nat)
    requires k < |ids|
    ensures Sum(sizes, choices, ids) == Sum(sizes, choices, ids[..k] + ids[k + 1..]) + BytesOf(sizes, choices, ids[k])
  {
    var rest := ids[..k] + ids[k + 1..];
    if k == |ids| - 1 {
      assert rest == ids[..k];
    } else {
      var init := ids[..|ids| - 1];
      SumWithout(sizes, choices, init, k);
      assert rest[..|rest| - 1] == init[..k] + init[k + 1..];
    }
  }

  /** The order in which files are summed up does not matter. */
  lemma {:induction false} SumOfSameFiles(sizes: map<int, int>, choices: seq<Choice>, a: seq<int>, b: seq<int>)
    requires Distinct(a) && Distinct(b) && (forall i :: i in a <==> i in b)
    ensures Sum(sizes, choices, a) == Sum(sizes, choices, b)
    decreases |a|
  {
    if a == [] {
      IdSetCount(b);
      assert IdSet(b) == {};
    } else {
      var x := a[|a| - 1];
      assert x in a && x in b;
      var k :| 0 <= k < |b| && b[k] == x;
      var a1, b1 := a[..|a| - 1], b[..k] + b[k + 1..];
      SumWithout(sizes, choices, b, k);
      forall i | i in a1 ensures i in b1 {
        assert i in a && i in b;
        var n :| 0 <= n < |b| && b[n] == i;
        assert n != k;
        assert n < k ==> b1[n] == i;
        assert n > k ==> b1[n - 1] == i;
      }
      forall i | i in b1 ensures i in a1 {
        assert i in b && i != x;
      }
      SumOfSameFiles(sizes, choices, a1, b1);
    }
  }

  function RowIds(rows: seq<Row>): (ids: seq<int>)
    ensures |ids| == |rows|
  {
    seq(|rows|, k requires 0 <= k < |rows| => rows[k].index)
  }

  lemma {:induction false} SelectedIsSum(sizes: map<int, int>, all: seq<Choice>, n: nat)
    requires n <= |all| && NoRepeats(all)
    ensures SelectedBytes(sizes, all[..n]) == Sum(sizes, all, ChoiceIds(all[..n]))
  {
    if n > 0 {
      SelectedIsSum(sizes, all, n - 1);
      assert all[..n][..n - 1] == all[..n - 1];
      assert ChoiceIds(all[..n])[..n - 1] == ChoiceIds(all[..n - 1]);
      BytesOfChoice(sizes, all, n - 1);
    }
  }

  lemma {:induction false} PersistedIsSum(sizes: map<int, int>, choices: seq<Choice>, rows: seq<Row>)
    requires forall k :: 0 <= k < |rows| ==> RowBytes(rows[k]) == BytesOf(sizes, choices, rows[k].index)
    ensures PersistedBytes(rows) == Sum(sizes, choices, RowIds(rows))
  {
    if rows != [] {
      var init := rows[..|rows| - 1];
      PersistedIsSum(sizes, choices, init);
      assert RowIds(rows)[..|rows| - 1] == RowIds(init);
    }
  }

  /** The job's rows describe exactly the engine's files, with the engine's sizes. */
  ghost predicate RowsMatch(files: seq<EngineFile>, rows: seq<Row>) {
    && DistinctRows(rows)
    && (forall i :: HasRow(rows, i) <==> Offers(files, i))
    && (forall k :: 0 <= k < |rows| && rows[k].index in SizeMap(files)
          ==> rows[k].size == SizeMap(files)[rows[k].index])
  }

  /** Selected bytes are conserved from the request to the persisted rows, whatever the order of
      either. */
  lemma BytesConserved(files: seq<EngineFile>, choices: seq<Choice>, rows: seq<Row>, after: seq<Row>)
    requires Acceptable(files, choices) && RowsMatch(files, rows)
    requires |after| == |rows| && forall k :: 0 <= k < |rows| ==> Persisted(rows[k], after[k], choices)
    ensures PersistedBytes(after) == SelectedBytes(SizeMap(files), choices)
    ensures forall k :: 0 <= k < |after| ==> Consistent(after[k])
    ensures exists k :: 0 <= k < |after| && after[k].selected
  {
    var sizes := SizeMap(files);
    forall k | 0 <= k < |after|
      ensures Consistent(after[k]) && RowBytes(after[k]) == BytesOf(sizes, choices, after[k].index)
    {
      RowCarriesChoice(files, choices, rows, after, k);
    }
    SameIds(files, choices, rows, after);
    SelectedIsSum(sizes, choices, |choices|);
    assert choices[..|choices|] == choices;
    PersistedIsSum(sizes, choices, after);
    SumOfSameFiles(sizes, choices, ChoiceIds(choices), RowIds(after));
    SomeSelected(choices, rows, after);
  }

  lemma RowCarriesChoice(files: seq<EngineFile>, choices: seq<Choice>, rows: seq<Row>, after: seq<Row>, k: nat)
    requires Acceptable(files, choices) && RowsMatch(files, rows)
    requires |after| == |rows| && k < |rows| && Persisted(rows[k], after[k], choices)
    ensures Consistent(after[k]) && RowBytes(after[k]) == BytesOf(SizeMap(files), choices, after[k].index)
  {
    AcceptedIsPermutation(files, choices);
    assert HasRow(rows, rows[k].index);
    assert rows[k].index in IndexSet(choices);
    var i :| 0 <= i < |choices| && choices[i].index == rows[k].index;
    assert Carries(after[k], choices[i]);
    BytesOfChoice(SizeMap(files), choices, i);
    SizeMapKeys(files, rows[k].index);
  }

  lemma SameIds(files: seq<EngineFile>, choices: seq<Choice>, rows: seq<Row>, after: seq<Row>)
    requires Acceptable(files, choices) && RowsMatch(files, rows)
    requires |after| == |rows| && forall k :: 0 <= k < |rows| ==> after[k].index == rows[k].index
    ensures Distinct(ChoiceIds(choices)) && Distinct(RowIds(after))
    ensures forall i :: i in ChoiceIds(choices) <==> i in RowIds(after)
    ensures forall i :: Names(choices, i) ==> HasRow(rows, i)
  {
    AcceptedIsPermutation(files, choices);
    forall i | Names(choices, i) ensures HasRow(rows, i) {
      assert i in IndexSet(choices);
    }
    forall i | i in ChoiceIds(choices) ensures i in RowIds(after) {
      assert Names(choices, i);
      var k :| 0 <= k < |rows| && rows[k].index == i;
      assert RowIds(after)[k] == i;
    }
    forall i | i in RowIds(after) ensures i in ChoiceIds(choices) {
      assert HasRow(rows, i);
      assert i in IndexSet(choices);
      var n :| 0 <= n < |choices| && choices[n].index == i;
      assert ChoiceIds(choices)[n] == i;
    }
  }

  lemma SomeSelected(choices: seq<Choice>, rows: seq<Row>, after: seq<Row>)
    requires |after| == |rows| && forall k :: 0 <= k < |rows| ==> Persisted(rows[k], after[k], choices)
    requires forall i :: Names(choices, i) ==> HasRow(rows, i)
    requires exists i :: 0 <= i < |choices| && choices[i].priority != Skip
    ensures exists k :: 0 <= k < |after| && after[k].selected
  {
    var i :| 0 <= i < |choices| && choices[i].priority != Skip;
    assert Names(choices, choices[i].index);
    var k :| 0 <= k < |rows| && rows[k].index == choices[i].index;
    assert Carries(after[k], choices[i]);
  }

  /** Start, persist, dispatch.  An accepted selection is dispatched with exactly the total it was
      accepted with; the one selection that is accepted and then refused is the one of no bytes. */
  method StartThenDispatch(files: seq<EngineFile>, choices: seq<Choice>, rows: seq<Row>)
    returns (started: Result<int>, dispatched: Result<int>, after: seq<Row>)
    requires RowsMatch(files, rows)
    ensures started.Ok? <==> Acceptable(files, choices)
    ensures started.Err? ==> after == rows && dispatched == started
    ensures started.Ok? ==> started.value == SelectedBytes(SizeMap(files), choices)
    ensures started.Ok? ==> |after| == |rows| && forall k :: 0 <= k < |rows| ==> Persisted(rows[k], after[k], choices)
    ensures started.Ok? ==> dispatched == if started.value > 0 then started else Err(NothingToDownload)
  {
    after := rows;
    var valid := ValidateSelection(files, choices);
    if valid.Err? {
      started := Err(valid.error);
      return started, started, rows;
    }
    AcceptedIsPermutation(files, choices);
    forall k | 0 <= k < |choices| ensures HasRow(rows, choices[k].index) {
      assert Offers(files, choices[k].index);
    }
    var total := SumSelectedBytes(SizeMap(files), choices);
    var ok: bool;
    ok, after := PersistSelection(rows, choices);
    BytesConserved(files, choices, rows, after);
    dispatched := CalculatePersistedBytes(after);
    started := Ok(total);
  }

  /** The clash, concretely: one empty file, selected. */
  lemma EmptySelectionAccepted()
    ensures var files, choices := [EngineFile(0, 0)], [Choice(0, Normal)];
            Acceptable(files, choices) && SelectedBytes(SizeMap(files), choices) == 0
  {
    var files, choices := [EngineFile(0, 0)], [Choice(0, Normal)];
    assert files[0].index == 0 && choices[0].priority != Skip;
    assert Offers(files, 0);
    assert choices[..0] == [];
    assert files[..0] == [];
    assert SizeMap(files) == map[0 := 0];
  }
}
