/** Collision-free file names: SplitFilenameExt and the "base (n)ext" candidates of
    internal/storage/conflict.go, and the counter stripping of findRenamedArtifact in
    internal/job/finalization.go.  A name is a file name without separators; letter case is
    folded for ASCII only. */
module Names {
  import opened Text

  predicate HasSuffix(s: string, t: string) {
    |t| <= |s| && s[|s| - |t|..] == t
  }

  /** Where the last '.' of s is, or |s| if there is none. */
  function LastDot(s: string): (i: nat)
    ensures i <= |s|
    ensures i < |s| ==> s[i] == '.' && forall k :: i < k < |s| ==> s[k] != '.'
    ensures i == |s| ==> '.' !in s
  {
    if s == [] then 0
    else if s[|s| - 1] == '.' then |s| - 1
    else
      var p := s[..|s| - 1];
      assert s == p + [s[|s| - 1]];
      var i := LastDot(p);
      if i == |p| then |s| else i
  }

  const MULTI_EXTS: seq<string> := [".tar.gz", ".tar.bz2", ".tar.xz", ".tar.zst"]

  /** How many characters of f its extension takes. */
  function ExtLength(f: string): (n: nat)
    ensures n <= |f|
  {
    var lower := ToLower(f);
    if HasSuffix(lower, MULTI_EXTS[0]) then 7
    else if HasSuffix(lower, MULTI_EXTS[1]) then 8
    else if HasSuffix(lower, MULTI_EXTS[2]) then 7
    else if HasSuffix(lower, MULTI_EXTS[3]) then 8
    else |f| - LastDot(f)
  }

  function Base(f: string): string { f[..|f| - ExtLength(f)] }

  function Ext(f: string): string { f[|f| - ExtLength(f)..] }

  /** The four known double extensions in any letter case, or else everything from the last dot on. */
  lemma ExtExactly(f: string)
    ensures Base(f) + Ext(f) == f
    ensures var l := ToLower(f);
            && (HasSuffix(l, ".tar.gz") || HasSuffix(l, ".tar.xz") ==> |Ext(f)| == 7)
            && (HasSuffix(l, ".tar.bz2") || HasSuffix(l, ".tar.zst") ==> |Ext(f)| == 8)
            && (!HasSuffix(l, ".tar.gz") && !HasSuffix(l, ".tar.xz") && !HasSuffix(l, ".tar.bz2")
                && !HasSuffix(l, ".tar.zst") ==>
                  if '.' in f then Ext(f) != "" && Ext(f)[0] == '.' && '.' !in Ext(f)[1..] else Ext(f) == "")
  {
    var l := ToLower(f);
    // No name ends in two of them: the last letters differ, or the length does.
    assert HasSuffix(l, ".tar.gz") ==> l[|l| - 1] == 'z' && l[|l| - 2] == 'g';
    assert HasSuffix(l, ".tar.xz") ==> l[|l| - 1] == 'z' && l[|l| - 2] == 'x';
    assert HasSuffix(l, ".tar.bz2") ==> l[|l| - 1] == '2';
    assert HasSuffix(l, ".tar.zst") ==> l[|l| - 1] == 't';
  }

  function Counter(n: nat): string { " (" + Decimal(n) + ")" }

  /** fmt.Sprintf("%s (%d)%s", base, n, ext). */
  function Candidate(base: string, n: nat, ext: string): string { base + Counter(n) + ext }

  /** The shape of a candidate, and a few by name. */
  lemma CandidateShape(base: string, n: nat, ext: string)
    ensures Candidate(base, n, ext) == base + " (" + Decimal(n) + ")" + ext
    ensures Candidate("video", 1, ".mp4") == "video (1).mp4" && Candidate("video", 12, ".mp4") == "video (12).mp4"
  {
    assert Decimal(1) == "1" && Decimal(12) == "12";
  }

  /** Different counters give different names. */
  lemma CandidatesDistinct(base: string, ext: string, n: nat, m: nat)
    requires Candidate(base, n, ext) == Candidate(base, m, ext)
    ensures n == m
  {
    var a, b := Candidate(base, n, ext), Candidate(base, m, ext);
    assert a[|base| + 2..|a| - |ext| - 1] == Decimal(n);
    assert b[|base| + 2..|b| - |ext| - 1] == Decimal(m);
    DecimalRoundTrip(n);
    DecimalRoundTrip(m);
  }

  // ---------- stripping a counter ----------

  /** " (" starts at k. */
  predicate OpenAt(s: string, k: int) {
    0 <= k <= |s| - 2 && s[k] == ' ' && s[k + 1] == '('
  }

  /** strings.LastIndex(s, " ("), or |s| when it does not occur. */
  function LastOpen(s: string): (i: nat)
    ensures i <= |s|
    ensures i < |s| ==> OpenAt(s, i)
    ensures forall k :: OpenAt(s, k) ==> k <= i < |s|
  {
    LastOpenFrom(s, |s|)
  }

  function LastOpenFrom(s: string, n: nat): (i: nat)
    requires n <= |s|
    requires forall k :: OpenAt(s, k) ==> k < n
    ensures i <= |s|
    ensures i < |s| ==> OpenAt(s, i)
    ensures forall k :: OpenAt(s, k) ==> k <= i < |s|
  {
    if n == 0 then |s|
    else if OpenAt(s, n - 1) then n - 1
    else LastOpenFrom(s, n - 1)
  }

  /** The base ends in a parenthesised number of its own. */
  predicate Numbered(base: string) {
    var i := LastOpen(base);
    i < |base| && HasSuffix(base, ")") && i + 2 < |base| - 1 && AllDigits(base[i + 2..|base| - 1])
  }

  function StripCounter(base: string): string {
    if Numbered(base) then base[..LastOpen(base)] else base
  }

  /** base is stem with a counter behind it. */
  ghost predicate Counted(base: string, stem: string, digits: string) {
    digits != "" && AllDigits(digits) && base == stem + " (" + digits + ")"
  }

  /** Exactly what is stripped: one counter, of at least one digit, at the very end. */
  lemma StripExactly(base: string)
    ensures Numbered(base) <==> exists stem: string, digits: string :: Counted(base, stem, digits)
    ensures forall stem: string, digits: string :: Counted(base, stem, digits) ==> StripCounter(base) == stem
    ensures !Numbered(base) ==> StripCounter(base) == base
  {
    if Numbered(base) {
      var i := LastOpen(base);
      var digits := base[i + 2..|base| - 1];
      assert base[|base| - 1..] == ")";
      assert base == base[..i] + " (" + digits + ")";
      assert Counted(base, base[..i], digits);
    }
    forall stem: string, digits: string | Counted(base, stem, digits)
      ensures Numbered(base) && StripCounter(base) == stem
    {
      OpenOfCounted(base, stem, digits);
    }
  }

  lemma OpenOfCounted(base: string, stem: string, digits: string)
    requires Counted(base, stem, digits)
    ensures Numbered(base) && StripCounter(base) == stem
  {
    assert OpenAt(base, |stem|);
    assert base[|stem| + 2..|base| - 1] == digits;
    forall k | |stem| + 2 <= k < |base| - 1 ensures IsDigit(base[k]) { assert base[k] == digits[k - |stem| - 2]; }
    assert LastOpen(base) == |stem|;
    assert base[|base| - 1..] == ")" && base[..|stem|] == stem;
  }

  lemma StripUndoesCounter(base: string, n: nat)
    ensures Numbered(base + Counter(n))
    ensures StripCounter(base + Counter(n)) == base
  {
    var s := base + Counter(n);
    var d := Decimal(n);
    assert s[|base| + 2..|s| - 1] == d;
    assert OpenAt(s, |base|);
    forall k | |base| + 2 <= k < |s| - 1 ensures IsDigit(s[k]) {
      assert s[k] == d[k - |base| - 2];
    }
    assert LastOpen(s) == |base|;
    assert s[|s| - 1..] == ")";
    assert s[..|base|] == base;
  }

  // ---------- a candidate splits where its origin did ----------

  lemma LowerSuffix(f: string, k: nat)
    requires k <= |f|
    ensures ToLower(f)[|f| - k..] == ToLower(f[|f| - k..])
  {}

  /** What decides the extension length lies in the extension, or is a ')' in front of it. */
  lemma ExtOfCandidate(base: string, n: nat, f: string)
    requires base == Base(f)
    ensures ExtLength(Candidate(base, n, Ext(f))) == ExtLength(f)
  {
    var c := Candidate(base, n, Ext(f));
    var e := ExtLength(f);
    assert c[|c| - e..] == Ext(f) == f[|f| - e..];
    LowerSuffix(c, e);
    LowerSuffix(f, e);
    assert ToLower(c)[|c| - e..] == ToLower(f)[|f| - e..];
    assert e < |c| && c[|c| - e - 1] == ')';
    forall m: string | m in MULTI_EXTS ensures HasSuffix(ToLower(c), m) <==> HasSuffix(ToLower(f), m) {
      SuffixTransfer(f, c, e, m);
    }
    if !HasSuffix(ToLower(f), MULTI_EXTS[0]) && !HasSuffix(ToLower(f), MULTI_EXTS[1])
       && !HasSuffix(ToLower(f), MULTI_EXTS[2]) && !HasSuffix(ToLower(f), MULTI_EXTS[3]) {
      LastDotOfCandidate(base, n, f);
    }
  }

  lemma LastDotOfCandidate(base: string, n: nat, f: string)
    requires base == Base(f) && ExtLength(f) == |f| - LastDot(f)
    ensures var c := Candidate(base, n, Ext(f)); |c| - LastDot(c) == |f| - LastDot(f)
  {
    var c := Candidate(base, n, Ext(f));
    var shift := |c| - |f|;
    assert forall k :: |base| <= k < |f| ==> c[k + shift] == f[k];
    var d := Decimal(n);
    assert forall k :: 0 <= k < |base| ==> c[k] == f[k];
    if LastDot(f) < |f| {
      assert c[LastDot(f) + shift] == '.';
      forall k | LastDot(f) + shift < k < |c| ensures c[k] != '.' { assert f[k - shift] != '.'; }
    } else {
      forall k | 0 <= k < |c| ensures c[k] != '.' {
        if k < |base| { assert f[k] in f; }
        else if |base| + 2 <= k < |base| + 2 + |d| { assert c[k] == d[k - |base| - 2] && IsDigit(d[k - |base| - 2]); }
        else { assert c[k] == ' ' || c[k] == '(' || c[k] == ')'; }
      }
    }
  }

  /** f and c agree on their last e characters, c has a ')' in front of them, and e is the
      extension length of f. */
  lemma SuffixTransfer(f: string, c: string, e: nat, m: string)
    requires m in MULTI_EXTS && e == ExtLength(f)
    requires e <= |f| && e < |c| && ToLower(c)[|c| - e..] == ToLower(f)[|f| - e..] && c[|c| - e - 1] == ')'
    ensures HasSuffix(ToLower(c), m) <==> HasSuffix(ToLower(f), m)
  {
    var lc, lf := ToLower(c), ToLower(f);
    if |m| <= e {
      assert lc[|c| - |m|..] == lc[|c| - e..][e - |m|..];
      assert lf[|f| - |m|..] == lf[|f| - e..][e - |m|..];
    } else {
      SuffixChar(lc, m, |m| - e - 1);
      NoParenthesis(m);
      MultiExtLongest(f, m);
    }
  }

  lemma SuffixChar(s: string, m: string, k: nat)
    requires k < |m|
    ensures HasSuffix(s, m) ==> s[|s| - |m| + k] == m[k]
  {}

  lemma NoParenthesis(m: string)
    requires m in MULTI_EXTS
    ensures forall k :: 0 <= k < |m| ==> m[k] != ')'
  {}

  lemma MultiExtLongest(f: string, m: string)
    requires m in MULTI_EXTS
    ensures HasSuffix(ToLower(f), m) ==> ExtLength(f) >= |m|
  {
    var l := ToLower(f);
    // The four extensions end in four different pairs of letters.
    SuffixChar(l, m, |m| - 1);
    SuffixChar(l, MULTI_EXTS[0], 6);
    SuffixChar(l, MULTI_EXTS[2], 6);
  }

  /** The k-th name findRenamedArtifact probes for a recorded destination name. */
  function ProbeName(recorded: string, k: nat): string {
    Candidate(StripCounter(Base(recorded)), k, Ext(recorded))
  }

  /** From any renamed name the search probes exactly the names GenerateUniqueFilename would
      have tried for the original. */
  lemma ProbeUndoesRename(f: string, n: nat, k: nat)
    ensures ProbeName(Candidate(Base(f), n, Ext(f)), k) == Candidate(Base(f), k, Ext(f))
  {
    var c := Candidate(Base(f), n, Ext(f));
    ExtOfCandidate(Base(f), n, f);
    assert Base(c) == Base(f) + Counter(n);
    assert Ext(c) == Ext(f);
    StripUndoesCounter(Base(f), n);
  }

  /** From a name that was recorded unrenamed the search probes the right names exactly when
      the name does not already end in a number of its own. */
  lemma ProbeOfUnrenamed(f: string)
    ensures (forall k: nat :: ProbeName(f, k) == Candidate(Base(f), k, Ext(f))) <==> !Numbered(Base(f))
  {
    if Numbered(Base(f)) {
      assert |ProbeName(f, 1)| < |Candidate(Base(f), 1, Ext(f))|;
    }
  }

  /** The concrete clash: "a (2).b" is probed as "a (1).b", never as "a (2) (1).b". */
  lemma ProbeMissesNumberedName()
    ensures var f := Candidate("a", 2, ".b");
            ProbeName(f, 1) == Candidate("a", 1, ".b") && ProbeName(f, 1) != Candidate(Base(f), 1, Ext(f))
  {
    assert LastDot("a.b") == 1;
    var l := ToLower("a.b");
    assert Base("a.b") == "a" && Ext("a.b") == ".b";
    ProbeUndoesRename("a.b", 2, 1);
    ExtOfCandidate("a", 2, "a.b");
    var f := Candidate("a", 2, ".b");
    assert |Candidate(Base(f), 1, Ext(f))| > |Candidate("a", 1, ".b")|;
  }
}
