/** The `analyze` loop of analyzeslurp.py:148-201 as the program runs it:
    local state (`branchrevs`, `spurious`) updated revision by revision,
    the branch tally and the reparenting loop, and the evidence folded into
    an accumulator. Each method is proved equal to the function of module
    `Analysis` that states what it computes. */
module Analyzer {
  import opened Wrappers
  import opened Orders
  import opened Branches
  import opened Intervals
  import opened Union
  import opened Evidence
  import opened Choose
  import opened Factory
  import opened FileMap
  import opened Directives
  import opened Analysis

  /** Once the first `i` paths fail, the first `n` fail the same way. */
  lemma {:induction false} KeysOfFirstErrExtends(paths: seq<string>, i: nat, n: nat)
    requires i <= n <= |paths| && KeysOfFirst(paths, i).Err?
    ensures KeysOfFirst(paths, n) == KeysOfFirst(paths, i)
  {
    if i < n {
      KeysOfFirstErrExtends(paths, i, n - 1);
    }
  }

  /** Appending keys does not change the count over a prefix. */
  lemma {:induction false} CountFirstPrefix(keys: seq<string>, more: seq<string>, c: string, n: nat)
    requires n <= |keys|
    ensures CountFirst(keys + more, c, n) == CountFirst(keys, c, n)
  {
    if n > 0 {
      CountFirstPrefix(keys, more, c, n - 1);
    }
  }

  lemma CountSnoc(keys: seq<string>, b: string, c: string)
    ensures Count(keys + [b], c) == Count(keys, c) + (if b == c then 1 else 0)
  {
    CountFirstPrefix(keys, [b], c, |keys|);
  }

  /** The tally of every branch key. */
  ghost predicate Tallies(counts: map<string, nat>, keys: seq<string>)
  {
    (forall b :: b in counts <==> b in keys) && (forall b :: b in counts ==> counts[b] == Count(keys, b))
  }

  lemma TalliesSnoc(counts: map<string, nat>, keys: seq<string>, b: string)
    requires Tallies(counts, keys)
    ensures Tallies(counts[b := (if b in counts then counts[b] else 0) + 1], keys + [b])
  {
    forall c ensures Count(keys + [b], c) == Count(keys, c) + (if b == c then 1 else 0) {
      CountSnoc(keys, b, c);
    }
  }

  /** `branches[branchinfo(x)] += 1` over the paths (analyzeslurp.py:163-165):
      the tally of every branch key, or the failure of the first path that is
      not rooted. */
  method Tally(paths: seq<string>) returns (r: Result<map<string, nat>, Fault>)
    ensures BranchKeys(paths).Err? ==> r == Err(BranchKeys(paths).error)
    ensures BranchKeys(paths).Ok? ==> r.Ok?
    ensures r.Ok? ==> BranchKeys(paths).Ok? && Tallies(r.value, BranchKeys(paths).value)
  {
    var counts: map<string, nat> := map[];
    ghost var keys: seq<string> := [];
    var i := 0;
    while i < |paths|
      invariant 0 <= i <= |paths|
      invariant KeysOfFirst(paths, i) == Ok(keys)
      invariant Tallies(counts, keys)
    {
      var info := BranchInfo(paths[i]);
      if info.Err? {
        assert KeysOfFirst(paths, i + 1) == Err(BadPath(paths[i]));
        KeysOfFirstErrExtends(paths, i + 1, |paths|);
        return Err(BadPath(paths[i]));
      }
      var b := info.value;
      TalliesSnoc(counts, keys, b);
      counts := counts[b := (if b in counts then counts[b] else 0) + 1];
      keys := keys + [b];
      i := i + 1;
    }
    return Ok(counts);
  }

  /** `sorted(branches.items(), key=(count, name))[0][0]` for a nonempty
      tally (analyzeslurp.py:166-167), found by one pass over the tally
      instead of a sort. */
  method LeastKey(counts: map<string, nat>, ghost keys: seq<string>) returns (best: string)
    requires Tallies(counts, keys) && counts != map[]
    ensures best == Owner(keys)
  {
    var todo := counts.Keys;
    best := PickKey(todo);
    todo := todo - {best};
    while todo != {}
      invariant best in counts && todo <= counts.Keys
      invariant forall c :: c in counts && c !in todo ==> c == best || Fewer(keys, best, c)
      decreases |todo|
    {
      var c := PickKey(todo);
      LeastKeyStep(counts, keys, todo, best, c);
      if counts[c] < counts[best] || (counts[c] == counts[best] && StrLt(c, best)) {
        best := c;
      }
      todo := todo - {c};
    }
    LeastKeyDone(counts, keys, best);
  }

  /** One pass of the search keeps `best` below every key already seen. */
  lemma LeastKeyStep(counts: map<string, nat>, keys: seq<string>, todo: set<string>, best: string, c: string)
    requires Tallies(counts, keys) && best in counts && todo <= counts.Keys && c in todo
    requires forall d :: d in counts && d !in todo ==> d == best || Fewer(keys, best, d)
    ensures var next := if counts[c] < counts[best] || (counts[c] == counts[best] && StrLt(c, best)) then c else best;
      forall d :: d in counts && d !in todo - {c} ==> d == next || Fewer(keys, next, d)
  {
    FewerIsOrder(keys);
  }

  /** A tallied key below every other tallied key is the owner. */
  lemma LeastKeyDone(counts: map<string, nat>, keys: seq<string>, best: string)
    requires Tallies(counts, keys) && best in counts
    requires forall d :: d in counts ==> d == best || Fewer(keys, best, d)
    ensures best == Owner(keys)
  {
    FewerIsOrder(keys);
    OwnerUnique(keys, best);
  }

  /** The owning branch: the least tallied key, or `'<nonexistent>'` when no
      path was tallied. */
  method ClassifyRevision(paths: seq<string>) returns (r: Result<string, Fault>)
    ensures r == Classify(paths)
  {
    var tally := Tally(paths);
    if tally.Err? {
      return Err(tally.error);
    }
    var counts := tally.value;
    ghost var keys := BranchKeys(paths).value;
    if counts == map[] {
      return Ok(Nonexistent);
    }
    var best := LeastKey(counts, keys);
    return Ok(best);
  }

  /** The `while` loop of analyzeslurp.py:178-180, deleting in place. */
  method DropSpurious(myrevs0: seq<int>, spurious: set<int>) returns (r: Result<(seq<int>, Option<int>), Fault>)
    requires myrevs0 != []
    ensures r == SkipSpurious(myrevs0, spurious, None)
  {
    var myrevs := myrevs0;
    var reparenting: Option<int> := None;
    while |myrevs| > 1 && myrevs[|myrevs| - 2] in spurious
      invariant myrevs != []
      invariant SkipSpurious(myrevs, spurious, reparenting) == SkipSpurious(myrevs0, spurious, None)
      decreases |myrevs|
    {
      var n := |myrevs|;
      myrevs := myrevs[..n - 2] + [myrevs[n - 1]];
      if |myrevs| < 2 {
        return Err(NoPredecessor(myrevs[|myrevs| - 1]));
      }
      reparenting := Some(myrevs[|myrevs| - 2]);
    }
    return Ok((myrevs, reparenting));
  }

  /** `brange &= BranchRange(stuff, branch, rev)` for every merge reference
      (analyzeslurp.py:184-187). */
  method MergeEvidence(breakpoints: map<string, seq<int>>, branchRevs: map<string, seq<int>>,
                       merge: seq<PathRev>, branch: string, rev: int)
    returns (r: Result<BranchRange, Fault>)
    ensures r == MergeRange(breakpoints, branchRevs, merge, branch, rev, Unconstrained)
  {
    var brange := Unconstrained;
    var i := 0;
    while i < |merge|
      invariant 0 <= i <= |merge|
      invariant MergeRange(breakpoints, branchRevs, merge[i..], branch, rev, brange) ==
                MergeRange(breakpoints, branchRevs, merge, branch, rev, Unconstrained)
    {
      assert merge[i..][1..] == merge[i + 1..];
      match Factory.Factory(breakpoints, branchRevs, merge[i], branch, rev)
      case Err(e) => return Err(e);
      case Ok(f) =>
        brange := And(brange, f);
        i := i + 1;
    }
    return Ok(brange);
  }

  /** `pathrange |= BranchRange(stuff, branch, rev)` over one path's identical
      predecessors, from `pathrange = False` (analyzeslurp.py:191-193). */
  method CopyEvidence(breakpoints: map<string, seq<int>>, branchRevs: map<string, seq<int>>,
                      refs: seq<PathRev>, branch: string, rev: int)
    returns (r: Result<BranchRange, Fault>)
    ensures r == CopyRange(breakpoints, branchRevs, refs, branch, rev, Impossible)
  {
    var pathrange := Impossible;
    var i := 0;
    while i < |refs|
      invariant 0 <= i <= |refs|
      invariant CopyRange(breakpoints, branchRevs, refs[i..], branch, rev, pathrange) ==
                CopyRange(breakpoints, branchRevs, refs, branch, rev, Impossible)
    {
      assert refs[i..][1..] == refs[i + 1..];
      match Factory.Factory(breakpoints, branchRevs, refs[i], branch, rev)
      case Err(e) => return Err(e);
      case Ok(f) =>
        pathrange := Or(pathrange, f);
        i := i + 1;
    }
    return Ok(pathrange);
  }

  /** `brange &= pathrange` for every changed path with identical
      predecessors (analyzeslurp.py:188-194). */
  method CopiedEvidence(t: Tables, branchRevs: map<string, seq<int>>, actual: seq<string>,
                        branch: string, rev: int, brange0: BranchRange)
    returns (r: Result<BranchRange, Fault>)
    ensures r == CopiedRange(t, branchRevs, actual, branch, rev, brange0)
  {
    var brange := brange0;
    var i := 0;
    while i < |actual|
      invariant 0 <= i <= |actual|
      invariant CopiedRange(t, branchRevs, actual[i..], branch, rev, brange) ==
                CopiedRange(t, branchRevs, actual, branch, rev, brange0)
    {
      assert actual[i..][1..] == actual[i + 1..];
      var refs := Lookup(t.identical, PathRev(actual[i], rev));
      if refs != [] {
        var pathrange := CopyEvidence(t.breakpoints, branchRevs, refs, branch, rev);
        if pathrange.Err? {
          return Err(pathrange.error);
        }
        brange := And(brange, pathrange.value);
      }
      i := i + 1;
    }
    return Ok(brange);
  }

  /** One iteration of the revision loop (analyzeslurp.py:159-201). */
  method ProcessRevision(t: Tables, branchRevs: map<string, seq<int>>, spurious: set<int>, rev: int,
                         commit: seq<string>, merge: seq<PathRev>)
    returns (s: StepResult)
    ensures s == Step(t, RunState(branchRevs, spurious), rev, commit, merge)
  {
    var actual := Lookup(t.byrev, rev);
    var requested := Requested(commit, t.breakpoints);
    var owner := ClassifyRevision(actual + requested);
    if owner.Err? {
      return StepResult(RunState(branchRevs, spurious), [], Some(owner.error));
    }
    var branch := owner.value;
    var myrevs := Lookup(branchRevs, branch) + [rev];
    if actual == [] {
      return StepResult(RunState(branchRevs[branch := myrevs], spurious + {rev}), [], None);
    }
    var skipped := DropSpurious(myrevs, spurious);
    if skipped.Err? {
      return StepResult(RunState(branchRevs, spurious), [], Some(skipped.error));
    }
    var (kept, reparenting) := skipped.value;
    var now := branchRevs[branch := kept];
    var shown := ReparentLine(reparenting, rev);
    var merged := MergeEvidence(t.breakpoints, now, merge, branch, rev);
    if merged.Err? {
      return StepResult(RunState(now, spurious), shown, Some(merged.error));
    }
    var brange := CopiedEvidence(t, now, actual, branch, rev, merged.value);
    if brange.Err? {
      return StepResult(RunState(now, spurious), shown, Some(brange.error));
    }
    return StepResult(RunState(now, spurious), shown + Decide(brange.value, branch, rev), None);
  }

  /** `analyze(commits, merges, bypath)`: the directives printed, and the
      exception that stops it, if any. Mismatched inputs fail the assertion
      before anything is printed; otherwise the result is the run over the
      tables of `get_filemap`. */
  method Analyze(commits: seq<seq<string>>, merges: seq<seq<PathRev>>, bypath: map<string, History>)
    returns (r: Outcome)
    ensures |commits| != |merges| ==> r == Outcome([], Some(LengthMismatch(|commits|, |merges|)))
    ensures |commits| == |merges| ==>
      exists t :: IsFileMap(bypath, |commits|, t) && r == Run(t, commits, merges)
  {
    if |commits| != |merges| {
      return Outcome([], Some(LengthMismatch(|commits|, |merges|)));
    }
    var t := GetFileMap(bypath, |commits|);
    var branchRevs: map<string, seq<int>> := map[];
    var spurious: set<int> := {};
    var out: seq<Directive> := [];
    var rev := 0;
    while rev < |commits|
      invariant 0 <= rev <= |commits|
      invariant RunFrom(t, commits, merges, rev, RunState(branchRevs, spurious), out) == Run(t, commits, merges)
    {
      var s := ProcessRevision(t, branchRevs, spurious, rev, commits[rev], merges[rev]);
      out := out + s.out;
      if s.fault.Some? {
        return Outcome(out, s.fault);
      }
      branchRevs, spurious := s.st.branchRevs, s.st.spurious;
      rev := rev + 1;
    }
    return Outcome(out, None);
  }

  /** Whatever the tables, every directive `Analyze` prints is sound, about
      a revision of the log, and in revision order. */
  lemma AnalyzeSound(commits: seq<seq<string>>, merges: seq<seq<PathRev>>, bypath: map<string, History>,
                     r: Outcome)
    requires |commits| == |merges|
    requires exists t :: IsFileMap(bypath, |commits|, t) && r == Run(t, commits, merges)
    ensures InOrder(r.out, |commits|)
  {
    var t :| IsFileMap(bypath, |commits|, t) && r == Run(t, commits, merges);
    RunSound(t, commits, merges);
  }
}
