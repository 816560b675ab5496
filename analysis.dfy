/** `analyze` (analyzeslurp.py:148-201) stated as functions: what one
    revision does to the run state and which directives it prints, and the
    whole run over every revision in increasing order.

    For each revision:
    1. the owning branch is the branch key that occurs least often among the
       paths that changed and the tracked paths the commit names (ties go to
       the smaller name); the revision joins that branch's revision list;
    2. a revision that changed nothing is spurious and stops there;
    3. spurious revisions right before it on its branch are dropped, and the
       revision is reparented onto the one before them;
    4. the merge references and the copies of identical earlier content
       narrow a branch range, and the range's best window names the revision
       merged from. */
module Analysis {
  import opened Wrappers
  import opened Orders
  import opened Branches
  import opened Intervals
  import opened Union
  import opened Evidence
  import opened Choose
  import opened Factory
  import opened FileMap
  import opened Directives

  /** The owner of a revision that names no path at all. */
  const Nonexistent: string := "<nonexistent>"

  /** A read of a `defaultdict`: a missing key reads as empty. */
  function Lookup<K, V>(m: map<K, seq<V>>, k: K): (r: seq<V>)
    ensures k in m ==> r == m[k]
    ensures k !in m ==> r == []
  {
    if k in m then m[k] else []
  }

  // ---------------------------------------------------------------------
  // Step 1: the owning branch (analyzeslurp.py:161-170)
  // ---------------------------------------------------------------------

  /** `requested`: the tracked paths the commit names, in the commit's order. */
  function Requested(commit: seq<string>, breakpoints: map<string, seq<int>>): (r: seq<string>)
    ensures |r| <= |commit|
    ensures forall p :: p in r <==> p in commit && p in breakpoints
  {
    if commit == [] then []
    else (if commit[0] in breakpoints then [commit[0]] else []) + Requested(commit[1..], breakpoints)
  }

  /** `paths[k]` is the first path that is not rooted. */
  predicate FirstUnrooted(paths: seq<string>, k: int)
  {
    0 <= k < |paths| && !Rooted(paths[k]) && forall j :: 0 <= j < k ==> Rooted(paths[j])
  }

  /** `branchinfo` of the first `n` paths in order; the first of them that
      is not rooted raises. */
  function KeysOfFirst(paths: seq<string>, n: nat): (r: Result<seq<string>, Fault>)
    requires n <= |paths|
    ensures r.Ok? <==> forall k :: 0 <= k < n ==> Rooted(paths[k])
    ensures r.Ok? ==> |r.value| == n
  {
    if n == 0 then Ok([])
    else
      match KeysOfFirst(paths, n - 1)
      case Err(e) => Err(e)
      case Ok(keys) =>
        match BranchInfo(paths[n - 1])
        case Err(_) => Err(BadPath(paths[n - 1]))
        case Ok(b) => Ok(keys + [b])
  }

  /** `branchinfo` of every path in order. */
  function BranchKeys(paths: seq<string>): Result<seq<string>, Fault>
  {
    KeysOfFirst(paths, |paths|)
  }

  /** The `k`-th key is the branch of the `k`-th path. */
  lemma {:induction false} KeysOfFirstValues(paths: seq<string>, n: nat)
    requires n <= |paths| && KeysOfFirst(paths, n).Ok?
    ensures forall k :: 0 <= k < n ==> BranchInfo(paths[k]) == Ok(KeysOfFirst(paths, n).value[k])
  {
    if n > 0 {
      KeysOfFirstValues(paths, n - 1);
    }
  }

  /** The exception names the first of the `n` paths that is not rooted. */
  lemma {:induction false} KeysOfFirstFault(paths: seq<string>, n: nat)
    requires n <= |paths| && KeysOfFirst(paths, n).Err?
    ensures exists k :: k < n && FirstUnrooted(paths, k) && KeysOfFirst(paths, n).error == BadPath(paths[k])
  {
    var k := FaultIndex(paths, n);
  }

  /** The position of the path the failure names. */
  lemma {:induction false} FaultIndex(paths: seq<string>, n: nat) returns (k: nat)
    requires n <= |paths| && KeysOfFirst(paths, n).Err?
    ensures k < n && FirstUnrooted(paths, k) && KeysOfFirst(paths, n).error == BadPath(paths[k])
  {
    KeysOfFirstStep(paths, n);
    if KeysOfFirst(paths, n - 1).Err? {
      k := FaultIndex(paths, n - 1);
    } else {
      k := n - 1;
    }
  }

  /** How a failure arises at the `n`-th path. */
  lemma KeysOfFirstStep(paths: seq<string>, n: nat)
    requires 0 < n <= |paths|
    ensures KeysOfFirst(paths, n - 1).Err? ==> KeysOfFirst(paths, n) == KeysOfFirst(paths, n - 1)
    ensures KeysOfFirst(paths, n - 1).Ok? && !Rooted(paths[n - 1]) ==>
      KeysOfFirst(paths, n) == Err(BadPath(paths[n - 1]))
  {
  }

  /** The exception names the first path that is not rooted. */
  lemma BranchKeysFault(paths: seq<string>)
    requires BranchKeys(paths).Err?
    ensures exists k :: FirstUnrooted(paths, k) && BranchKeys(paths).error == BadPath(paths[k])
  {
    KeysOfFirstFault(paths, |paths|);
  }

  /** How often `b` occurs among the first `n` keys. */
  function CountFirst(keys: seq<string>, b: string, n: nat): (r: nat)
    requires n <= |keys|
    ensures r <= n
    ensures r > 0 <==> b in keys[..n]
  {
    if n == 0 then 0
    else
      assert keys[..n] == keys[..n - 1] + [keys[n - 1]];
      CountFirst(keys, b, n - 1) + (if keys[n - 1] == b then 1 else 0)
  }

  /** How often `b` occurs in `keys`: `branches[b]`. */
  function Count(keys: seq<string>, b: string): (n: nat)
    ensures n <= |keys|
    ensures n > 0 <==> b in keys
  {
    assert keys[..|keys|] == keys;
    CountFirst(keys, b, |keys|)
  }

  /** `(branches[a], a) < (branches[b], b)`: the sort key of
      analyzeslurp.py:166. */
  predicate Fewer(keys: seq<string>, a: string, b: string)
  {
    Count(keys, a) < Count(keys, b) || (Count(keys, a) == Count(keys, b) && StrLt(a, b))
  }

  lemma FewerIsOrder(keys: seq<string>)
    ensures forall a :: !Fewer(keys, a, a)
    ensures forall a, b, c :: Fewer(keys, a, b) && Fewer(keys, b, c) ==> Fewer(keys, a, c)
    ensures forall a, b :: a == b || Fewer(keys, a, b) || Fewer(keys, b, a)
  {
    StrLtIsOrder();
  }

  /** The least of `cands` in the order of `Fewer`. */
  function LeastOf(cands: seq<string>, keys: seq<string>): (r: string)
    requires cands != []
    ensures r in cands
    ensures forall c :: c in cands ==> c == r || Fewer(keys, r, c)
  {
    if |cands| == 1 then cands[0]
    else
      var rest := LeastOf(cands[1..], keys);
      FewerIsOrder(keys);
      assert forall c :: c in cands ==> c == cands[0] || c in cands[1..];
      if Fewer(keys, rest, cands[0]) then rest else cands[0]
  }

  /** `allbranches[0][0] if allbranches else '<nonexistent>'`. */
  function Owner(keys: seq<string>): string
  {
    if keys == [] then Nonexistent else LeastOf(keys, keys)
  }

  /** The owning branch of a revision whose evidence paths are `paths`
      (`chain(actual, requested)`). */
  function Classify(paths: seq<string>): Result<string, Fault>
  {
    match BranchKeys(paths)
    case Err(e) => Err(e)
    case Ok(keys) => Ok(Owner(keys))
  }

  /** The owner is the branch of one of the paths, and every other branch
      among them occurs more often, or as often with a greater name. */
  lemma ClassifyLeast(paths: seq<string>)
    requires paths != [] && Classify(paths).Ok?
    ensures exists k :: 0 <= k < |paths| && BranchInfo(paths[k]) == Ok(Classify(paths).value)
    ensures forall k :: 0 <= k < |paths| ==>
      var b := BranchInfo(paths[k]).value;
      b == Classify(paths).value || Fewer(BranchKeys(paths).value, Classify(paths).value, b)
  {
    var keys := BranchKeys(paths).value;
    KeysOfFirstValues(paths, |paths|);
    var owner := Classify(paths).value;
    assert owner in keys;
    var k :| 0 <= k < |keys| && keys[k] == owner;
    assert BranchInfo(paths[k]) == Ok(owner);
    forall j | 0 <= j < |paths|
      ensures BranchInfo(paths[j]).value == owner || Fewer(keys, owner, BranchInfo(paths[j]).value)
    {
      assert keys[j] in keys;
    }
  }

  /** The least key is unique: a key that no other key precedes is the
      owner. */
  lemma OwnerUnique(keys: seq<string>, b: string)
    requires b in keys
    requires forall c :: c in keys ==> c == b || !Fewer(keys, c, b)
    ensures Owner(keys) == b
  {
    FewerIsOrder(keys);
  }

  /** A revision that names no path belongs to no branch. */
  lemma ClassifyNothing(paths: seq<string>)
    requires paths == []
    ensures Classify(paths) == Ok(Nonexistent)
  {
  }

  // ---------------------------------------------------------------------
  // Step 3: reparenting (analyzeslurp.py:177-183)
  // ---------------------------------------------------------------------

  /** The `while` loop of analyzeslurp.py:178-180: drop the spurious
      revisions right before the last entry; `reparenting` ends as the entry
      now before the last. When every entry before the last is dropped,
      `myrevs[-2]` raises IndexError. */
  function SkipSpurious(myrevs: seq<int>, spurious: set<int>, reparenting: Option<int>)
    : (r: Result<(seq<int>, Option<int>), Fault>)
    requires myrevs != []
    ensures r.Ok? ==> r.value.0 != [] && r.value.0[|r.value.0| - 1] == myrevs[|myrevs| - 1]
    ensures r.Err? ==> r.error == NoPredecessor(myrevs[|myrevs| - 1])
    decreases |myrevs|
  {
    var n := |myrevs|;
    if n > 1 && myrevs[n - 2] in spurious then
      var dropped := myrevs[..n - 2] + [myrevs[n - 1]];
      if |dropped| < 2 then Err(NoPredecessor(myrevs[n - 1]))
      else SkipSpurious(dropped, spurious, Some(dropped[|dropped| - 2]))
    else Ok((myrevs, reparenting))
  }

  /** `if reparenting: print '<%s>,<%s> reparent'`: revision 0 is false in
      Python, so reparenting onto it prints nothing. */
  function ReparentLine(reparenting: Option<int>, rev: int): seq<Directive>
  {
    if reparenting.Some? && reparenting.value != 0 then [Reparent(reparenting.value, rev)] else []
  }

  /** What the loop leaves: the first `m` entries and the last one, every
      entry in between spurious, and the reparenting target the entry before
      the last unless nothing was dropped. */
  ghost predicate Skipped(myrevs: seq<int>, spurious: set<int>, reparenting: Option<int>,
                          m: int, kept: seq<int>, rp: Option<int>)
    requires myrevs != []
  {
    && 0 <= m < |myrevs|
    && kept == myrevs[..m] + [myrevs[|myrevs| - 1]]
    && (forall k :: m <= k < |myrevs| - 1 ==> myrevs[k] in spurious)
    && (m > 0 ==> myrevs[m - 1] !in spurious)
    && (m == |myrevs| - 1 ==> rp == reparenting)
    && (m < |myrevs| - 1 ==> 0 < m && rp == Some(myrevs[m - 1]))
  }

  /** The loop fails exactly when every entry before the last is spurious. */
  lemma {:induction false} SkipSpuriousFails(myrevs: seq<int>, spurious: set<int>, reparenting: Option<int>)
    requires myrevs != []
    ensures SkipSpurious(myrevs, spurious, reparenting).Err? <==>
      |myrevs| > 1 && forall k :: 0 <= k < |myrevs| - 1 ==> myrevs[k] in spurious
    decreases |myrevs|
  {
    var n := |myrevs|;
    if n > 1 && myrevs[n - 2] in spurious {
      var dropped := myrevs[..n - 2] + [myrevs[n - 1]];
      if |dropped| >= 2 {
        SkipSpuriousFails(dropped, spurious, Some(dropped[|dropped| - 2]));
        assert forall k :: 0 <= k < |dropped| - 1 ==> dropped[k] == myrevs[k];
      }
    }
  }

  /** When it does not fail, the loop drops the spurious run right before
      the last entry and reparents onto the entry before that run. */
  lemma {:induction false} SkipSpuriousKeeps(myrevs: seq<int>, spurious: set<int>, reparenting: Option<int>)
    requires myrevs != []
    ensures var r := SkipSpurious(myrevs, spurious, reparenting);
      r.Ok? ==> exists m :: Skipped(myrevs, spurious, reparenting, m, r.value.0, r.value.1)
    decreases |myrevs|
  {
    var n := |myrevs|;
    if n > 1 && myrevs[n - 2] in spurious {
      var dropped := myrevs[..n - 2] + [myrevs[n - 1]];
      if |dropped| >= 2 {
        var rp0 := Some(dropped[|dropped| - 2]);
        assert SkipSpurious(myrevs, spurious, reparenting) == SkipSpurious(dropped, spurious, rp0);
        SkipSpuriousKeeps(dropped, spurious, rp0);
        if SkipSpurious(dropped, spurious, rp0).Ok? {
          var (kept, rp) := SkipSpurious(dropped, spurious, rp0).value;
          var m :| Skipped(dropped, spurious, rp0, m, kept, rp);
          assert forall k :: 0 <= k < |dropped| - 1 ==> dropped[k] == myrevs[k];
          assert dropped[..m] == myrevs[..m];
          assert Skipped(myrevs, spurious, reparenting, m, kept, rp);
        }
      }
    } else {
      assert SkipSpurious(myrevs, spurious, reparenting) == Ok((myrevs, reparenting));
      assert myrevs[..n - 1] + [myrevs[n - 1]] == myrevs;
      assert Skipped(myrevs, spurious, reparenting, n - 1, myrevs, reparenting);
    }
  }

  /** The loop fails exactly when every entry before the last is spurious;
      otherwise it drops the spurious run right before the last entry and
      reparents onto the entry before that run. */
  lemma SkipSpuriousMeaning(myrevs: seq<int>, spurious: set<int>, reparenting: Option<int>)
    requires myrevs != []
    ensures SkipSpurious(myrevs, spurious, reparenting).Err? <==>
      |myrevs| > 1 && forall k :: 0 <= k < |myrevs| - 1 ==> myrevs[k] in spurious
    ensures SkipSpurious(myrevs, spurious, reparenting).Ok? ==>
      var (kept, rp) := SkipSpurious(myrevs, spurious, reparenting).value;
      exists m :: Skipped(myrevs, spurious, reparenting, m, kept, rp)
  {
    SkipSpuriousFails(myrevs, spurious, reparenting);
    SkipSpuriousKeeps(myrevs, spurious, reparenting);
  }

  /** Two spurious-free examples of the loop: in `[3, 5, 7]` with 5 spurious,
      7 is reparented onto 3; in `[5, 7]` there is nothing to reparent onto. */
  lemma SkipSpuriousExamples(a: seq<int>, b: seq<int>, spurious: set<int>)
    requires a == [3, 5, 7] && b == [5, 7] && spurious == {5}
    ensures SkipSpurious(a, spurious, None) == Ok(([3, 7], Some(3)))
    ensures SkipSpurious(b, spurious, None) == Err(NoPredecessor(7))
  {
    assert a[..1] + [a[2]] == [3, 7];
    assert SkipSpurious([3, 7], spurious, Some(3)) == Ok(([3, 7], Some(3)));
  }

  // ---------------------------------------------------------------------
  // Step 4: the evidence (analyzeslurp.py:185-194)
  // ---------------------------------------------------------------------

  /** `brange &= BranchRange(stuff, branch, rev)` for every merge reference,
      left to right; every reference is looked up even once the range is
      impossible. */
  function MergeRange(breakpoints: map<string, seq<int>>, branchRevs: map<string, seq<int>>,
                      merge: seq<PathRev>, branch: string, rev: int, acc: BranchRange)
    : Result<BranchRange, Fault>
  {
    if merge == [] then Ok(acc)
    else
      match Factory.Factory(breakpoints, branchRevs, merge[0], branch, rev)
      case Err(e) => Err(e)
      case Ok(f) => MergeRange(breakpoints, branchRevs, merge[1..], branch, rev, And(acc, f))
  }

  /** `pathrange |= BranchRange(stuff, branch, rev)` for every identical
      predecessor of one path. */
  function CopyRange(breakpoints: map<string, seq<int>>, branchRevs: map<string, seq<int>>,
                     refs: seq<PathRev>, branch: string, rev: int, acc: BranchRange)
    : Result<BranchRange, Fault>
  {
    if refs == [] then Ok(acc)
    else
      match Factory.Factory(breakpoints, branchRevs, refs[0], branch, rev)
      case Err(e) => Err(e)
      case Ok(f) => CopyRange(breakpoints, branchRevs, refs[1..], branch, rev, Join(acc, f))
  }

  /** `brange &= pathrange` for every changed path that has identical
      predecessors. */
  function CopiedRange(t: Tables, branchRevs: map<string, seq<int>>,
                       actual: seq<string>, branch: string, rev: int, acc: BranchRange)
    : Result<BranchRange, Fault>
  {
    if actual == [] then Ok(acc)
    else
      var refs := Lookup(t.identical, PathRev(actual[0], rev));
      if refs == [] then CopiedRange(t, branchRevs, actual[1..], branch, rev, acc)
      else
        match CopyRange(t.breakpoints, branchRevs, refs, branch, rev, Impossible)
        case Err(e) => Err(e)
        case Ok(pathrange) => CopiedRange(t, branchRevs, actual[1..], branch, rev, And(acc, pathrange))
  }

  /** Both kinds of evidence, starting from `brange = True`. */
  function EvidenceRange(t: Tables, branchRevs: map<string, seq<int>>, merge: seq<PathRev>,
                         actual: seq<string>, branch: string, rev: int)
    : Result<BranchRange, Fault>
  {
    match MergeRange(t.breakpoints, branchRevs, merge, branch, rev, Unconstrained)
    case Err(e) => Err(e)
    case Ok(brange) => CopiedRange(t, branchRevs, actual, branch, rev, brange)
  }

  // ---------------------------------------------------------------------
  // Step 5: the decision (analyzeslurp.py:196-201)
  // ---------------------------------------------------------------------

  /** No directive without evidence or with contradicting evidence;
      otherwise `'<%s>,<%s> merge' % (low, rev)` for the best window. */
  function Decide(brange: BranchRange, branch: string, rev: int): seq<Directive>
  {
    match brange
    case Candidates(ivs) =>
      (match ChooseBest(ivs, branch)
       case Some((_, low)) => [MergeFrom(low, rev)]
       case None => [])
    case _ => []
  }

  /** A window may start at the merging revision itself, so `Sound` allows
      a merge from `rev` into `rev`: `'<r>,<r> merge'`. */
  lemma SameRevisionMerge(r: int, high: int)
    ensures Decide(Candidates([Interval("a", r, high)]), "b", r) == [MergeFrom(r, r)]
  {
  }

  /** Every candidate window of `brange` starts at or before `rev`. */
  predicate LowsAtMost(brange: BranchRange, rev: int)
  {
    brange.Candidates? ==> forall iv :: iv in brange.ivs ==> iv.low <= rev
  }

  /** An overlap starts at the later of the two starts. */
  lemma AndLows(a: BranchRange, b: BranchRange, rev: int)
    requires LowsAtMost(a, rev) && LowsAtMost(b, rev)
    ensures LowsAtMost(And(a, b), rev)
  {
    if a.Candidates? && b.Candidates? && And(a, b).Candidates? {
      forall iv | iv in And(a, b).ivs ensures iv.low <= rev {
        assert MeetsIn(a.ivs, b.ivs, iv);
        var x, y :| x in a.ivs && y in b.ivs && Overlap(x, y) == Some(iv);
      }
    }
  }

  /** A window of a union starts where a window of an operand starts. */
  lemma JoinLows(a: BranchRange, b: BranchRange, rev: int)
    requires LowsAtMost(a, rev) && LowsAtMost(b, rev)
    ensures LowsAtMost(Join(a, b), rev)
  {
    if a.Candidates? && b.Candidates? {
      forall iv | iv in Join(a, b).ivs ensures iv.low <= rev {
        MergeEndpoints(a.ivs, b.ivs, iv);
      }
    }
  }

  /** Evidence from `factory` never starts after the revision. */
  lemma FactoryLows(breakpoints: map<string, seq<int>>, branchRevs: map<string, seq<int>>,
                    e: PathRev, branch: string, rev: int)
    ensures Factory.Factory(breakpoints, branchRevs, e, branch, rev).Ok? ==>
      LowsAtMost(Factory.Factory(breakpoints, branchRevs, e, branch, rev).value, rev)
  {
    var r := Factory.Factory(breakpoints, branchRevs, e, branch, rev);
    if r.Ok? && r.value.Candidates? {
      forall iv | iv in r.value.ivs ensures iv.low <= rev {
        assert iv == r.value.ivs[0];
      }
    }
  }

  lemma {:induction false} MergeRangeLows(breakpoints: map<string, seq<int>>, branchRevs: map<string, seq<int>>,
                                          merge: seq<PathRev>, branch: string, rev: int, acc: BranchRange)
    requires LowsAtMost(acc, rev)
    ensures MergeRange(breakpoints, branchRevs, merge, branch, rev, acc).Ok? ==>
      LowsAtMost(MergeRange(breakpoints, branchRevs, merge, branch, rev, acc).value, rev)
  {
    if merge != [] {
      var r := Factory.Factory(breakpoints, branchRevs, merge[0], branch, rev);
      if r.Ok? {
        FactoryLows(breakpoints, branchRevs, merge[0], branch, rev);
        AndLows(acc, r.value, rev);
        MergeRangeLows(breakpoints, branchRevs, merge[1..], branch, rev, And(acc, r.value));
      }
    }
  }

  lemma {:induction false} CopyRangeLows(breakpoints: map<string, seq<int>>, branchRevs: map<string, seq<int>>,
                                         refs: seq<PathRev>, branch: string, rev: int, acc: BranchRange)
    requires LowsAtMost(acc, rev)
    ensures CopyRange(breakpoints, branchRevs, refs, branch, rev, acc).Ok? ==>
      LowsAtMost(CopyRange(breakpoints, branchRevs, refs, branch, rev, acc).value, rev)
  {
    if refs != [] {
      var r := Factory.Factory(breakpoints, branchRevs, refs[0], branch, rev);
      if r.Ok? {
        FactoryLows(breakpoints, branchRevs, refs[0], branch, rev);
        JoinLows(acc, r.value, rev);
        CopyRangeLows(breakpoints, branchRevs, refs[1..], branch, rev, Join(acc, r.value));
      }
    }
  }

  lemma {:induction false} CopiedRangeLows(t: Tables, branchRevs: map<string, seq<int>>,
                                           actual: seq<string>, branch: string, rev: int, acc: BranchRange)
    requires LowsAtMost(acc, rev)
    ensures CopiedRange(t, branchRevs, actual, branch, rev, acc).Ok? ==>
      LowsAtMost(CopiedRange(t, branchRevs, actual, branch, rev, acc).value, rev)
  {
    if actual != [] {
      var refs := Lookup(t.identical, PathRev(actual[0], rev));
      if refs == [] {
        CopiedRangeLows(t, branchRevs, actual[1..], branch, rev, acc);
      } else {
        CopyRangeLows(t.breakpoints, branchRevs, refs, branch, rev, Impossible);
        match CopyRange(t.breakpoints, branchRevs, refs, branch, rev, Impossible)
        case Err(_) =>
        case Ok(pathrange) =>
          AndLows(acc, pathrange, rev);
          CopiedRangeLows(t, branchRevs, actual[1..], branch, rev, And(acc, pathrange));
      }
    }
  }

  /** No evidence window starts after the revision being analysed. */
  lemma EvidenceLows(t: Tables, branchRevs: map<string, seq<int>>, merge: seq<PathRev>,
                     actual: seq<string>, branch: string, rev: int)
    ensures EvidenceRange(t, branchRevs, merge, actual, branch, rev).Ok? ==>
      LowsAtMost(EvidenceRange(t, branchRevs, merge, actual, branch, rev).value, rev)
  {
    MergeRangeLows(t.breakpoints, branchRevs, merge, branch, rev, Unconstrained);
    match MergeRange(t.breakpoints, branchRevs, merge, branch, rev, Unconstrained)
    case Err(_) =>
    case Ok(brange) => CopiedRangeLows(t, branchRevs, actual, branch, rev, brange);
  }

  /** A merge is reported exactly when the evidence leaves candidate
      windows; its source is the start of one of them, so it is never later
      than the revision. */
  lemma DecideSource(brange: BranchRange, branch: string, rev: int)
    requires LowsAtMost(brange, rev)
    ensures Decide(brange, branch, rev) != [] <==> brange.Candidates? && brange.ivs != []
    ensures forall d :: d in Decide(brange, branch, rev) ==>
      d.MergeFrom? && d.rev == rev && d.source <= rev &&
      exists iv :: iv in brange.ivs && iv.low == d.source
  {
  }

  // ---------------------------------------------------------------------
  // One revision and the whole run
  // ---------------------------------------------------------------------

  /** What `analyze` keeps from one revision to the next: `branchrevs` and
      `spurious`. */
  datatype RunState = RunState(branchRevs: map<string, seq<int>>, spurious: set<int>)

  /** The new state, the lines printed, and the exception that ends the run,
      if any. */
  datatype StepResult = StepResult(st: RunState, out: seq<Directive>, fault: Option<Fault>)

  function Step(t: Tables, st: RunState, rev: int, commit: seq<string>, merge: seq<PathRev>): StepResult
  {
    var actual := Lookup(t.byrev, rev);
    match Classify(actual + Requested(commit, t.breakpoints))
    case Err(e) => StepResult(st, [], Some(e))
    case Ok(branch) => StepOn(t, st, rev, branch, actual, merge)
  }

  /** The revision once its owner `branch` is known (analyzeslurp.py:169-201). */
  function StepOn(t: Tables, st: RunState, rev: int, branch: string, actual: seq<string>,
                  merge: seq<PathRev>): StepResult
  {
    var myrevs := Lookup(st.branchRevs, branch) + [rev];
    if actual == [] then
      StepResult(RunState(st.branchRevs[branch := myrevs], st.spurious + {rev}), [], None)
    else
      match SkipSpurious(myrevs, st.spurious, None)
      case Err(e) => StepResult(st, [], Some(e))
      case Ok((kept, reparenting)) =>
        Conclude(t, RunState(st.branchRevs[branch := kept], st.spurious), rev, branch, actual, merge,
                 ReparentLine(reparenting, rev))
  }

  /** A revision that changed no file is spurious (analyzeslurp.py:170-175):
      it prints nothing, is added to `spurious`, and is still appended to
      its owner's list; no other branch's list changes. */
  lemma SpuriousSilent(t: Tables, st: RunState, rev: int, branch: string, merge: seq<PathRev>)
    ensures var r := StepOn(t, st, rev, branch, [], merge);
      && r.out == [] && r.fault == None
      && r.st.spurious == st.spurious + {rev}
      && branch in r.st.branchRevs && r.st.branchRevs[branch] == Lookup(st.branchRevs, branch) + [rev]
      && (forall b :: b != branch ==> (b in r.st.branchRevs <==> b in st.branchRevs))
      && (forall b :: b in st.branchRevs && b != branch ==> r.st.branchRevs[b] == st.branchRevs[b])
  {
  }

  /** The evidence and the decision, after `shown` was printed
      (analyzeslurp.py:185-201). The factory reads the updated `branchRevs`. */
  function Conclude(t: Tables, st: RunState, rev: int, branch: string, actual: seq<string>,
                    merge: seq<PathRev>, shown: seq<Directive>): StepResult
  {
    match EvidenceRange(t, st.branchRevs, merge, actual, branch, rev)
    case Err(e) => StepResult(st, shown, Some(e))
    case Ok(brange) => StepResult(st, shown + Decide(brange, branch, rev), None)
  }

  /** The directives printed before the run ends, and the exception that
      ends it early, if any. */
  datatype Outcome = Outcome(out: seq<Directive>, fault: Option<Fault>)

  const Initial: RunState := RunState(map[], {})

  /** The revisions from `rev` on, after `out` was printed. */
  function RunFrom(t: Tables, commits: seq<seq<string>>, merges: seq<seq<PathRev>>,
                   rev: nat, st: RunState, out: seq<Directive>): Outcome
    requires |commits| == |merges| && rev <= |commits|
    decreases |commits| - rev
  {
    if rev == |commits| then Outcome(out, None)
    else
      var s := Step(t, st, rev, commits[rev], merges[rev]);
      if s.fault.Some? then Outcome(out + s.out, s.fault)
      else RunFrom(t, commits, merges, rev + 1, s.st, out + s.out)
  }

  /** `analyze(commits, merges, bypath)` once the tables are built. */
  function Run(t: Tables, commits: seq<seq<string>>, merges: seq<seq<PathRev>>): Outcome
    requires |commits| == |merges|
  {
    RunFrom(t, commits, merges, 0, Initial, [])
  }

  // ---------------------------------------------------------------------
  // What the run guarantees
  // ---------------------------------------------------------------------

  predicate Increasing(s: seq<int>)
  {
    forall i, j :: 0 <= i < j < |s| ==> s[i] < s[j]
  }

  /** An increasing list of revisions in `[0, rev)`. */
  predicate RevsBefore(s: seq<int>, rev: int)
  {
    Increasing(s) && forall k :: 0 <= k < |s| ==> 0 <= s[k] < rev
  }

  /** Every branch's revision list is increasing and holds revisions before
      `rev` only. */
  predicate WellFormedState(st: RunState, rev: int)
  {
    forall b :: b in st.branchRevs ==> RevsBefore(st.branchRevs[b], rev)
  }

  /** A reparenting goes back to a positive earlier revision; a merge comes
      from a revision no later than the one merging. */
  predicate Sound(d: Directive)
  {
    match d
    case Reparent(p, r) => 0 < p < r
    case MergeFrom(s, r) => s <= r
  }

  /** The revision joins the end of its owner's list. */
  lemma AppendWellFormed(revs: seq<int>, rev: int)
    requires RevsBefore(revs, rev) && rev >= 0
    ensures RevsBefore(revs + [rev], rev + 1)
  {
    var s := revs + [rev];
    forall i, j | 0 <= i < j < |s| ensures s[i] < s[j] {
      if j == |revs| {
        assert s[i] == revs[i];
      } else {
        assert s[i] == revs[i] && s[j] == revs[j];
      }
    }
  }

  /** Dropping the spurious run keeps the list well formed, and the
      reparenting target is an earlier revision of the list that is not
      spurious. */
  lemma KeptWellFormed(before: seq<int>, rev: int, spurious: set<int>)
    requires RevsBefore(before, rev) && rev >= 0
    ensures SkipSpurious(before + [rev], spurious, None).Ok? ==>
      var (kept, rp) := SkipSpurious(before + [rev], spurious, None).value;
      && RevsBefore(kept, rev + 1)
      && (rp.Some? ==> rp.value in before && 0 <= rp.value < rev && rp.value !in spurious)
  {
    var myrevs := before + [rev];
    AppendWellFormed(before, rev);
    SkipSpuriousMeaning(myrevs, spurious, None);
    if SkipSpurious(myrevs, spurious, None).Ok? {
      var (kept, rp) := SkipSpurious(myrevs, spurious, None).value;
      var m :| Skipped(myrevs, spurious, None, m, kept, rp);
      assert myrevs[..m] == before[..m];
      PrefixThenRev(before, m, rev);
      if rp.Some? {
        assert rp.value == before[m - 1];
      }
    }
  }

  /** A prefix of a branch's list followed by a later revision is well
      formed for the next revision. */
  lemma PrefixThenRev(before: seq<int>, m: int, rev: int)
    requires RevsBefore(before, rev) && rev >= 0 && 0 <= m <= |before|
    ensures RevsBefore(before[..m] + [rev], rev + 1)
  {
    var kept := before[..m] + [rev];
    forall i, j | 0 <= i < j < |kept| ensures kept[i] < kept[j] {
      assert kept[i] == before[i];
      if j < m {
        assert kept[j] == before[j];
      }
    }
    forall k | 0 <= k < |kept| ensures 0 <= kept[k] < rev + 1 {
      if k < m {
        assert kept[k] == before[k];
      }
    }
  }

  /** Updating the owner's list with a well-formed list keeps the state
      well formed for the next revision. */
  lemma UpdateWellFormed(st: RunState, rev: int, branch: string, revs: seq<int>, spurious: set<int>)
    requires WellFormedState(st, rev) && RevsBefore(revs, rev + 1)
    ensures WellFormedState(RunState(st.branchRevs[branch := revs], spurious), rev + 1)
  {
    forall b | b in st.branchRevs && b != branch ensures RevsBefore(st.branchRevs[b], rev + 1) {
      assert RevsBefore(st.branchRevs[b], rev);
    }
  }

  /** A state well formed before `rev` is well formed before `rev + 1`. */
  lemma WellFormedLater(st: RunState, rev: int)
    requires WellFormedState(st, rev)
    ensures WellFormedState(st, rev + 1)
  {
    forall b | b in st.branchRevs ensures RevsBefore(st.branchRevs[b], rev + 1) {
      assert RevsBefore(st.branchRevs[b], rev);
    }
  }

  lemma StepOnWellFormed(t: Tables, st: RunState, rev: nat, branch: string, actual: seq<string>,
                         merge: seq<PathRev>)
    requires WellFormedState(st, rev)
    ensures WellFormedState(StepOn(t, st, rev, branch, actual, merge).st, rev + 1)
  {
    var before := Lookup(st.branchRevs, branch);
    AppendWellFormed(before, rev);
    if actual == [] {
      UpdateWellFormed(st, rev, branch, before + [rev], st.spurious + {rev});
    } else {
      KeptWellFormed(before, rev, st.spurious);
      match SkipSpurious(before + [rev], st.spurious, None)
      case Err(_) => WellFormedLater(st, rev);
      case Ok((kept, reparenting)) =>
        UpdateWellFormed(st, rev, branch, kept, st.spurious);
    }
  }

  /** One revision keeps the state well formed. */
  lemma StepWellFormed(t: Tables, st: RunState, rev: nat, commit: seq<string>, merge: seq<PathRev>)
    requires WellFormedState(st, rev)
    ensures WellFormedState(Step(t, st, rev, commit, merge).st, rev + 1)
  {
    var actual := Lookup(t.byrev, rev);
    match Classify(actual + Requested(commit, t.breakpoints))
    case Err(_) => WellFormedLater(st, rev);
    case Ok(branch) =>
      StepOnWellFormed(t, st, rev, branch, actual, merge);
  }

  /** The evidence adds at most one merge directive, sound and about `rev`. */
  lemma ConcludeSound(t: Tables, st: RunState, rev: int, branch: string, actual: seq<string>,
                      merge: seq<PathRev>, shown: seq<Directive>)
    ensures var out := Conclude(t, st, rev, branch, actual, merge, shown).out;
      |shown| <= |out| && out[..|shown|] == shown &&
      forall k :: |shown| <= k < |out| ==> out[k].MergeFrom? && out[k].rev == rev && Sound(out[k])
  {
    EvidenceLows(t, st.branchRevs, merge, actual, branch, rev);
    match EvidenceRange(t, st.branchRevs, merge, actual, branch, rev)
    case Err(_) =>
    case Ok(brange) =>
      DecideSource(brange, branch, rev);
      var out := shown + Decide(brange, branch, rev);
      forall k | |shown| <= k < |out| ensures out[k] in Decide(brange, branch, rev) {
        assert out[k] == Decide(brange, branch, rev)[k - |shown|];
      }
  }

  /** Every directive one revision prints is about that revision and sound;
      a reparenting target is an earlier revision of the owner's list that is
      not spurious. */
  lemma StepOnSound(t: Tables, st: RunState, rev: nat, branch: string, actual: seq<string>, merge: seq<PathRev>)
    requires WellFormedState(st, rev)
    ensures forall d :: d in StepOn(t, st, rev, branch, actual, merge).out ==> d.rev == rev && Sound(d)
    ensures forall d :: d in StepOn(t, st, rev, branch, actual, merge).out && d.Reparent? ==>
      d.parent !in st.spurious && d.parent in Lookup(st.branchRevs, branch)
  {
    var before := Lookup(st.branchRevs, branch);
    if actual != [] {
      KeptWellFormed(before, rev, st.spurious);
      match SkipSpurious(before + [rev], st.spurious, None)
      case Err(_) =>
      case Ok((kept, reparenting)) =>
        var shown := ReparentLine(reparenting, rev);
        var st' := RunState(st.branchRevs[branch := kept], st.spurious);
        ConcludeSound(t, st', rev, branch, actual, merge, shown);
        var out := Conclude(t, st', rev, branch, actual, merge, shown).out;
        forall d | d in out ensures d.rev == rev && Sound(d)
          && (d.Reparent? ==> d.parent !in st.spurious && d.parent in before)
        {
          var k :| 0 <= k < |out| && out[k] == d;
          if k < |shown| {
            assert d == shown[k];
          }
        }
    }
  }

  lemma StepSound(t: Tables, st: RunState, rev: nat, commit: seq<string>, merge: seq<PathRev>)
    requires WellFormedState(st, rev)
    ensures forall d :: d in Step(t, st, rev, commit, merge).out ==> d.rev == rev && Sound(d)
    ensures forall d :: d in Step(t, st, rev, commit, merge).out && d.Reparent? ==>
      d.parent !in st.spurious && exists b :: b in st.branchRevs && d.parent in st.branchRevs[b]
  {
    var actual := Lookup(t.byrev, rev);
    match Classify(actual + Requested(commit, t.breakpoints))
    case Err(_) =>
    case Ok(branch) =>
      StepOnSound(t, st, rev, branch, actual, merge);
  }

  /** The directives printed so far are sound, about revisions before
      `upto`, and in revision order. */
  predicate InOrder(out: seq<Directive>, upto: int)
  {
    && (forall i, j :: 0 <= i < j < |out| ==> out[i].rev <= out[j].rev)
    && (forall k :: 0 <= k < |out| ==> 0 <= out[k].rev < upto && Sound(out[k]))
  }

  lemma InOrderAppend(out: seq<Directive>, more: seq<Directive>, rev: nat)
    requires InOrder(out, rev)
    requires forall d :: d in more ==> d.rev == rev && Sound(d)
    ensures InOrder(out + more, rev + 1)
  {
    var all := out + more;
    forall k | |out| <= k < |all| ensures all[k].rev == rev && Sound(all[k]) {
      assert all[k] == more[k - |out|];
    }
    forall k | 0 <= k < |out| ensures all[k] == out[k] {
    }
  }

  lemma {:induction false} RunFromSound(t: Tables, commits: seq<seq<string>>, merges: seq<seq<PathRev>>,
                                        rev: nat, st: RunState, out: seq<Directive>)
    requires |commits| == |merges| && rev <= |commits|
    requires WellFormedState(st, rev) && InOrder(out, rev)
    ensures InOrder(RunFrom(t, commits, merges, rev, st, out).out, |commits|)
    decreases |commits| - rev
  {
    if rev < |commits| {
      var s := Step(t, st, rev, commits[rev], merges[rev]);
      StepSound(t, st, rev, commits[rev], merges[rev]);
      StepWellFormed(t, st, rev, commits[rev], merges[rev]);
      InOrderAppend(out, s.out, rev);
      if s.fault.None? {
        RunFromSound(t, commits, merges, rev + 1, s.st, out + s.out);
      }
    }
  }

  /** Every directive `analyze` prints names a revision of the log, the
      directives come out in revision order, a reparenting goes back to an
      earlier positive revision, and a merge never comes from a later
      revision. */
  lemma RunSound(t: Tables, commits: seq<seq<string>>, merges: seq<seq<PathRev>>)
    requires |commits| == |merges|
    ensures InOrder(Run(t, commits, merges).out, |commits|)
  {
    RunFromSound(t, commits, merges, 0, Initial, []);
  }
}
