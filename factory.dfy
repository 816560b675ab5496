/** `factory` (analyzeslurp.py:88-103): the branch range that one piece of
    evidence `(path, rev)` allows for a revision being analysed.

    The breakpoints of the evidence are the revisions at which the path's
    content changed (its entry in the breakpoint table), or, for a path
    without an entry, the revisions of the path's branch. The window around
    `rev` runs from the last breakpoint at or before `rev` to the next one. */
module Factory {
  import opened Wrappers
  import opened Text
  import opened Branches
  import opened Intervals
  import opened Evidence

  predicate Sorted(s: seq<int>)
  {
    forall i, j :: 0 <= i < j < |s| ==> s[i] <= s[j]
  }

  /** The binary search of Python's `bisect.bisect` (`bisect_right`) on
      `a[lo..hi]`. */
  function BisectFrom(a: seq<int>, x: int, lo: nat, hi: nat): (r: nat)
    requires lo <= hi <= |a|
    ensures lo <= r <= hi
    decreases hi - lo
  {
    if lo < hi then
      var mid := (lo + hi) / 2;
      if x < a[mid] then BisectFrom(a, x, lo, mid) else BisectFrom(a, x, mid + 1, hi)
    else lo
  }

  function Bisect(a: seq<int>, x: int): (r: nat)
    ensures r <= |a|
  {
    BisectFrom(a, x, 0, |a|)
  }

  lemma {:induction false} BisectFromPartition(a: seq<int>, x: int, lo: nat, hi: nat)
    requires lo <= hi <= |a| && Sorted(a)
    requires forall k :: 0 <= k < lo ==> a[k] <= x
    requires forall k :: hi <= k < |a| ==> x < a[k]
    ensures forall k :: 0 <= k < BisectFrom(a, x, lo, hi) ==> a[k] <= x
    ensures forall k :: BisectFrom(a, x, lo, hi) <= k < |a| ==> x < a[k]
    decreases hi - lo
  {
    if lo < hi {
      var mid := (lo + hi) / 2;
      if x < a[mid] {
        BisectFromPartition(a, x, lo, mid);
      } else {
        BisectFromPartition(a, x, mid + 1, hi);
      }
    }
  }

  /** On sorted breakpoints the insertion point splits them into those at or
      before `x` and those after it. */
  lemma BisectPartition(a: seq<int>, x: int)
    requires Sorted(a)
    ensures forall k :: 0 <= k < Bisect(a, x) ==> a[k] <= x
    ensures forall k :: Bisect(a, x) <= k < |a| ==> x < a[k]
  {
    BisectFromPartition(a, x, 0, |a|);
  }

  /** `info` at analyzeslurp.py:91-94: the path's breakpoints, or else the
      revisions of its branch (an absent branch has none). */
  function Breakpoints(bypath: map<string, seq<int>>, branchrevs: map<string, seq<int>>,
                       path: string, branch: string): seq<int>
  {
    if path in bypath then bypath[path]
    else if branch in branchrevs then branchrevs[branch]
    else []
  }

  /** `(low, high)` at analyzeslurp.py:95-97. */
  function Bounds(info: seq<int>, rev: int): (int, int)
  {
    var index := Bisect(info, rev);
    var low := if index > 0 then info[index - 1] else -1;
    var high := if index < |info| then info[index] else low + 1;
    (low, high)
  }

  /** `factory((path, rev), target_branch, target_rev)`. */
  function Factory(bypath: map<string, seq<int>>, branchrevs: map<string, seq<int>>,
                   evidence: PathRev, targetBranch: string, targetRev: int): (r: Result<BranchRange, Fault>)
    ensures r.Err? && r.error.BadPath? <==> !Rooted(evidence.path)
    ensures r.Ok? ==> r.value.Unconstrained? || (r.value.Candidates? && |r.value.ivs| == 1)
    ensures r.Ok? && r.value.Candidates? ==> r.value.ivs[0].branch == BranchInfo(evidence.path).value
    ensures r.Ok? && r.value.Candidates? ==> r.value.ivs[0].low <= targetRev
    ensures r.Ok? && r.value.Unconstrained? ==> BranchInfo(evidence.path) == Ok(targetBranch)
    ensures r.Err? ==> r.error.BadPath? || r.error.LowAboveTarget?
  {
    match BranchInfo(evidence.path)
    case Err(_) => Err(BadPath(evidence.path))
    case Ok(branch) =>
      var info := Breakpoints(bypath, branchrevs, evidence.path, branch);
      var (low, high) := Bounds(info, evidence.rev);
      if !(low <= targetRev) then Err(LowAboveTarget(low, targetRev))
      else if high >= targetRev && branch == targetBranch then Ok(Unconstrained)
      else Ok(Candidates([Interval(branch, low, high)]))
  }

  /** On sorted breakpoints, `low` is the greatest breakpoint at or before
      `rev` (-1 when there is none) and `high` the least breakpoint after it
      (`low + 1` when there is none). */
  lemma BoundsMeaning(info: seq<int>, rev: int)
    requires Sorted(info)
    ensures var (low, high) := Bounds(info, rev);
      && ((low == -1 && forall k :: 0 <= k < |info| ==> rev < info[k]) ||
          (low in info && low <= rev && forall k :: 0 <= k < |info| && info[k] <= rev ==> info[k] <= low))
      && ((high == low + 1 && forall k :: 0 <= k < |info| ==> info[k] <= rev) ||
          (high in info && rev < high && forall k :: 0 <= k < |info| && rev < info[k] ==> high <= info[k]))
  {
    BisectPartition(info, rev);
  }

  /** The window is never empty for evidence at revision -1 or later. */
  lemma BoundsOrdered(info: seq<int>, rev: int)
    requires Sorted(info)
    requires rev >= -1
    ensures Bounds(info, rev).0 < Bounds(info, rev).1
  {
    BisectPartition(info, rev);
  }

  /** The outcome of `factory` in terms of the window: the assertion
      `low <= target_rev` fails, or the evidence is a pre-existing file on
      the target branch whose window reaches the target revision (no
      constraint), or the range is the single window. */
  lemma FactoryOutcome(bypath: map<string, seq<int>>, branchrevs: map<string, seq<int>>,
                       evidence: PathRev, targetBranch: string, targetRev: int)
    requires Rooted(evidence.path)
    ensures var branch := BranchInfo(evidence.path).value;
      var (low, high) := Bounds(Breakpoints(bypath, branchrevs, evidence.path, branch), evidence.rev);
      var r := Factory(bypath, branchrevs, evidence, targetBranch, targetRev);
      && (r.Err? <==> low > targetRev)
      && (r == Ok(Unconstrained) <==> low <= targetRev && high >= targetRev && branch == targetBranch)
      && (r.Ok? && r.value.Candidates? ==> r.value.ivs == [Interval(branch, low, high)])
  {
  }
}
