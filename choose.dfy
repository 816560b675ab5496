/** `BranchRange.choose_best` (analyzeslurp.py:78-86): the single origin
    reported for a merge. With several candidate windows, trunk windows are
    preferred, then windows on the revision's own branch, then all of them;
    the greatest `(branch, low, high)` of the preferred windows gives the
    reported `(branch, low)`. */
module Choose {
  import opened Wrappers
  import opened Orders
  import opened Intervals

  /** `choices[br]`: the windows of `s` on branch `br`, in order. */
  function OnBranch(s: seq<Interval>, br: string): (r: seq<Interval>)
    ensures forall iv :: iv in r <==> iv in s && iv.branch == br
  {
    if s == [] then []
    else (if s[0].branch == br then [s[0]] else []) + OnBranch(s[1..], br)
  }

  /** The windows that survive `self = choices[branch] or self` followed by
      `self = choices['trunk'] or self`. */
  function Preferred(s: seq<Interval>, branch: string): seq<Interval>
  {
    var trunk := OnBranch(s, "trunk");
    var own := OnBranch(s, branch);
    if trunk != [] then trunk else if own != [] then own else s
  }

  /** `choose_best(branch)`; `None` is the empty (false) result. */
  function ChooseBest(s: seq<Interval>, branch: string): (r: Option<(string, int)>)
    ensures r.None? <==> s == []
    ensures r.Some? ==> exists iv :: iv in s && (iv.branch, iv.low) == r.value
  {
    if |s| > 1 then
      var chosen := SortBy(Preferred(s, branch), IvLt);
      var best := chosen[|chosen| - 1];
      assert best in multiset(Preferred(s, branch));
      Some((best.branch, best.low))
    else if |s| == 1 then Some((s[0].branch, s[0].low))
    else None
  }

  /** A single window is reported as it is. */
  lemma ChooseSingle(s: seq<Interval>, branch: string)
    requires |s| == 1
    ensures ChooseBest(s, branch) == Some((s[0].branch, s[0].low))
  {
  }

  /** `best` is the greatest window of `p` in tuple order. */
  predicate Greatest(best: Interval, p: seq<Interval>)
  {
    best in p && forall iv :: iv in p ==> iv == best || IvLt(iv, best)
  }

  lemma LastIsGreatest(chosen: seq<Interval>)
    requires chosen != []
    requires StrictTotalOrder(IvLt) && SortedBy(chosen, IvLt)
    ensures Greatest(chosen[|chosen| - 1], chosen)
  {
    var last := |chosen| - 1;
    forall k | 0 <= k < last ensures chosen[k] == chosen[last] || IvLt(chosen[k], chosen[last]) {
      assert !IvLt(chosen[last], chosen[k]);
    }
  }

  /** With several windows, the report comes from the greatest preferred
      window. */
  lemma ChooseGreatest(s: seq<Interval>, branch: string)
    requires |s| > 1
    ensures exists best :: Greatest(best, Preferred(s, branch)) &&
                           ChooseBest(s, branch) == Some((best.branch, best.low))
  {
    var p := Preferred(s, branch);
    assert s[0] in s;
    assert p != [];
    SortedLastGreatest(p);
  }

  lemma SortedLastGreatest(p: seq<Interval>)
    requires p != []
    ensures Greatest(SortBy(p, IvLt)[|p| - 1], p)
  {
    var chosen := SortBy(p, IvLt);
    IvLtIsOrder();
    SortBySorted(p, IvLt);
    LastIsGreatest(chosen);
    assert forall iv :: iv in chosen <==> iv in p by {
      assert forall iv :: iv in chosen <==> iv in multiset(p);
    }
  }

  /** With several windows, a trunk window wins whenever there is one;
      otherwise a window on the revision's own branch wins whenever there is
      one. Trunk is preferred even over the own branch. */
  lemma ChoosePreference(s: seq<Interval>, branch: string)
    requires |s| > 1
    ensures (exists iv :: iv in s && iv.branch == "trunk") ==>
      ChooseBest(s, branch).value.0 == "trunk"
    ensures ((exists iv :: iv in s && iv.branch == branch) &&
             (forall iv :: iv in s ==> iv.branch != "trunk")) ==>
            ChooseBest(s, branch).value.0 == branch
  {
    ChooseGreatest(s, branch);
    if exists iv :: iv in s && iv.branch == "trunk" {
      var iv :| iv in s && iv.branch == "trunk";
      assert iv in OnBranch(s, "trunk");
    }
    if exists iv :: iv in s && iv.branch == branch {
      var iv :| iv in s && iv.branch == branch;
      assert iv in OnBranch(s, branch);
    }
  }
}
