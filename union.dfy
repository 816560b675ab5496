/** The coalescing union `|` of branch ranges (analyzeslurp.py:58-76).

    The windows of both operands are grouped by branch; each branch's
    `(low, high)` pairs are sorted and then coalesced by a backward loop that
    replaces two neighbours by `(earlier low, later high)` whenever the later
    low does not exceed the earlier high. The merged window keeps the later
    window's high, not the larger high, so a window nested inside another
    truncates it, and `|` is not associative. */
module Union {
  import opened Wrappers
  import opened Orders
  import opened Intervals

  type Pair = (int, int)

  /** Python's tuple order on `(low, high)`. */
  predicate PairLt(p: Pair, q: Pair)
  {
    p.0 < q.0 || (p.0 == q.0 && p.1 < q.1)
  }

  lemma PairLtIsOrder()
    ensures StrictTotalOrder(PairLt)
  {
  }

  /** The branches of `s` in order of first appearance (the keys of
      `mydict`, analyzeslurp.py:61-63). */
  function BranchesOf(s: seq<Interval>): (r: seq<string>)
    ensures forall br :: br in r <==> exists iv :: iv in s && iv.branch == br
  {
    if s == [] then []
    else
      var init := s[..|s| - 1];
      var last := s[|s| - 1];
      var p := BranchesOf(init);
      assert forall iv :: iv in s <==> iv in init || iv == last by {
        assert s == init + [last];
      }
      if last.branch in p then p else p + [last.branch]
  }

  /** The `(low, high)` pairs of `s` on branch `br`, in order (`mydict[br]`). */
  function Windows(s: seq<Interval>, br: string): (r: seq<Pair>)
    ensures |r| <= |s|
  {
    if s == [] then []
    else
      var last := s[|s| - 1];
      Windows(s[..|s| - 1], br) + Single(last, br)
  }

  /** The coalescing loop of analyzeslurp.py:68-70 run over `s`: the pair
      `s[0]` absorbs the coalesced rest's first pair when that pair's low does
      not exceed `s[0]`'s high. */
  function CoalesceFrom(s: seq<Pair>, i: nat): (r: seq<Pair>)
    requires i <= |s|
    ensures |r| <= |s| - i
    ensures i < |s| ==> r != [] && r[0].0 == s[i].0
    decreases |s| - i
  {
    if i == |s| then []
    else
      var c := CoalesceFrom(s, i + 1);
      if c != [] && c[0].0 <= s[i].1 then [(s[i].0, c[0].1)] + c[1..] else [s[i]] + c
  }

  /** The coalescing loop run over all of `s`. */
  function Coalesce(s: seq<Pair>): (r: seq<Pair>)
    ensures |r| <= |s|
  {
    CoalesceFrom(s, 0)
  }

  /** The windows `(br, low, high)` for the pairs `ps`. */
  function Tag(br: string, ps: seq<Pair>): (r: seq<Interval>)
    ensures |r| == |ps|
    ensures forall k :: 0 <= k < |r| ==> r[k] == Interval(br, ps[k].0, ps[k].1)
  {
    if ps == [] then [] else [Interval(br, ps[0].0, ps[0].1)] + Tag(br, ps[1..])
  }

  /** The coalesced windows of one branch. */
  function BranchPart(s: seq<Interval>, br: string): seq<Interval>
  {
    Tag(br, Coalesce(SortBy(Windows(s, br), PairLt)))
  }

  /** The set `branches` after the first `n` branches of `brs` have been
      processed. */
  function Collect(brs: seq<string>, s: seq<Interval>, n: nat): (r: seq<Interval>)
    requires n <= |brs|
  {
    if n == 0 then []
    else AddAll(BranchPart(s, brs[n - 1]), Collect(brs, s, n - 1), IvLt)
  }

  /** `a | b` on two lists of windows. */
  function Merge(a: seq<Interval>, b: seq<Interval>): seq<Interval>
  {
    var brs := BranchesOf(a + b);
    Collect(brs, a + b, |brs|)
  }

  // ---------------------------------------------------------------------
  // The imperative union
  // ---------------------------------------------------------------------

  /** The backward coalescing loop with its slice assignment. */
  method CoalesceInPlace(s: seq<Pair>) returns (list: seq<Pair>)
    ensures list == Coalesce(s)
  {
    list := s;
    var i := if |s| > 0 then |s| - 1 else 0;
    assert s == [] || s[i..] == [s[i]];
    while i > 0
      invariant 0 <= i < |s| || (i == 0 && s == [])
      invariant list == s[..i] + CoalesceFrom(s, i)
      decreases i
    {
      CoalesceStep(s, i, list);
      if list[i].0 <= list[i - 1].1 {
        list := list[..i - 1] + [(list[i - 1].0, list[i].1)] + list[i + 1..];
      }
      i := i - 1;
    }
  }

  /** One pass of the backward loop turns the state after position `i`
      into the state after position `i - 1`. */
  lemma CoalesceStep(s: seq<Pair>, i: int, list: seq<Pair>)
    requires 0 < i < |s| && list == s[..i] + CoalesceFrom(s, i)
    ensures |list| > i
    ensures list[i].0 <= list[i - 1].1 ==>
      list[..i - 1] + [(list[i - 1].0, list[i].1)] + list[i + 1..] == s[..i - 1] + CoalesceFrom(s, i - 1)
    ensures list[i].0 > list[i - 1].1 ==> list == s[..i - 1] + CoalesceFrom(s, i - 1)
  {
    var c := CoalesceFrom(s, i);
    assert s[..i] == s[..i - 1] + [s[i - 1]];
    SpliceStep(s[..i - 1], s[i - 1], c, list);
  }

  /** The slice assignment on a list `p + [x] + c` with `c` nonempty. */
  lemma SpliceStep(p: seq<Pair>, x: Pair, c: seq<Pair>, list: seq<Pair>)
    requires c != [] && list == p + [x] + c
    ensures |list| > |p| + 1 && list[|p|] == x && list[|p| + 1] == c[0]
    ensures list[..|p|] + [(x.0, c[0].1)] + list[|p| + 2..] == p + ([(x.0, c[0].1)] + c[1..])
    ensures list == p + ([x] + c)
  {
    assert list[..|p|] == p;
    assert list[|p| + 2..] == c[1..];
  }

  /** The grouping loop of analyzeslurp.py:61-63: `groups[br]` is the list
      `mydict[br]` and `keys` its keys in order of insertion. */
  method GroupByBranch(s: seq<Interval>) returns (groups: map<string, seq<Pair>>, keys: seq<string>)
    ensures keys == BranchesOf(s)
    ensures forall br :: br in groups <==> br in keys
    ensures forall br :: br in groups ==> groups[br] == Windows(s, br)
  {
    groups := map[];
    keys := [];
    var k := 0;
    while k < |s|
      invariant 0 <= k <= |s|
      invariant keys == BranchesOf(s[..k])
      invariant forall br :: br in groups <==> br in keys
      invariant forall br :: br in groups ==> groups[br] == Windows(s[..k], br)
    {
      var iv := s[k];
      GroupStep(s[..k], iv, groups, keys);
      assert s[..k + 1] == s[..k] + [iv];
      var bucket := if iv.branch in groups then groups[iv.branch] else [];
      if iv.branch !in groups {
        keys := keys + [iv.branch];
      }
      groups := groups[iv.branch := bucket + [(iv.low, iv.high)]];
      k := k + 1;
    }
    assert s[..k] == s;
  }

  /** One pass of the grouping loop keeps the buckets equal to `Windows`
      and the keys equal to `BranchesOf` over the prefix read so far. */
  lemma GroupStep(prefix: seq<Interval>, iv: Interval, groups: map<string, seq<Pair>>, keys: seq<string>)
    requires keys == BranchesOf(prefix)
    requires forall br :: br in groups <==> br in keys
    requires forall br :: br in groups ==> groups[br] == Windows(prefix, br)
    ensures (if iv.branch in groups then keys else keys + [iv.branch]) == BranchesOf(prefix + [iv])
    ensures var bucket := if iv.branch in groups then groups[iv.branch] else [];
      forall br :: br in groups[iv.branch := bucket + [(iv.low, iv.high)]] ==>
        groups[iv.branch := bucket + [(iv.low, iv.high)]][br] == Windows(prefix + [iv], br)
  {
    SnocSteps(prefix, iv);
    if iv.branch !in groups {
      WindowsAbsent(prefix, iv.branch);
    }
  }

  /** `branches.add((br, al, ah))` for each coalesced pair (analyzeslurp.py:71-72). */
  method AddWindows(br: string, list: seq<Pair>, r0: seq<Interval>) returns (r: seq<Interval>)
    ensures r == AddAll(Tag(br, list), r0, IvLt)
  {
    r := r0;
    var j := 0;
    while j < |list|
      invariant 0 <= j <= |list|
      invariant r == AddAll(Tag(br, list[..j]), r0, IvLt)
    {
      var iv := Interval(br, list[j].0, list[j].1);
      AddAllSnoc(Tag(br, list[..j]), iv, r0, IvLt);
      assert Tag(br, list[..j + 1]) == Tag(br, list[..j]) + [iv];
      r := AddTo(iv, r, IvLt);
      j := j + 1;
    }
    assert list[..j] == list;
  }

  /** Sort, coalesce and add the windows of one branch (analyzeslurp.py:66-72). */
  method CoalesceBranch(s: seq<Interval>, keys: seq<string>, n: nat, mylist: seq<Pair>,
                        r0: seq<Interval>) returns (r: seq<Interval>)
    requires n < |keys|
    requires mylist == Windows(s, keys[n])
    requires r0 == Collect(keys, s, n)
    ensures r == Collect(keys, s, n + 1)
  {
    var list := SortBy(mylist, PairLt);
    list := CoalesceInPlace(list);
    r := AddWindows(keys[n], list, r0);
  }

  /** The loop over the branches in order of first appearance
      (analyzeslurp.py:64-72). */
  method CoalesceAll(s: seq<Interval>, groups: map<string, seq<Pair>>, keys: seq<string>)
    returns (r: seq<Interval>)
    requires forall br :: br in groups <==> br in keys
    requires forall br :: br in groups ==> groups[br] == Windows(s, br)
    ensures r == Collect(keys, s, |keys|)
  {
    r := [];
    var n := 0;
    while n < |keys|
      invariant 0 <= n <= |keys|
      invariant r == Collect(keys, s, n)
    {
      r := CoalesceBranch(s, keys, n, groups[keys[n]], r);
      n := n + 1;
    }
  }

  /** `__or__` on two lists of windows (analyzeslurp.py:61-73). */
  method Union(a: seq<Interval>, b: seq<Interval>) returns (r: seq<Interval>)
    ensures r == Merge(a, b)
  {
    var groups, keys := GroupByBranch(a + b);
    r := CoalesceAll(a + b, groups, keys);
  }

  /** The pair `iv` contributes to `mydict[br]`. */
  function Single(iv: Interval, br: string): seq<Pair>
  {
    if iv.branch == br then [(iv.low, iv.high)] else []
  }

  /** One step of the grouping loop. */
  lemma SnocSteps(s: seq<Interval>, iv: Interval)
    ensures BranchesOf(s + [iv]) ==
      if iv.branch in BranchesOf(s) then BranchesOf(s) else BranchesOf(s) + [iv.branch]
    ensures forall br :: Windows(s + [iv], br) == Windows(s, br) + Single(iv, br)
  {
    assert (s + [iv])[..|s + [iv]| - 1] == s;
  }

  lemma {:induction false} WindowsAbsent(s: seq<Interval>, br: string)
    requires br !in BranchesOf(s)
    ensures Windows(s, br) == []
  {
    if s != [] {
      WindowsAbsent(s[..|s| - 1], br);
    }
  }

  lemma {:induction false} AddAllSnoc<T(!new)>(xs: seq<T>, x: T, s: seq<T>, lt: (T, T) -> bool)
    ensures AddAll(xs + [x], s, lt) == AddTo(x, AddAll(xs, s, lt), lt)
  {
    if xs != [] {
      assert (xs + [x])[1..] == xs[1..] + [x];
      AddAllSnoc(xs[1..], x, AddTo(xs[0], s, lt), lt);
    }
  }

  // ---------------------------------------------------------------------
  // Properties of the coalescing loop
  // ---------------------------------------------------------------------

  /** Every pair is a nonempty window. */
  predicate WellFormedPairs(s: seq<Pair>)
  {
    forall k :: 0 <= k < |s| ==> s[k].0 < s[k].1
  }

  /** Each pair ends strictly before the next one starts. */
  predicate Separated(c: seq<Pair>)
  {
    forall m, n :: 0 <= m < n < |c| ==> c[m].1 < c[n].0
  }

  /** Coalescing sorted nonempty windows leaves nonempty windows, sorted,
      with a gap between each window and the next. */
  lemma {:induction false} CoalesceFromShape(s: seq<Pair>, i: nat)
    requires i <= |s| && SortedBy(s, PairLt) && WellFormedPairs(s)
    ensures WellFormedPairs(CoalesceFrom(s, i)) && Separated(CoalesceFrom(s, i))
    decreases |s| - i
  {
    if i < |s| {
      CoalesceFromShape(s, i + 1);
      var c := CoalesceFrom(s, i + 1);
      if c != [] && c[0].0 <= s[i].1 {
        LowsAscending(s, i, i + 1);
        AbsorbShape(s[i], c);
      } else {
        PrependShape(s[i], c);
      }
    }
  }

  /** Absorbing the first window of a separated list keeps it separated. */
  lemma AbsorbShape(p: Pair, c: seq<Pair>)
    requires c != [] && WellFormedPairs(c) && Separated(c) && p.0 <= c[0].0
    ensures WellFormedPairs([(p.0, c[0].1)] + c[1..]) && Separated([(p.0, c[0].1)] + c[1..])
  {
    var r := [(p.0, c[0].1)] + c[1..];
    forall m, n | 0 <= m < n < |r| ensures r[m].1 < r[n].0 {
      assert r[n] == c[n];
      if m > 0 {
        assert r[m] == c[m];
      }
    }
    forall k | 0 <= k < |r| ensures r[k].0 < r[k].1 {
      if k > 0 {
        assert r[k] == c[k];
      }
    }
  }

  /** A window with a gap before a separated list keeps it separated. */
  lemma PrependShape(p: Pair, c: seq<Pair>)
    requires WellFormedPairs(c) && Separated(c) && p.0 < p.1
    requires c != [] ==> p.1 < c[0].0
    ensures WellFormedPairs([p] + c) && Separated([p] + c)
  {
    var r := [p] + c;
    forall m, n | 0 <= m < n < |r| ensures r[m].1 < r[n].0 {
      assert r[n] == c[n - 1];
      if m > 0 {
        assert r[m] == c[m - 1];
      } else if n > 1 {
        assert c[0].1 < c[n - 1].0;
      }
    }
  }

  lemma CoalesceShape(s: seq<Pair>)
    requires SortedBy(s, PairLt) && WellFormedPairs(s)
    ensures WellFormedPairs(Coalesce(s)) && Separated(Coalesce(s))
  {
    CoalesceFromShape(s, 0);
  }

  /** Every window's low from position `i` on is inside some coalesced
      window. */
  lemma {:induction false} CoalesceFromCovers(s: seq<Pair>, i: nat, k: int)
    requires SortedBy(s, PairLt) && WellFormedPairs(s)
    requires i <= k < |s|
    ensures exists m :: 0 <= m < |CoalesceFrom(s, i)| && CoalesceFrom(s, i)[m].0 <= s[k].0 < CoalesceFrom(s, i)[m].1
    decreases |s| - i
  {
    var c := CoalesceFrom(s, i + 1);
    var r := CoalesceFrom(s, i);
    var merged := c != [] && c[0].0 <= s[i].1;
    if k == i {
      if merged {
        CoalesceFromShape(s, i + 1);
        LowsAscending(s, i, i + 1);
        assert r[0].0 <= s[i].0 < r[0].1;
      } else {
        assert r[0] == s[i];
      }
    } else {
      CoalesceFromCovers(s, i + 1, k);
      var m :| 0 <= m < |c| && c[m].0 <= s[k].0 < c[m].1;
      if merged {
        if m == 0 {
          LowsAscending(s, i, k);
          assert r[0].0 <= s[k].0 < r[0].1;
        } else {
          assert r[m] == c[m];
        }
      } else {
        assert r[m + 1] == c[m];
      }
    }
  }

  /** In a sorted sequence of pairs the lows never decrease. */
  lemma LowsAscending(s: seq<Pair>, i: int, k: int)
    requires SortedBy(s, PairLt) && 0 <= i <= k < |s|
    ensures s[i].0 <= s[k].0
  {
    if i < k {
      assert !PairLt(s[k], s[i]);
    }
  }

  /** Every window's low is inside some coalesced window. */
  lemma CoalesceCovers(s: seq<Pair>, k: int)
    requires SortedBy(s, PairLt) && WellFormedPairs(s)
    requires 0 <= k < |s|
    ensures exists m :: 0 <= m < |Coalesce(s)| && Coalesce(s)[m].0 <= s[k].0 < Coalesce(s)[m].1
  {
    CoalesceFromCovers(s, 0, k);
    var m :| 0 <= m < |CoalesceFrom(s, 0)| && CoalesceFrom(s, 0)[m].0 <= s[k].0 < CoalesceFrom(s, 0)[m].1;
    assert Coalesce(s)[m] == CoalesceFrom(s, 0)[m];
  }

  /** A coalesced window starts where some window from position `i` on
      starts and ends where one ends. */
  lemma {:induction false} CoalesceFromEndpoints(s: seq<Pair>, i: nat, m: int)
    requires i <= |s| && 0 <= m < |CoalesceFrom(s, i)|
    ensures exists k :: i <= k < |s| && s[k].0 == CoalesceFrom(s, i)[m].0
    ensures exists k :: i <= k < |s| && s[k].1 == CoalesceFrom(s, i)[m].1
    decreases |s| - i
  {
    var c := CoalesceFrom(s, i + 1);
    var r := CoalesceFrom(s, i);
    if c != [] && c[0].0 <= s[i].1 {
      if m == 0 {
        assert s[i].0 == r[0].0;
        CoalesceFromEndpoints(s, i + 1, 0);
        var k :| i + 1 <= k < |s| && s[k].1 == c[0].1;
        assert s[k].1 == r[0].1;
      } else {
        CoalesceFromEndpoints(s, i + 1, m);
        assert r[m] == c[m];
      }
    } else if m == 0 {
      assert s[i] == r[0];
    } else {
      CoalesceFromEndpoints(s, i + 1, m - 1);
      assert r[m] == c[m - 1];
    }
  }

  /** A coalesced window starts where some window starts and ends where
      some window ends: coalescing invents no revision bounds. */
  lemma CoalesceEndpoints(s: seq<Pair>, m: int)
    requires 0 <= m < |Coalesce(s)|
    ensures exists k :: 0 <= k < |s| && s[k].0 == Coalesce(s)[m].0
    ensures exists k :: 0 <= k < |s| && s[k].1 == Coalesce(s)[m].1
  {
    CoalesceFromEndpoints(s, 0, m);
  }

  // ---------------------------------------------------------------------
  // Properties of the union
  // ---------------------------------------------------------------------

  /** The coalesced pairs of branch `br`. */
  function Coalesced(s: seq<Interval>, br: string): seq<Pair>
  {
    Coalesce(SortBy(Windows(s, br), PairLt))
  }

  lemma {:induction false} WindowsMembers(s: seq<Interval>, br: string)
    ensures forall p :: p in Windows(s, br) <==> Interval(br, p.0, p.1) in s
  {
    if s != [] {
      var init := s[..|s| - 1];
      WindowsMembers(init, br);
      assert s == init + [s[|s| - 1]];
    }
  }

  lemma {:induction false} CollectMembers(brs: seq<string>, s: seq<Interval>, n: nat)
    requires n <= |brs|
    ensures forall iv :: iv in Collect(brs, s, n) <==>
      iv.branch in brs[..n] && (iv.low, iv.high) in Coalesced(s, iv.branch)
  {
    if n > 0 {
      var br := brs[n - 1];
      CollectMembers(brs, s, n - 1);
      assert brs[..n] == brs[..n - 1] + [br];
      var part := BranchPart(s, br);
      forall iv ensures iv in part <==> iv.branch == br && (iv.low, iv.high) in Coalesced(s, br) {
        var c := Coalesced(s, br);
        if iv in part {
          var k :| 0 <= k < |part| && part[k] == iv;
          assert c[k] == (iv.low, iv.high);
        }
        if iv.branch == br && (iv.low, iv.high) in c {
          var k :| 0 <= k < |c| && c[k] == (iv.low, iv.high);
          assert part[k] == iv;
        }
      }
    }
  }

  /** The windows of `a | b`: on each branch, the coalesced sorted windows
      of both operands on that branch. */
  lemma MergeMembers(a: seq<Interval>, b: seq<Interval>)
    ensures forall iv :: iv in Merge(a, b) <==> (iv.low, iv.high) in Coalesced(a + b, iv.branch)
  {
    var s := a + b;
    var brs := BranchesOf(s);
    CollectMembers(brs, s, |brs|);
    assert brs[..|brs|] == brs;
    forall br | br !in BranchesOf(s) ensures Coalesced(s, br) == [] {
      WindowsAbsent(s, br);
    }
  }

  lemma MergeAscending(a: seq<Interval>, b: seq<Interval>)
    ensures Ascending(Merge(a, b), IvLt)
  {
    IvLtIsOrder();
    var brs := BranchesOf(a + b);
    CollectAscending(brs, a + b, |brs|);
  }

  lemma {:induction false} CollectAscending(brs: seq<string>, s: seq<Interval>, n: nat)
    requires n <= |brs| && StrictTotalOrder(IvLt)
    ensures Ascending(Collect(brs, s, n), IvLt)
  {
    if n > 0 {
      CollectAscending(brs, s, n - 1);
      AddAllAscending(BranchPart(s, brs[n - 1]), Collect(brs, s, n - 1), IvLt);
    }
  }

  /** All windows of a range are nonempty. */
  predicate WellFormed(s: seq<Interval>)
  {
    forall iv :: iv in s ==> iv.low < iv.high
  }

  /** The sorted list of one branch holds exactly that branch's windows. */
  lemma SortedMembers(s: seq<Interval>, br: string)
    ensures forall p :: p in SortBy(Windows(s, br), PairLt) <==> Interval(br, p.0, p.1) in s
  {
    var w := Windows(s, br);
    WindowsMembers(s, br);
    assert forall p :: p in SortBy(w, PairLt) <==> p in multiset(w);
  }

  /** The sorted list of one branch is sorted and, for well-formed input,
      holds nonempty windows only. */
  lemma SortedWindows(s: seq<Interval>, br: string)
    requires WellFormed(s)
    ensures SortedBy(SortBy(Windows(s, br), PairLt), PairLt)
    ensures WellFormedPairs(SortBy(Windows(s, br), PairLt))
  {
    var sorted := SortBy(Windows(s, br), PairLt);
    SortedMembers(s, br);
    PairLtIsOrder();
    SortBySorted(Windows(s, br), PairLt);
    forall k | 0 <= k < |sorted| ensures sorted[k].0 < sorted[k].1 {
      assert Interval(br, sorted[k].0, sorted[k].1) in s;
    }
  }

  /** The facts about one branch's coalesced windows, for well-formed input. */
  lemma CoalescedShape(s: seq<Interval>, br: string)
    requires WellFormed(s)
    ensures WellFormedPairs(Coalesced(s, br)) && Separated(Coalesced(s, br))
  {
    SortedWindows(s, br);
    CoalesceShape(SortBy(Windows(s, br), PairLt));
  }

  /** Union of well-formed ranges is well-formed, and two different windows
      of one branch in it are separated by a gap. */
  lemma MergeSeparated(a: seq<Interval>, b: seq<Interval>, x: Interval, y: Interval)
    requires WellFormed(a) && WellFormed(b)
    requires x in Merge(a, b) && y in Merge(a, b)
    ensures x.low < x.high
    ensures x.branch == y.branch && x != y ==> x.high < y.low || y.high < x.low
  {
    MergeMembers(a, b);
    var s := a + b;
    CoalescedShape(s, x.branch);
    var c := Coalesced(s, x.branch);
    var m :| 0 <= m < |c| && c[m] == (x.low, x.high);
    if x.branch == y.branch && x != y {
      var n :| 0 <= n < |c| && c[n] == (y.low, y.high);
      assert m != n;
    }
  }

  /** Every window of either operand starts inside some window of the union
      on its branch. */
  lemma MergeCovers(a: seq<Interval>, b: seq<Interval>, x: Interval)
    requires WellFormed(a) && WellFormed(b)
    requires x in a || x in b
    ensures exists o :: o in Merge(a, b) && o.branch == x.branch && o.low <= x.low < o.high
  {
    var s := a + b;
    var sorted := SortBy(Windows(s, x.branch), PairLt);
    SortedMembers(s, x.branch);
    SortedWindows(s, x.branch);
    assert (x.low, x.high) in sorted;
    var k :| 0 <= k < |sorted| && sorted[k] == (x.low, x.high);
    CoalesceCovers(sorted, k);
    var c := Coalesce(sorted);
    var m :| 0 <= m < |c| && c[m].0 <= x.low < c[m].1;
    MergeMembers(a, b);
    var o := Interval(x.branch, c[m].0, c[m].1);
    assert o in Merge(a, b) && o.branch == x.branch && o.low <= x.low < o.high;
  }

  /** Every window of the union starts where a window of an operand on its
      branch starts, and ends where one ends. */
  lemma MergeEndpoints(a: seq<Interval>, b: seq<Interval>, o: Interval)
    requires o in Merge(a, b)
    ensures exists x :: (x in a || x in b) && x.branch == o.branch && x.low == o.low
    ensures exists y :: (y in a || y in b) && y.branch == o.branch && y.high == o.high
  {
    var s := a + b;
    MergeMembers(a, b);
    var sorted := SortBy(Windows(s, o.branch), PairLt);
    SortedMembers(s, o.branch);
    var c := Coalesce(sorted);
    var m :| 0 <= m < |c| && c[m] == (o.low, o.high);
    CoalesceEndpoints(sorted, m);
    var k :| 0 <= k < |sorted| && sorted[k].0 == o.low;
    var k' :| 0 <= k' < |sorted| && sorted[k'].1 == o.high;
    assert sorted[k] in sorted && sorted[k'] in sorted;
    var x := Interval(o.branch, sorted[k].0, sorted[k].1);
    var y := Interval(o.branch, sorted[k'].0, sorted[k'].1);
    assert x in s && y in s;
  }

  lemma {:induction false} WindowsAppend(s: seq<Interval>, t: seq<Interval>, br: string)
    ensures Windows(s + t, br) == Windows(s, br) + Windows(t, br)
  {
    if t != [] {
      var init := t[..|t| - 1];
      assert (s + t)[..|s + t| - 1] == s + init;
      assert (s + t)[|s + t| - 1] == t[|t| - 1];
      WindowsAppend(s, init, br);
      assert Windows(s + t, br) == Windows(s + init, br) + Single(t[|t| - 1], br);
    } else {
      assert s + t == s;
    }
  }

  /** `|` is commutative: the operands are concatenated and then sorted. */
  lemma MergeCommutative(a: seq<Interval>, b: seq<Interval>)
    ensures Merge(a, b) == Merge(b, a)
  {
    PairLtIsOrder();
    forall br ensures Coalesced(a + b, br) == Coalesced(b + a, br) {
      WindowsAppend(a, b, br);
      WindowsAppend(b, a, br);
      SortByPermutationInvariant(Windows(a + b, br), Windows(b + a, br), PairLt);
    }
    MergeMembers(a, b);
    MergeMembers(b, a);
    MergeAscending(a, b);
    MergeAscending(b, a);
    IvLtIsOrder();
    AscendingUnique(Merge(a, b), Merge(b, a), IvLt);
  }

  // ---------------------------------------------------------------------
  // `|` on branch ranges
  // ---------------------------------------------------------------------

  /** `a | b` (analyzeslurp.py:58-76, and Python's `|` on booleans): `True`
      absorbs, `False` is the identity and returns the other operand as it
      is, two interval lists are merged. */
  function Join(a: BranchRange, b: BranchRange): (r: BranchRange)
    ensures r.Unconstrained? <==> a.Unconstrained? || b.Unconstrained?
    ensures a.Impossible? ==> r == b
    ensures b.Impossible? ==> r == a
    ensures a.Candidates? && b.Candidates? ==>
      (r.Candidates? && forall iv :: iv in r.ivs <==> (iv.low, iv.high) in Coalesced(a.ivs + b.ivs, iv.branch))
  {
    match (a, b)
    case (Unconstrained, _) => Unconstrained
    case (_, Unconstrained) => Unconstrained
    case (Impossible, _) => b
    case (_, Impossible) => a
    case (Candidates(xs), Candidates(ys)) =>
      MergeMembers(xs, ys);
      Candidates(Merge(xs, ys))
  }

  method Or(a: BranchRange, b: BranchRange) returns (r: BranchRange)
    ensures r == Join(a, b)
  {
    if a.Unconstrained? || b.Unconstrained? {
      r := Unconstrained;
    } else if a.Impossible? {
      r := b;
    } else if b.Impossible? {
      r := a;
    } else {
      var ivs := Union(a.ivs, b.ivs);
      r := Candidates(ivs);
    }
  }

  lemma JoinCommutative(a: BranchRange, b: BranchRange)
    ensures Join(a, b) == Join(b, a)
  {
    if a.Candidates? && b.Candidates? {
      MergeCommutative(a.ivs, b.ivs);
    }
  }

  lemma {:induction false} WindowsOtherBranch(s: seq<Interval>, br: string)
    requires forall iv :: iv in s ==> iv.branch != br
    ensures Windows(s, br) == []
  {
    if s != [] {
      assert s[|s| - 1] in s;
      WindowsOtherBranch(s[..|s| - 1], br);
    }
  }

  /** A union whose windows all lie on branch `br`. */
  lemma OneBranchMerge(a: seq<Interval>, b: seq<Interval>, br: string)
    requires forall iv :: iv in a + b ==> iv.branch == br
    ensures forall iv :: iv in Merge(a, b) <==> iv.branch == br && (iv.low, iv.high) in Coalesced(a + b, br)
  {
    MergeMembers(a, b);
    forall other | other != br ensures Windows(a + b, other) == [] {
      WindowsOtherBranch(a + b, other);
    }
  }

  /** A union on one branch, given its coalesced pairs. */
  lemma MergeIs(a: seq<Interval>, b: seq<Interval>, br: string, c: seq<Pair>, r: seq<Interval>)
    requires forall iv :: iv in a + b ==> iv.branch == br
    requires Coalesced(a + b, br) == c
    requires Ascending(r, IvLt)
    requires forall iv :: iv in r <==> iv.branch == br && (iv.low, iv.high) in c
    ensures Merge(a, b) == r
  {
    OneBranchMerge(a, b, br);
    MergeAscending(a, b);
    IvLtIsOrder();
    AscendingUnique(Merge(a, b), r, IvLt);
  }

  lemma NestedCoalesced(s: seq<Interval>, br: string, h: int)
    requires h >= 2 && s == [Interval(br, 1, h), Interval(br, 2, 3)]
    ensures Coalesced(s, br) == [(1, 3)]
  {
    assert s[..1] == [Interval(br, 1, h)];
    assert Windows(s, br) == [(1, h), (2, 3)];
    assert SortBy([(2, 3)], PairLt) == [(2, 3)];
    var sorted := [(1, h), (2, 3)];
    assert SortBy(Windows(s, br), PairLt) == sorted;
    assert CoalesceFrom(sorted, 1) == [(2, 3)];
  }

  /** A window nested inside an earlier one truncates it: `[1, 10) | [2, 3)`
      on one branch is `[1, 3)`, so revision 5, covered by the first
      operand, is no longer covered by the union. */
  lemma NestedWindowTruncates(a: seq<Interval>, b: seq<Interval>, br: string)
    requires a == [Interval(br, 1, 10)] && b == [Interval(br, 2, 3)]
    ensures Merge(a, b) == [Interval(br, 1, 3)]
    ensures a[0].low <= 5 < a[0].high
    ensures forall o :: o in Merge(a, b) ==> !(o.low <= 5 < o.high)
  {
    NestedMerge(a, b, br, 10);
  }

  lemma NestedMerge(a: seq<Interval>, b: seq<Interval>, br: string, h: int)
    requires h >= 2 && a == [Interval(br, 1, h)] && b == [Interval(br, 2, 3)]
    ensures Merge(a, b) == [Interval(br, 1, 3)]
  {
    NestedCoalesced(a + b, br, h);
    MergeIs(a, b, br, [(1, 3)], [Interval(br, 1, 3)]);
  }

  lemma OverlappingMerge(a: seq<Interval>, b: seq<Interval>, br: string)
    requires a == [Interval(br, 1, 10)] && b == [Interval(br, 5, 8)]
    ensures Merge(a, b) == [Interval(br, 1, 8)]
  {
    OverlappingCoalesced(a + b, br);
    MergeIs(a, b, br, [(1, 8)], [Interval(br, 1, 8)]);
  }

  lemma OverlappingCoalesced(s: seq<Interval>, br: string)
    requires s == [Interval(br, 1, 10), Interval(br, 5, 8)]
    ensures Coalesced(s, br) == [(1, 8)]
  {
    assert s[..1] == [Interval(br, 1, 10)];
    assert Windows(s, br) == [(1, 10), (5, 8)];
    assert SortBy([(5, 8)], PairLt) == [(5, 8)];
    var sorted := [(1, 10), (5, 8)];
    assert SortBy(Windows(s, br), PairLt) == sorted;
    assert CoalesceFrom(sorted, 1) == [(5, 8)];
  }

  lemma DisjointCoalesced(s: seq<Interval>, br: string)
    requires s == [Interval(br, 5, 8), Interval(br, 2, 3)]
    ensures Coalesced(s, br) == [(2, 3), (5, 8)]
  {
    assert s[..1] == [Interval(br, 5, 8)];
    assert Windows(s, br) == [(5, 8), (2, 3)];
    assert SortBy([(2, 3)], PairLt) == [(2, 3)];
    assert InsertBy((5, 8), [], PairLt) == [(5, 8)];
    var sorted := [(2, 3), (5, 8)];
    assert SortBy(Windows(s, br), PairLt) == sorted;
    assert CoalesceFrom(sorted, 1) == [(5, 8)];
  }

  lemma ThreeWindows(s: seq<Interval>, br: string)
    requires s == [Interval(br, 1, 10), Interval(br, 2, 3), Interval(br, 5, 8)]
    ensures Windows(s, br) == [(1, 10), (2, 3), (5, 8)]
  {
    var two := [Interval(br, 1, 10), Interval(br, 2, 3)];
    assert s[..2] == two;
    assert two[..1] == [Interval(br, 1, 10)];
    assert Windows(two, br) == [(1, 10), (2, 3)];
  }

  lemma ThreeCoalesced(s: seq<Interval>, br: string)
    requires s == [Interval(br, 1, 10), Interval(br, 2, 3), Interval(br, 5, 8)]
    ensures Coalesced(s, br) == [(1, 3), (5, 8)]
  {
    ThreeWindows(s, br);
    ThreeSorted();
    ThreeCoalesce();
  }

  lemma ThreeSorted()
    ensures SortBy([(1, 10), (2, 3), (5, 8)], PairLt) == [(1, 10), (2, 3), (5, 8)]
  {
    assert SortBy([(5, 8)], PairLt) == [(5, 8)];
    assert SortBy([(2, 3), (5, 8)], PairLt) == [(2, 3), (5, 8)];
  }

  lemma ThreeCoalesce()
    ensures Coalesce([(1, 10), (2, 3), (5, 8)]) == [(1, 3), (5, 8)]
  {
    var sorted := [(1, 10), (2, 3), (5, 8)];
    assert CoalesceFrom(sorted, 2) == [(5, 8)];
    assert CoalesceFrom(sorted, 1) == [(2, 3), (5, 8)];
  }

  lemma JoinLeftGrouping(a: BranchRange, b: BranchRange, c: BranchRange, br: string)
    requires a == Candidates([Interval(br, 1, 10)])
    requires b == Candidates([Interval(br, 5, 8)])
    requires c == Candidates([Interval(br, 2, 3)])
    ensures Join(Join(a, b), c) == Candidates([Interval(br, 1, 3)])
  {
    OverlappingMerge(a.ivs, b.ivs, br);
    NestedMerge([Interval(br, 1, 8)], c.ivs, br, 8);
  }

  lemma JoinRightGrouping(a: BranchRange, b: BranchRange, c: BranchRange, br: string)
    requires a == Candidates([Interval(br, 1, 10)])
    requires b == Candidates([Interval(br, 5, 8)])
    requires c == Candidates([Interval(br, 2, 3)])
    ensures Join(a, Join(b, c)) == Candidates([Interval(br, 1, 3), Interval(br, 5, 8)])
  {
    var bc := [Interval(br, 2, 3), Interval(br, 5, 8)];
    DisjointMerge(b.ivs, c.ivs, br);
    ThreeMerge(a.ivs, bc, br);
  }

  lemma DisjointMerge(b: seq<Interval>, c: seq<Interval>, br: string)
    requires b == [Interval(br, 5, 8)] && c == [Interval(br, 2, 3)]
    ensures Merge(b, c) == [Interval(br, 2, 3), Interval(br, 5, 8)]
  {
    StrLtIrreflexive(br);
    DisjointCoalesced(b + c, br);
    MergeIs(b, c, br, [(2, 3), (5, 8)], [Interval(br, 2, 3), Interval(br, 5, 8)]);
  }

  lemma ThreeMerge(a: seq<Interval>, bc: seq<Interval>, br: string)
    requires a == [Interval(br, 1, 10)] && bc == [Interval(br, 2, 3), Interval(br, 5, 8)]
    ensures Merge(a, bc) == [Interval(br, 1, 3), Interval(br, 5, 8)]
  {
    StrLtIrreflexive(br);
    ThreeCoalesced(a + bc, br);
    MergeIs(a, bc, br, [(1, 3), (5, 8)], [Interval(br, 1, 3), Interval(br, 5, 8)]);
  }

  /** `|` is not associative: with `a = [1, 10)`, `b = [5, 8)` and
      `c = [2, 3)` on one branch, `(a | b) | c` is `[1, 3)` while
      `a | (b | c)` also keeps `[5, 8)`. */
  lemma JoinNotAssociative(a: BranchRange, b: BranchRange, c: BranchRange, br: string)
    requires a == Candidates([Interval(br, 1, 10)])
    requires b == Candidates([Interval(br, 5, 8)])
    requires c == Candidates([Interval(br, 2, 3)])
    ensures Join(Join(a, b), c) != Join(a, Join(b, c))
  {
    JoinLeftGrouping(a, b, c, br);
    JoinRightGrouping(a, b, c, br);
    assert |Join(Join(a, b), c).ivs| == 1;
  }
}
