/** The `BranchRange` values of analyzeslurp.py and their intersection `&`.

    A branch range says where a file's content could have come from: a set of
    windows `(branch, low, high)`, each the half-open revision interval
    `[low, high)` on one branch. Python's `True` (no constraint yet) and
    `False` (no possible origin) take part in the same `&` and `|`
    expressions; here they are the explicit cases `Unconstrained` and
    `Impossible`. The program builds every computed range from a Python set,
    so a computed range is kept as a strictly ascending sequence in Python's
    tuple order, which is a canonical form for the set. */
module Intervals {
  import opened Wrappers
  import opened Orders

  /** One window `(branch, low, high)`. */
  datatype Interval = Interval(branch: string, low: int, high: int)

  datatype BranchRange =
    | Unconstrained              // Python True
    | Impossible                 // Python False
    | Candidates(ivs: seq<Interval>)

  /** Python's tuple order on `(branch, low, high)`. */
  predicate IvLt(x: Interval, y: Interval)
  {
    || StrLt(x.branch, y.branch)
    || (x.branch == y.branch && (x.low < y.low || (x.low == y.low && x.high < y.high)))
  }

  lemma IvLtIsOrder()
    ensures StrictTotalOrder(IvLt)
  {
    StrLtIsOrder();
  }

  function Max(a: int, b: int): int { if a < b then b else a }

  function Min(a: int, b: int): int { if a < b then a else b }

  /** The same-branch overlap `[max low, min high)` of two windows, if it is
      not empty (analyzeslurp.py:46-52). */
  function Overlap(x: Interval, y: Interval): (r: Option<Interval>)
    ensures r.Some? <==> x.branch == y.branch && Max(x.low, y.low) < Min(x.high, y.high)
    ensures r.Some? ==> r.value.branch == x.branch
    ensures r.Some? ==> Within(r.value, x) && Within(r.value, y)
  {
    if x.branch != y.branch then None
    else
      var lo := Max(x.low, y.low);
      var hi := Min(x.high, y.high);
      if lo >= hi then None else Some(Interval(x.branch, lo, hi))
  }

  /** Window `x` lies inside window `y`. */
  predicate Within(x: Interval, y: Interval)
  {
    x.branch == y.branch && y.low <= x.low && x.high <= y.high
  }

  /** The overlaps of `x` with each window of `b`, in order. */
  function OverlapsWith(x: Interval, b: seq<Interval>): (r: seq<Interval>)
    ensures forall iv :: iv in r <==> exists j :: 0 <= j < |b| && Overlap(x, b[j]) == Some(iv)
  {
    if b == [] then []
    else
      var rest := OverlapsWith(x, b[1..]);
      assert forall j :: 1 <= j < |b| ==> b[j] == b[1..][j - 1];
      match Overlap(x, b[0])
      case Some(iv) => [iv] + rest
      case None => rest
  }

  /** The set built by the nested loop of `__and__` (analyzeslurp.py:43-52):
      every nonempty same-branch overlap of a window of `a` with one of `b`. */
  function Intersect(a: seq<Interval>, b: seq<Interval>): (r: seq<Interval>)
    ensures forall iv :: iv in r <==>
      exists i, j :: 0 <= i < |a| && 0 <= j < |b| && Overlap(a[i], b[j]) == Some(iv)
  {
    if a == [] then []
    else
      var r := AddAll(OverlapsWith(a[0], b), Intersect(a[1..], b), IvLt);
      assert forall i :: 1 <= i < |a| ==> a[i] == a[1..][i - 1];
      forall iv | iv in r
        ensures exists i, j :: 0 <= i < |a| && 0 <= j < |b| && Overlap(a[i], b[j]) == Some(iv)
      {
        if iv in OverlapsWith(a[0], b) {
          var j :| 0 <= j < |b| && Overlap(a[0], b[j]) == Some(iv);
        } else {
          var i, j :| 0 <= i < |a[1..]| && 0 <= j < |b| && Overlap(a[1..][i], b[j]) == Some(iv);
          assert Overlap(a[i + 1], b[j]) == Some(iv);
        }
      }
      forall iv | exists i, j :: 0 <= i < |a| && 0 <= j < |b| && Overlap(a[i], b[j]) == Some(iv)
        ensures iv in r
      {
        var i, j :| 0 <= i < |a| && 0 <= j < |b| && Overlap(a[i], b[j]) == Some(iv);
        if i > 0 {
          assert Overlap(a[1..][i - 1], b[j]) == Some(iv);
        }
      }
      r
  }

  lemma {:induction false} IntersectAscending(a: seq<Interval>, b: seq<Interval>)
    ensures Ascending(Intersect(a, b), IvLt)
  {
    if a != [] {
      IvLtIsOrder();
      IntersectAscending(a[1..], b);
      AddAllAscending(OverlapsWith(a[0], b), Intersect(a[1..], b), IvLt);
    }
  }

  /** `a & b` (analyzeslurp.py:40-56, and Python's `&` on booleans). */
  function And(a: BranchRange, b: BranchRange): (r: BranchRange)
    ensures a.Unconstrained? ==> r == b
    ensures b.Unconstrained? ==> r == a
    ensures a.Impossible? || b.Impossible? ==> r.Impossible?
    ensures a.Candidates? && b.Candidates? ==> !r.Unconstrained?
    ensures a.Candidates? && b.Candidates? ==>
      forall iv :: (r.Candidates? && iv in r.ivs) <==> MeetsIn(a.ivs, b.ivs, iv)
    ensures r.Candidates? && !(a.Candidates? && b.Candidates?) ==> r == a || r == b
    ensures a.Candidates? && b.Candidates? && r.Candidates? ==>
      r.ivs != [] && Ascending(r.ivs, IvLt)
  {
    match (a, b)
    case (Unconstrained, _) => b
    case (_, Unconstrained) => a
    case (Impossible, _) => Impossible
    case (_, Impossible) => Impossible
    case (Candidates(xs), Candidates(ys)) =>
      var r := Intersect(xs, ys);
      IntersectAscending(xs, ys);
      IntersectMembers(xs, ys);
      assert r != [] ==> r[0] in r;
      if r == [] then Impossible else Candidates(r)
  }

  /** `iv` is the overlap of a window of `a` with a window of `b`. */
  ghost predicate MeetsIn(a: seq<Interval>, b: seq<Interval>, iv: Interval)
  {
    exists x, y :: x in a && y in b && Overlap(x, y) == Some(iv)
  }

  /** The index-free form of the membership of `Intersect`. */
  lemma IntersectMembers(a: seq<Interval>, b: seq<Interval>)
    ensures forall iv :: iv in Intersect(a, b) <==> MeetsIn(a, b, iv)
  {
    forall iv | MeetsIn(a, b, iv)
      ensures iv in Intersect(a, b)
    {
      var x, y :| x in a && y in b && Overlap(x, y) == Some(iv);
      var i :| 0 <= i < |a| && a[i] == x;
      var j :| 0 <= j < |b| && b[j] == y;
    }
  }

  /** Every window surviving an intersection lies inside a window of each
      operand, on the same branch. */
  lemma AndWithin(a: BranchRange, b: BranchRange, iv: Interval)
    requires a.Candidates? && b.Candidates?
    requires And(a, b).Candidates? && iv in And(a, b).ivs
    ensures exists x :: x in a.ivs && Within(iv, x)
    ensures exists y :: y in b.ivs && Within(iv, y)
    ensures iv.low < iv.high
  {
    assert MeetsIn(a.ivs, b.ivs, iv);
    var x, y :| x in a.ivs && y in b.ivs && Overlap(x, y) == Some(iv);
  }

  /** `&` is commutative: the overlaps are the same and the representation
      of a set is unique. */
  lemma AndCommutative(a: BranchRange, b: BranchRange)
    ensures And(a, b) == And(b, a)
  {
    if a.Candidates? && b.Candidates? {
      forall x, y ensures Overlap(x, y) == Overlap(y, x) {
      }
      IvLtIsOrder();
      assert forall iv :: MeetsIn(a.ivs, b.ivs, iv) <==> MeetsIn(b.ivs, a.ivs, iv);
      var l, r := And(a, b), And(b, a);
      assert l.Candidates? ==> l.ivs[0] in l.ivs;
      assert r.Candidates? ==> r.ivs[0] in r.ivs;
      if l.Candidates? && r.Candidates? {
        AscendingUnique(And(a, b).ivs, And(b, a).ivs, IvLt);
      }
    }
  }

  /** Overlap of three windows, in either grouping. */
  lemma OverlapAssociative(x: Interval, y: Interval, z: Interval, iv: Interval)
    ensures (exists m :: Overlap(x, y) == Some(m) && Overlap(m, z) == Some(iv)) <==>
            (exists m :: Overlap(y, z) == Some(m) && Overlap(x, m) == Some(iv))
  {
    if exists m :: Overlap(x, y) == Some(m) && Overlap(m, z) == Some(iv) {
      var m :| Overlap(x, y) == Some(m) && Overlap(m, z) == Some(iv);
      var n := Interval(y.branch, Max(y.low, z.low), Min(y.high, z.high));
      assert Overlap(y, z) == Some(n) && Overlap(x, n) == Some(iv);
    }
    if exists m :: Overlap(y, z) == Some(m) && Overlap(x, m) == Some(iv) {
      var m :| Overlap(y, z) == Some(m) && Overlap(x, m) == Some(iv);
      var n := Interval(x.branch, Max(x.low, y.low), Min(x.high, y.high));
      assert Overlap(x, y) == Some(n) && Overlap(n, z) == Some(iv);
    }
  }

  /** `iv` is the overlap of a window of `a`, one of `b` and one of `c`. */
  ghost predicate ThreeWayOverlap(a: BranchRange, b: BranchRange, c: BranchRange, iv: Interval)
    requires a.Candidates? && b.Candidates? && c.Candidates?
  {
    exists x, y, z, m :: x in a.ivs && y in b.ivs && z in c.ivs &&
      Overlap(x, y) == Some(m) && Overlap(m, z) == Some(iv)
  }

  lemma AndLeftMembers(a: BranchRange, b: BranchRange, c: BranchRange)
    requires a.Candidates? && b.Candidates? && c.Candidates?
    ensures forall iv :: (And(And(a, b), c).Candidates? && iv in And(And(a, b), c).ivs) <==>
      ThreeWayOverlap(a, b, c, iv)
  {
    forall iv | ThreeWayOverlap(a, b, c, iv)
      ensures And(And(a, b), c).Candidates? && iv in And(And(a, b), c).ivs
    {
      var x, y, z, m :| x in a.ivs && y in b.ivs && z in c.ivs &&
        Overlap(x, y) == Some(m) && Overlap(m, z) == Some(iv);
      assert MeetsIn(a.ivs, b.ivs, m);
      assert m in And(a, b).ivs;
      assert MeetsIn(And(a, b).ivs, c.ivs, iv);
    }
    forall iv | And(And(a, b), c).Candidates? && iv in And(And(a, b), c).ivs
      ensures ThreeWayOverlap(a, b, c, iv)
    {
      assert MeetsIn(And(a, b).ivs, c.ivs, iv);
      var m, z :| m in And(a, b).ivs && z in c.ivs && Overlap(m, z) == Some(iv);
      assert MeetsIn(a.ivs, b.ivs, m);
    }
  }

  lemma AndRightMembers(a: BranchRange, b: BranchRange, c: BranchRange)
    requires a.Candidates? && b.Candidates? && c.Candidates?
    ensures forall iv :: (And(a, And(b, c)).Candidates? && iv in And(a, And(b, c)).ivs) <==>
      ThreeWayOverlap(a, b, c, iv)
  {
    var right := And(a, And(b, c));
    forall iv | right.Candidates? && iv in right.ivs
      ensures ThreeWayOverlap(a, b, c, iv)
    {
      assert MeetsIn(a.ivs, And(b, c).ivs, iv);
      var x, n :| x in a.ivs && n in And(b, c).ivs && Overlap(x, n) == Some(iv);
      assert MeetsIn(b.ivs, c.ivs, n);
      var y, z :| y in b.ivs && z in c.ivs && Overlap(y, z) == Some(n);
      OverlapAssociative(x, y, z, iv);
    }
    forall iv | ThreeWayOverlap(a, b, c, iv)
      ensures right.Candidates? && iv in right.ivs
    {
      var x, y, z, m :| x in a.ivs && y in b.ivs && z in c.ivs &&
        Overlap(x, y) == Some(m) && Overlap(m, z) == Some(iv);
      OverlapAssociative(x, y, z, iv);
      var n :| Overlap(y, z) == Some(n) && Overlap(x, n) == Some(iv);
      assert MeetsIn(b.ivs, c.ivs, n);
      assert n in And(b, c).ivs;
      assert MeetsIn(a.ivs, And(b, c).ivs, iv);
    }
  }

  /** `&` is associative (unlike `|`): folding the evidence of a revision by
      `&` does not depend on the grouping. */
  lemma AndAssociative(a: BranchRange, b: BranchRange, c: BranchRange)
    ensures And(And(a, b), c) == And(a, And(b, c))
  {
    if a.Candidates? && b.Candidates? && c.Candidates? {
      var left := And(And(a, b), c);
      var right := And(a, And(b, c));
      AndLeftMembers(a, b, c);
      AndRightMembers(a, b, c);
      assert left.Candidates? ==> left.ivs[0] in left.ivs;
      assert right.Candidates? ==> right.ivs[0] in right.ivs;
      assert left.Candidates? <==> right.Candidates?;
      IvLtIsOrder();
      if left.Candidates? {
        AscendingUnique(left.ivs, right.ivs, IvLt);
      }
    }
  }
}
