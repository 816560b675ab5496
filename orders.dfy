/** Orders, sorting and sets kept as ascending sequences.

    Python's `sorted` and `list.sort` are modelled by `SortBy`, an insertion
    sort over a strict total order; Python's `set` values whose iteration
    order the program depends on are kept as strictly ascending sequences
    (`Ascending`), which is a canonical form for a finite set. */
module Orders {

  /** A strict total order: irreflexive, transitive and trichotomous. */
  ghost predicate StrictTotalOrder<T(!new)>(lt: (T, T) -> bool)
  {
    && (forall x :: !lt(x, x))
    && (forall x, y, z :: lt(x, y) && lt(y, z) ==> lt(x, z))
    && (forall x, y :: x == y || lt(x, y) || lt(y, x))
  }

  // ---------------------------------------------------------------------
  // Code-point lexicographic order on strings (Python's `<` on str)
  // ---------------------------------------------------------------------

  predicate StrLt(a: string, b: string)
  {
    if a == [] then b != []
    else if b == [] then false
    else if a[0] != b[0] then a[0] < b[0]
    else StrLt(a[1..], b[1..])
  }

  lemma {:induction false} StrLtIrreflexive(a: string)
    ensures !StrLt(a, a)
  {
    if a != [] {
      StrLtIrreflexive(a[1..]);
    }
  }

  lemma {:induction false} StrLtTransitive(a: string, b: string, c: string)
    requires StrLt(a, b) && StrLt(b, c)
    ensures StrLt(a, c)
  {
    if a != [] && b != [] && c != [] && a[0] == b[0] == c[0] {
      StrLtTransitive(a[1..], b[1..], c[1..]);
    }
  }

  lemma {:induction false} StrLtTotal(a: string, b: string)
    ensures a == b || StrLt(a, b) || StrLt(b, a)
  {
    if a != [] && b != [] && a[0] == b[0] {
      StrLtTotal(a[1..], b[1..]);
      if a[1..] == b[1..] {
        assert a == [a[0]] + a[1..] && b == [b[0]] + b[1..];
      }
    }
  }

  lemma StrLtIsOrder()
    ensures StrictTotalOrder(StrLt)
  {
    forall a: string ensures !StrLt(a, a) {
      StrLtIrreflexive(a);
    }
    forall a: string, b: string, c: string | StrLt(a, b) && StrLt(b, c)
      ensures StrLt(a, c)
    {
      StrLtTransitive(a, b, c);
    }
    forall a: string, b: string ensures a == b || StrLt(a, b) || StrLt(b, a) {
      StrLtTotal(a, b);
    }
  }

  // ---------------------------------------------------------------------
  // Sorting (Python's sorted / list.sort on a totally ordered element type)
  // ---------------------------------------------------------------------

  /** Non-decreasing with respect to `lt`. */
  predicate SortedBy<T>(s: seq<T>, lt: (T, T) -> bool)
  {
    forall i, j :: 0 <= i < j < |s| ==> !lt(s[j], s[i])
  }

  function InsertBy<T>(x: T, s: seq<T>, lt: (T, T) -> bool): (r: seq<T>)
    ensures multiset(r) == multiset(s) + multiset{x}
    ensures |r| == |s| + 1
  {
    if s == [] || !lt(s[0], x) then [x] + s
    else
      assert s == [s[0]] + s[1..];
      [s[0]] + InsertBy(x, s[1..], lt)
  }

  /** Insertion sort. */
  function SortBy<T>(s: seq<T>, lt: (T, T) -> bool): (r: seq<T>)
    ensures multiset(r) == multiset(s)
    ensures |r| == |s|
  {
    if s == [] then []
    else
      assert s == [s[0]] + s[1..];
      InsertBy(s[0], SortBy(s[1..], lt), lt)
  }

  lemma {:induction false} InsertBySorted<T(!new)>(x: T, s: seq<T>, lt: (T, T) -> bool)
    requires StrictTotalOrder(lt)
    requires SortedBy(s, lt)
    ensures SortedBy(InsertBy(x, s, lt), lt)
  {
    if s != [] && lt(s[0], x) {
      InsertBySorted(x, s[1..], lt);
      var r := InsertBy(x, s[1..], lt);
      assert multiset(r) == multiset(s[1..]) + multiset{x};
      forall j | 0 <= j < |r| ensures !lt(r[j], s[0]) {
        assert r[j] in multiset(r);
        assert r[j] == x || r[j] in multiset(s[1..]);
        if r[j] != x {
          var k :| 0 <= k < |s[1..]| && s[1..][k] == r[j];
          assert s[k + 1] == r[j];
        }
      }
    }
  }

  lemma {:induction false} SortBySorted<T(!new)>(s: seq<T>, lt: (T, T) -> bool)
    requires StrictTotalOrder(lt)
    ensures SortedBy(SortBy(s, lt), lt)
  {
    if s != [] {
      SortBySorted(s[1..], lt);
      InsertBySorted(s[0], SortBy(s[1..], lt), lt);
    }
  }

  /** Two sorted arrangements of the same multiset are the same sequence. */
  lemma {:induction false} SortedUnique<T(!new)>(x: seq<T>, y: seq<T>, lt: (T, T) -> bool)
    requires StrictTotalOrder(lt)
    requires SortedBy(x, lt) && SortedBy(y, lt)
    requires multiset(x) == multiset(y)
    ensures x == y
  {
    if x != [] {
      SortedHeads(x, y, lt);
      TailMultiset(x, y);
      SortedTail(x, lt);
      SortedTail(y, lt);
      SortedUnique(x[1..], y[1..], lt);
      assert x == [x[0]] + x[1..] && y == [y[0]] + y[1..];
    }
  }

  /** Sorted arrangements of one nonempty multiset start alike. */
  lemma SortedHeads<T(!new)>(x: seq<T>, y: seq<T>, lt: (T, T) -> bool)
    requires StrictTotalOrder(lt)
    requires SortedBy(x, lt) && SortedBy(y, lt)
    requires multiset(x) == multiset(y) && x != []
    ensures y != [] && x[0] == y[0]
  {
    assert x[0] in multiset(y);
    var i :| 0 <= i < |y| && y[i] == x[0];
    assert y[0] in multiset(x);
    var j :| 0 <= j < |x| && x[j] == y[0];
    assert !lt(y[i], y[0]);
    assert !lt(x[j], x[0]);
  }

  lemma TailMultiset<T>(x: seq<T>, y: seq<T>)
    requires x != [] && y != [] && x[0] == y[0] && multiset(x) == multiset(y)
    ensures multiset(x[1..]) == multiset(y[1..])
  {
    assert x == [x[0]] + x[1..];
    assert y == [y[0]] + y[1..];
    assert multiset(x) == multiset{x[0]} + multiset(x[1..]);
    assert multiset(y) == multiset{y[0]} + multiset(y[1..]);
    assert multiset(x[1..]) == multiset(x) - multiset{x[0]};
    assert multiset(y[1..]) == multiset(y) - multiset{y[0]};
  }

  lemma SortedTail<T>(x: seq<T>, lt: (T, T) -> bool)
    requires SortedBy(x, lt) && x != []
    ensures SortedBy(x[1..], lt)
  {
    forall i, j | 0 <= i < j < |x| - 1
      ensures !lt(x[1..][j], x[1..][i])
    {
      assert x[1..][j] == x[j + 1] && x[1..][i] == x[i + 1];
    }
  }

  /** The sort result depends only on the multiset of its input. */
  lemma SortByPermutationInvariant<T(!new)>(s: seq<T>, t: seq<T>, lt: (T, T) -> bool)
    requires StrictTotalOrder(lt)
    requires multiset(s) == multiset(t)
    ensures SortBy(s, lt) == SortBy(t, lt)
  {
    SortBySorted(s, lt);
    SortBySorted(t, lt);
    SortedUnique(SortBy(s, lt), SortBy(t, lt), lt);
  }

  // ---------------------------------------------------------------------
  // Finite sets kept as strictly ascending sequences
  // ---------------------------------------------------------------------

  predicate Ascending<T>(s: seq<T>, lt: (T, T) -> bool)
  {
    forall i, j :: 0 <= i < j < |s| ==> lt(s[i], s[j])
  }

  /** `set.add`: insert `x` unless it is already present. */
  function AddTo<T(==,!new)>(x: T, s: seq<T>, lt: (T, T) -> bool): (r: seq<T>)
    ensures forall y :: y in r <==> y == x || y in s
  {
    if s == [] then [x]
    else if x == s[0] then s
    else if lt(x, s[0]) then [x] + s
    else [s[0]] + AddTo(x, s[1..], lt)
  }

  lemma {:induction false} AddToAscending<T(!new)>(x: T, s: seq<T>, lt: (T, T) -> bool)
    requires StrictTotalOrder(lt)
    requires Ascending(s, lt)
    ensures Ascending(AddTo(x, s, lt), lt)
  {
    if s != [] && x != s[0] && !lt(x, s[0]) {
      AddToAscending(x, s[1..], lt);
      var r := AddTo(x, s[1..], lt);
      forall j | 0 <= j < |r| ensures lt(s[0], r[j]) {
        assert r[j] == x || r[j] in s[1..];
      }
    }
  }

  /** `set.update`: add every element of `xs`. */
  function AddAll<T(==,!new)>(xs: seq<T>, s: seq<T>, lt: (T, T) -> bool): (r: seq<T>)
    ensures forall y :: y in r <==> y in xs || y in s
  {
    if xs == [] then s else AddAll(xs[1..], AddTo(xs[0], s, lt), lt)
  }

  lemma {:induction false} AddAllAscending<T(!new)>(xs: seq<T>, s: seq<T>, lt: (T, T) -> bool)
    requires StrictTotalOrder(lt)
    requires Ascending(s, lt)
    ensures Ascending(AddAll(xs, s, lt), lt)
  {
    if xs != [] {
      AddToAscending(xs[0], s, lt);
      AddAllAscending(xs[1..], AddTo(xs[0], s, lt), lt);
    }
  }

  /** Two ascending sequences with the same elements are equal: the
      representation of a set is unique. */
  lemma {:induction false} AscendingUnique<T(!new)>(x: seq<T>, y: seq<T>, lt: (T, T) -> bool)
    requires StrictTotalOrder(lt)
    requires Ascending(x, lt) && Ascending(y, lt)
    requires forall e :: e in x <==> e in y
    ensures x == y
  {
    assert x != [] ==> x[0] in x;
    assert y != [] ==> y[0] in y;
    if x != [] && y != [] {
      var i :| 0 <= i < |y| && y[i] == x[0];
      var j :| 0 <= j < |x| && x[j] == y[0];
      assert i == 0 || j == 0;
      assert x[0] == y[0];
      forall e ensures e in x[1..] <==> e in y[1..] {
        if e in x[1..] {
          var k :| 1 <= k < |x| && x[k] == e;
          assert lt(x[0], e) && e in y;
          var m :| 0 <= m < |y| && y[m] == e;
          assert m != 0;
        }
        if e in y[1..] {
          var k :| 1 <= k < |y| && y[k] == e;
          assert lt(y[0], e) && e in x;
          var m :| 0 <= m < |x| && x[m] == e;
          assert m != 0;
        }
      }
      AscendingUnique(x[1..], y[1..], lt);
      assert x == [x[0]] + x[1..] && y == [y[0]] + y[1..];
    }
  }

  /** In an ascending sequence, the elements before position `i` are exactly
      the elements smaller than `s[i]`. */
  lemma AscendingPrefix<T(!new)>(s: seq<T>, i: int, lt: (T, T) -> bool)
    requires StrictTotalOrder(lt)
    requires Ascending(s, lt)
    requires 0 <= i < |s|
    ensures forall e :: e in s[..i] <==> e in s && lt(e, s[i])
  {
    forall e | e in s && lt(e, s[i]) ensures e in s[..i] {
      var k :| 0 <= k < |s| && s[k] == e;
      assert k < i;
    }
  }
}
