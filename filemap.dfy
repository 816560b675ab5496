/** `get_filemap` (analyzeslurp.py:125-146): the three indexes the analysis
    works from, built from the per-path histories.

    - `breakpoints[path]`: the revisions at which the path changed, with -1
      and the number of revisions added as sentinels, sorted;
    - `byrev[rev]`: the paths with a history entry at `rev`;
    - `identical[(path, rev)]`: the references that hold the same (nonempty)
      content and come earlier.

    Python sets become strictly ascending sequences (paths in string order,
    references by revision and then path), so the tables do not depend on
    the order in which dictionaries are walked. */
module FileMap {
  import opened Wrappers
  import opened Orders
  import opened Evidence

  type History = seq<Transition>

  datatype Tables = Tables(
    breakpoints: map<string, seq<int>>,
    byrev: map<int, seq<string>>,
    identical: map<PathRev, seq<PathRev>>)

  predicate IntLt(a: int, b: int) { a < b }

  /** Order by revision only: the key of `sorted(myset, key=lambda x: x[1])`. */
  predicate RevLt(x: PathRev, y: PathRev) { x.rev < y.rev }

  /** The revisions of a history, in order. */
  function Revs(items: History): (r: seq<int>)
    ensures |r| == |items|
    ensures forall k :: 0 <= k < |r| ==> r[k] == items[k].rev
  {
    if items == [] then [] else [items[0].rev] + Revs(items[1..])
  }

  /** `sorted([-1, maxrev] + revs)`. */
  function BreakpointsOf(items: History, maxrev: int): seq<int>
  {
    SortBy([-1, maxrev] + Revs(items), IntLt)
  }

  /** Path `p` has a history entry at revision `r`. */
  ghost predicate Touches(bypath: map<string, History>, p: string, r: int)
  {
    p in bypath && r in Revs(bypath[p])
  }

  /** In history `items`, reference `x` holds the content with the nonzero
      id `c` (Python's `if textid:` skips deletions and the empty content,
      id 0). */
  ghost predicate HoldsIn(items: History, x: PathRev, c: int)
  {
    c > 0 && Transition(x.rev, Some(c)) in items
  }

  ghost predicate Holds(bypath: map<string, History>, x: PathRev, c: int)
  {
    x.path in bypath && HoldsIn(bypath[x.path], x, c)
  }

  /** `y` holds the same content as `x` and comes before it. */
  ghost predicate Earlier(bypath: map<string, History>, y: PathRev, x: PathRev)
  {
    RefLt(y, x) && exists c :: Holds(bypath, x, c) && Holds(bypath, y, c)
  }

  /** A dictionary of sets (`collections.defaultdict(set)`) in canonical
      form: every key present maps to a nonempty ascending sequence. */
  ghost predicate Canonical<K, V(!new)>(m: map<K, seq<V>>, lt: (V, V) -> bool)
  {
    forall k :: k in m ==> m[k] != [] && Ascending(m[k], lt)
  }

  /** `v` is in the set `m[k]`. */
  ghost predicate Listed<K, V>(m: map<K, seq<V>>, k: K, v: V)
  {
    k in m && v in m[k]
  }

  /** `m[k].add(v)` on a dictionary of sets. */
  function AddEntry<K(!new), V(==,!new)>(m: map<K, seq<V>>, k: K, v: V, lt: (V, V) -> bool): (r: map<K, seq<V>>)
    ensures r.Keys == m.Keys + {k}
    ensures forall j, w :: Listed(r, j, w) <==> Listed(m, j, w) || (j == k && w == v)
  {
    m[k := AddTo(v, if k in m then m[k] else [], lt)]
  }

  /** `m[k].update(vs)` on a dictionary of sets. */
  function AddEntries<K(!new), V(==,!new)>(m: map<K, seq<V>>, k: K, vs: seq<V>, lt: (V, V) -> bool): (r: map<K, seq<V>>)
    ensures r.Keys == m.Keys + {k}
    ensures forall j, w :: Listed(r, j, w) <==> Listed(m, j, w) || (j == k && w in vs)
  {
    m[k := AddAll(vs, if k in m then m[k] else [], lt)]
  }

  lemma AddEntryCanonical<K(!new), V(!new)>(m: map<K, seq<V>>, k: K, v: V, lt: (V, V) -> bool)
    requires StrictTotalOrder(lt) && Canonical(m, lt)
    ensures Canonical(AddEntry(m, k, v, lt), lt)
  {
    AddToAscending(v, if k in m then m[k] else [], lt);
  }

  lemma AddEntriesCanonical<K(!new), V(!new)>(m: map<K, seq<V>>, k: K, vs: seq<V>, lt: (V, V) -> bool)
    requires StrictTotalOrder(lt) && Canonical(m, lt)
    requires vs != []
    ensures Canonical(AddEntries(m, k, vs, lt), lt)
  {
    AddAllAscending(vs, if k in m then m[k] else [], lt);
    assert vs[0] in AddEntries(m, k, vs, lt)[k];
  }

  /** What `get_filemap(bypath, maxrev)` returns. */
  ghost predicate IsFileMap(bypath: map<string, History>, maxrev: int, t: Tables)
  {
    && (forall p :: p in t.breakpoints <==> p in bypath && bypath[p] != [])
    && (forall p :: p in t.breakpoints ==> t.breakpoints[p] == BreakpointsOf(bypath[p], maxrev))
    && (forall r, p :: Listed(t.byrev, r, p) <==> Touches(bypath, p, r))
    && Canonical(t.byrev, StrLt)
    && (forall x, y :: Listed(t.identical, x, y) <==> Earlier(bypath, y, x))
    && Canonical(t.identical, RefLt)
  }

  // ---------------------------------------------------------------------
  // The loops
  // ---------------------------------------------------------------------

  /** One history entry: `byrev[revid].add(path)` and, for a nonzero
      content id, `filemap[textid].add((path, revid))`. */
  method RecordTransition(path: string, t: Transition,
                          byrev0: map<int, seq<string>>, filemap0: map<int, seq<PathRev>>)
    returns (byrev: map<int, seq<string>>, filemap: map<int, seq<PathRev>>)
    requires Canonical(byrev0, StrLt) && Canonical(filemap0, RefLt)
    ensures forall r, p :: Listed(byrev, r, p) <==>
      Listed(byrev0, r, p) || (p == path && r == t.rev)
    ensures forall c, x :: Listed(filemap, c, x) <==>
      Listed(filemap0, c, x) || (x.path == path && HoldsIn([t], x, c))
    ensures Canonical(byrev, StrLt) && Canonical(filemap, RefLt)
  {
    StrLtIsOrder();
    RefLtIsOrder();
    AddEntryCanonical(byrev0, t.rev, path, StrLt);
    byrev := AddEntry(byrev0, t.rev, path, StrLt);
    filemap := filemap0;
    if t.content.Some? && t.content.value != 0 {
      AddEntryCanonical(filemap0, t.content.value, PathRev(path, t.rev), RefLt);
      filemap := AddEntry(filemap0, t.content.value, PathRev(path, t.rev), RefLt);
    }
  }

  /** The inner loop of analyzeslurp.py:132-137 for one path's history. */
  method AddHistory(path: string, items: History, maxrev: int,
                    byrev0: map<int, seq<string>>, filemap0: map<int, seq<PathRev>>)
    returns (byrev: map<int, seq<string>>, filemap: map<int, seq<PathRev>>, newItems: seq<int>)
    requires Canonical(byrev0, StrLt) && Canonical(filemap0, RefLt)
    ensures newItems == [-1, maxrev] + Revs(items)
    ensures forall r, p :: Listed(byrev, r, p) <==>
      Listed(byrev0, r, p) || (p == path && r in Revs(items))
    ensures forall c, x :: Listed(filemap, c, x) <==>
      Listed(filemap0, c, x) || (x.path == path && HoldsIn(items, x, c))
    ensures Canonical(byrev, StrLt) && Canonical(filemap, RefLt)
  {
    byrev, filemap := byrev0, filemap0;
    newItems := [-1, maxrev];
    var k := 0;
    while k < |items|
      invariant 0 <= k <= |items|
      invariant newItems == [-1, maxrev] + Revs(items[..k])
      invariant forall r, p :: Listed(byrev, r, p) <==>
        Listed(byrev0, r, p) || (p == path && r in Revs(items[..k]))
      invariant forall c, x :: Listed(filemap, c, x) <==>
        Listed(filemap0, c, x) || (x.path == path && HoldsIn(items[..k], x, c))
      invariant Canonical(byrev, StrLt) && Canonical(filemap, RefLt)
    {
      var t := items[k];
      assert items[..k + 1] == items[..k] + [t];
      RevsAppend(items[..k], t);
      HoldsInAppend(items[..k], t);
      newItems := newItems + [t.rev];
      ghost var byrevBefore := byrev;
      byrev, filemap := RecordTransition(path, t, byrev, filemap);
      forall r, p
        ensures Listed(byrev, r, p) <==>
          Listed(byrev0, r, p) || (p == path && r in Revs(items[..k + 1]))
      {
        assert r in Revs(items[..k + 1]) <==> r in Revs(items[..k]) || r == t.rev;
        assert Listed(byrevBefore, r, p) <==>
          Listed(byrev0, r, p) || (p == path && r in Revs(items[..k]));
        assert Listed(byrev, r, p) <==>
          Listed(byrevBefore, r, p) || (p == path && r == t.rev);
      }
      k := k + 1;
    }
    assert items[..k] == items;
  }

  lemma HoldsInAppend(items: History, t: Transition)
    ensures forall x, c :: HoldsIn(items + [t], x, c) <==> HoldsIn(items, x, c) || HoldsIn([t], x, c)
  {
  }

  lemma RevsAppend(items: History, t: Transition)
    ensures Revs(items + [t]) == Revs(items) + [t.rev]
  {
  }

  /** The outer loop of analyzeslurp.py:129-138. */
  method IndexHistories(bypath: map<string, History>, maxrev: int)
    returns (breakpoints: map<string, seq<int>>, byrev: map<int, seq<string>>,
             filemap: map<int, seq<PathRev>>)
    ensures forall p :: p in breakpoints <==> p in bypath && bypath[p] != []
    ensures forall p :: p in breakpoints ==> breakpoints[p] == BreakpointsOf(bypath[p], maxrev)
    ensures forall r, p :: Listed(byrev, r, p) <==> Touches(bypath, p, r)
    ensures forall c, x :: Listed(filemap, c, x) <==> Holds(bypath, x, c)
    ensures Canonical(byrev, StrLt) && Canonical(filemap, RefLt)
  {
    breakpoints, byrev, filemap := map[], map[], map[];
    var todo := bypath.Keys;
    while todo != {}
      invariant todo <= bypath.Keys
      invariant forall p :: p in breakpoints <==> p in bypath && p !in todo && bypath[p] != []
      invariant forall p :: p in breakpoints ==> breakpoints[p] == BreakpointsOf(bypath[p], maxrev)
      invariant forall r, p :: Listed(byrev, r, p) <==> p !in todo && Touches(bypath, p, r)
      invariant forall c, x :: Listed(filemap, c, x) <==> x.path !in todo && Holds(bypath, x, c)
      invariant Canonical(byrev, StrLt) && Canonical(filemap, RefLt)
      decreases |todo|
    {
      var path := PickKey(todo);
      var items := bypath[path];
      if items != [] {
        var newItems;
        byrev, filemap, newItems := AddHistory(path, items, maxrev, byrev, filemap);
        breakpoints := breakpoints[path := SortBy(newItems, IntLt)];
      }
      todo := todo - {path};
    }
  }

  /** After the first `i` entries of `mylist`: each of them lists the
      entries of `mylist` that precede it. */
  ghost predicate GroupAdded(identical: map<PathRev, seq<PathRev>>, identical0: map<PathRev, seq<PathRev>>,
                             mylist: seq<PathRev>, i: nat)
    requires i <= |mylist|
  {
    forall x, y :: Listed(identical, x, y) <==>
      Listed(identical0, x, y) || (x in mylist[..i] && y in mylist && RefLt(y, x))
  }

  /** One step of the loop over a content group. */
  lemma AddGroupStep(identical: map<PathRev, seq<PathRev>>, identical0: map<PathRev, seq<PathRev>>,
                     mylist: seq<PathRev>, i: nat)
    requires Ascending(mylist, RefLt) && 1 <= i < |mylist|
    requires GroupAdded(identical, identical0, mylist, i) && Canonical(identical, RefLt)
    ensures GroupAdded(AddEntries(identical, mylist[i], mylist[..i], RefLt), identical0, mylist, i + 1)
    ensures Canonical(AddEntries(identical, mylist[i], mylist[..i], RefLt), RefLt)
  {
    RefLtIsOrder();
    AscendingPrefix(mylist, i, RefLt);
    assert mylist[..i + 1] == mylist[..i] + [mylist[i]];
    assert mylist[0] in mylist[..i];
    AddEntriesCanonical(identical, mylist[i], mylist[..i], RefLt);
  }

  /** `identical[mylist[i]].update(mylist[:i])` for every `i >= 1` of one
      content group (analyzeslurp.py:142-144). */
  method AddGroup(group: seq<PathRev>, identical0: map<PathRev, seq<PathRev>>)
    returns (identical: map<PathRev, seq<PathRev>>)
    requires Ascending(group, RefLt)
    requires Canonical(identical0, RefLt)
    ensures forall x, y :: Listed(identical, x, y) <==>
      Listed(identical0, x, y) || (x in group && y in group && RefLt(y, x))
    ensures Canonical(identical, RefLt)
  {
    RefLtIsOrder();
    var mylist := SortBy(group, RevLt);
    AscendingRevSorted(group);
    SortByIdentity(group, RevLt);
    identical := identical0;
    if mylist == [] {
      return;
    }
    AscendingPrefix(mylist, 0, RefLt);
    var i := 1;
    while i < |mylist|
      invariant 1 <= i <= |mylist|
      invariant GroupAdded(identical, identical0, mylist, i)
      invariant Canonical(identical, RefLt)
    {
      AddGroupStep(identical, identical0, mylist, i);
      identical := AddEntries(identical, mylist[i], mylist[..i], RefLt);
      i := i + 1;
    }
    assert mylist[..i] == mylist;
  }

  /** A group ascending by reference is in order of revision. */
  lemma AscendingRevSorted(group: seq<PathRev>)
    requires Ascending(group, RefLt)
    ensures SortedBy(group, RevLt)
  {
  }

  /** Sorting by a key the list is already in order of changes nothing:
      the stable sort by revision of an ascending group is the group. */
  lemma {:induction false} SortByIdentity<T(!new)>(s: seq<T>, lt: (T, T) -> bool)
    requires SortedBy(s, lt)
    ensures SortBy(s, lt) == s
  {
    if s != [] {
      assert SortedBy(s[1..], lt);
      SortByIdentity(s[1..], lt);
      assert s == [s[0]] + s[1..];
    }
  }

  /** `x` and `y` are in one of the groups `ids` of `filemap`. */
  ghost predicate SameGroup(filemap: map<int, seq<PathRev>>, ids: set<int>, x: PathRev, y: PathRev)
  {
    exists id :: id in ids && Listed(filemap, id, x) && Listed(filemap, id, y)
  }

  lemma SameGroupAdd(filemap: map<int, seq<PathRev>>, ids: set<int>, id: int)
    ensures forall x, y :: SameGroup(filemap, ids + {id}, x, y) <==>
      SameGroup(filemap, ids, x, y) || (Listed(filemap, id, x) && Listed(filemap, id, y))
  {
  }

  /** Once every group is visited, sharing a group is holding the same
      content. */
  lemma GroupsAreContents(bypath: map<string, History>, filemap: map<int, seq<PathRev>>)
    requires forall c, x :: Listed(filemap, c, x) <==> Holds(bypath, x, c)
    ensures forall x, y :: SameGroup(filemap, filemap.Keys, x, y) <==>
      exists c :: Holds(bypath, x, c) && Holds(bypath, y, c)
  {
  }

  /** The next content id `filemap.values()` visits; the order of the
      visits does not change the result. */
  method PickKey<T>(s: set<T>) returns (k: T)
    requires s != {}
    ensures k in s
  {
    k :| k in s;
  }

  /** The second half of analyzeslurp.py:140-144: every content group,
      visited in any order. */
  method IndexIdentical(filemap: map<int, seq<PathRev>>) returns (identical: map<PathRev, seq<PathRev>>)
    requires Canonical(filemap, RefLt)
    ensures forall x, y :: Listed(identical, x, y) <==> RefLt(y, x) && SameGroup(filemap, filemap.Keys, x, y)
    ensures Canonical(identical, RefLt)
  {
    identical := map[];
    var groups := filemap.Keys;
    ghost var done: set<int> := {};
    while groups != {}
      invariant groups <= filemap.Keys && done == filemap.Keys - groups
      invariant forall x, y :: Listed(identical, x, y) <==> RefLt(y, x) && SameGroup(filemap, done, x, y)
      invariant Canonical(identical, RefLt)
      decreases |groups|
    {
      var textid := PickKey(groups);
      identical := AddGroup(filemap[textid], identical);
      groups := groups - {textid};
      SameGroupAdd(filemap, done, textid);
      done := done + {textid};
    }
  }

  /** `get_filemap(bypath, maxrev)`. */
  method GetFileMap(bypath: map<string, History>, maxrev: int) returns (t: Tables)
    ensures IsFileMap(bypath, maxrev, t)
  {
    var breakpoints, byrev, filemap := IndexHistories(bypath, maxrev);
    var identical := IndexIdentical(filemap);
    GroupsAreContents(bypath, filemap);
    t := Tables(breakpoints, byrev, identical);
  }

  // ---------------------------------------------------------------------
  // What the tables mean
  // ---------------------------------------------------------------------

  /** The breakpoints are in order, so `bisect` applies to them. */
  lemma BreakpointsSorted(items: History, maxrev: int)
    ensures var b := BreakpointsOf(items, maxrev);
      forall i, j :: 0 <= i < j < |b| ==> b[i] <= b[j]
  {
    var b := BreakpointsOf(items, maxrev);
    IntLtIsOrder();
    SortBySorted([-1, maxrev] + Revs(items), IntLt);
    forall i, j | 0 <= i < j < |b| ensures b[i] <= b[j] {
      assert !IntLt(b[j], b[i]);
    }
  }

  lemma IntLtIsOrder()
    ensures StrictTotalOrder(IntLt)
  {
  }

  /** Revisions strictly increase along the history and stay between 0 and
      the number of revisions. */
  predicate WellFormedRevs(items: History, maxrev: int)
  {
    && 0 <= maxrev
    && (forall k :: 0 <= k < |items| ==> 0 <= items[k].rev < maxrev)
    && (forall i, j :: 0 <= i < j < |items| ==> items[i].rev < items[j].rev)
  }

  /** For a well-formed history the sentinels sort to the two ends: the
      breakpoints are -1, the history's revisions in order, then `maxrev`. */
  lemma BreakpointsWellFormed(items: History, maxrev: int)
    requires WellFormedRevs(items, maxrev)
    ensures BreakpointsOf(items, maxrev) == [-1] + Revs(items) + [maxrev]
  {
    IntLtIsOrder();
    SortBySorted([-1, maxrev] + Revs(items), IntLt);
    FramedSorted(items, maxrev);
    SentinelsPermuted(Revs(items), maxrev);
    SortedUnique(BreakpointsOf(items, maxrev), [-1] + Revs(items) + [maxrev], IntLt);
  }

  lemma FramedSorted(items: History, maxrev: int)
    requires WellFormedRevs(items, maxrev)
    ensures SortedBy([-1] + Revs(items) + [maxrev], IntLt)
  {
    var framed := [-1] + Revs(items) + [maxrev];
    assert framed[0] == -1 && framed[|framed| - 1] == maxrev;
    forall i, j | 0 <= i < j < |framed| ensures !IntLt(framed[j], framed[i]) {
      if 0 < i && j < |framed| - 1 {
        assert framed[i] == items[i - 1].rev && framed[j] == items[j - 1].rev;
      } else if 0 < i {
        assert framed[i] == items[i - 1].rev;
      } else if j < |framed| - 1 {
        assert framed[j] == items[j - 1].rev;
      }
    }
  }

  lemma SentinelsPermuted(revs: seq<int>, maxrev: int)
    ensures multiset([-1, maxrev] + revs) == multiset([-1] + revs + [maxrev])
  {
    assert [-1, maxrev] + revs == [-1] + [maxrev] + revs;
  }

  /** The tables are determined by the histories: any two results of
      `get_filemap` on the same input agree, whatever order the
      dictionaries are walked in. */
  lemma FileMapUnique(bypath: map<string, History>, maxrev: int, t1: Tables, t2: Tables)
    requires IsFileMap(bypath, maxrev, t1) && IsFileMap(bypath, maxrev, t2)
    ensures t1 == t2
  {
    StrLtIsOrder();
    RefLtIsOrder();
    assert t1.breakpoints == t2.breakpoints;
    assert forall r, p :: Listed(t1.byrev, r, p) <==> Listed(t2.byrev, r, p);
    SameSets(t1.byrev, t2.byrev, StrLt);
    assert forall x, y :: Listed(t1.identical, x, y) <==> Listed(t2.identical, x, y);
    SameSets(t1.identical, t2.identical, RefLt);
  }

  /** Two canonical dictionaries of sets with the same members are equal. */
  lemma SameSets<K(!new), V(!new)>(m1: map<K, seq<V>>, m2: map<K, seq<V>>, lt: (V, V) -> bool)
    requires StrictTotalOrder(lt)
    requires Canonical(m1, lt) && Canonical(m2, lt)
    requires forall k, v :: Listed(m1, k, v) <==> Listed(m2, k, v)
    ensures m1 == m2
  {
    forall k | k in m1 ensures k in m2 && m1[k] == m2[k] {
      assert Listed(m1, k, m1[k][0]);
      forall v ensures v in m1[k] <==> v in m2[k] {
        assert Listed(m1, k, v) <==> Listed(m2, k, v);
      }
      AscendingUnique(m1[k], m2[k], lt);
    }
    forall k | k in m2 ensures k in m1 {
      assert Listed(m2, k, m2[k][0]);
    }
  }

  /** No two entries of a history share a revision. */
  predicate UniqueRevs(items: History)
  {
    forall i, j :: 0 <= i < j < |items| ==> items[i].rev != items[j].rev
  }

  /** When no history has two entries at one revision, the predecessors of
      the predecessors of a reference are its own predecessors. */
  lemma IdenticalTransitive(bypath: map<string, History>, maxrev: int, t: Tables, x: PathRev, y: PathRev, z: PathRev)
    requires IsFileMap(bypath, maxrev, t)
    requires forall p :: p in bypath ==> UniqueRevs(bypath[p])
    requires Listed(t.identical, x, y) && Listed(t.identical, y, z)
    ensures Listed(t.identical, x, z)
  {
    RefLtIsOrder();
    var c1 :| Holds(bypath, x, c1) && Holds(bypath, y, c1);
    var c2 :| Holds(bypath, y, c2) && Holds(bypath, z, c2);
    OneContentPerRev(bypath[y.path], y.rev, c1, c2);
    assert Earlier(bypath, z, x);
  }

  lemma OneContentPerRev(items: History, rev: int, c1: int, c2: int)
    requires UniqueRevs(items)
    requires HoldsIn(items, PathRev("", rev), c1) && HoldsIn(items, PathRev("", rev), c2)
    ensures c1 == c2
  {
    var i :| 0 <= i < |items| && items[i] == Transition(rev, Some(c1));
    var j :| 0 <= j < |items| && items[j] == Transition(rev, Some(c2));
    if i < j {
      assert items[i].rev == items[j].rev;
    } else if j < i {
      assert items[j].rev == items[i].rev;
    }
  }
}
