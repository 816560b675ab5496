/** The path bookkeeping of `addpath` (slurpsvn.py:202-227): the canonical
    form of a repository path, the ancestor keys under which it is recorded,
    and the table of paths seen under each key. */
module Paths {
  import opened Text

  /** `'/' + path.strip('/')`: how the collector spells every path. */
  function Canonical(path: string): (r: string)
    ensures r != "" && r[0] == '/'
    ensures |r| == 1 || r[|r| - 1] != '/'
  {
    var inner := Strip(path, {'/'});
    StripBounds(path, {'/'});
    "/" + inner
  }

  lemma LStripSlash(s: string)
    requires s == "" || (s[0] != '/' && s[|s| - 1] != '/')
    ensures Strip("/" + s, {'/'}) == s
  {
    var t := "/" + s;
    assert LeadEnd(t, {'/'}, 1) == 1;
    assert t[1..] == s;
    RStripNoop(s, {'/'});
  }

  /** Canonical paths are their own canonical form. */
  lemma CanonicalIdempotent(path: string)
    ensures Canonical(Canonical(path)) == Canonical(path)
  {
    var inner := Strip(path, {'/'});
    StripBounds(path, {'/'});
    LStripSlash(inner);
  }

  /** `path.split('/')` joined back up to its `k`-th piece. */
  lemma {:induction false} JoinSplitAt(parts: seq<string>, sep: char, k: nat)
    requires 0 < k < |parts|
    ensures Join(parts, sep) == Join(parts[..k], sep) + [sep] + Join(parts[k..], sep)
  {
    if k > 1 {
      JoinSplitAt(parts[1..], sep, k - 1);
      assert parts[1..][..k - 1] == parts[1..k];
      assert parts[1..][k - 1..] == parts[k..];
      assert parts[..k][1..] == parts[1..k];
    } else {
      assert parts[1..] == parts[k..];
    }
  }

  lemma JoinSnoc(parts: seq<string>, sep: char, x: string)
    requires parts != []
    ensures Join(parts + [x], sep) == Join(parts, sep) + [sep] + x
  {
    var all := parts + [x];
    JoinSplitAt(all, sep, |parts|);
    assert all[..|parts|] == parts;
    assert all[|parts|..] == [x];
  }

  /** The keys `addpath` visits for `path`: the pieces of `path.split('/')`
      joined up to the second, the third, ... the last (`/a`, `/a/b`, ...,
      `path` itself). */
  function Prefixes(path: string): (r: seq<string>)
    ensures |r| == |Split(path, '/')| - 1
  {
    var parts := Split(path, '/');
    seq(|parts| - 1, i requires 0 <= i < |parts| - 1 => Join(parts[..i + 2], '/'))
  }

  /** The keys for the first `n` pieces, one piece at a time: the order in
      which `addpath`'s loop builds them. */
  function KeysUpTo(parts: seq<string>, n: nat): (r: seq<string>)
    requires 1 <= n <= |parts|
    ensures |r| == n - 1
    decreases n
  {
    if n == 1 then [] else KeysUpTo(parts, n - 1) + [Join(parts[..n], '/')]
  }

  /** Built one piece at a time, the keys are the leading `Prefixes`. */
  lemma {:induction false} KeysUpToPrefixes(path: string, n: nat)
    requires 1 <= n <= |Split(path, '/')|
    ensures KeysUpTo(Split(path, '/'), n) == Prefixes(path)[..n - 1]
    decreases n
  {
    if n > 1 {
      KeysUpToPrefixes(path, n - 1);
      var ps := Prefixes(path);
      assert ps[..n - 1] == ps[..n - 2] + [ps[n - 2]];
    }
  }

  /** One more piece extends the joined key by the separator and the piece. */
  lemma JoinStep(parts: seq<string>, sep: char, i: nat)
    requires 1 <= i < |parts|
    ensures Join(parts[..i + 1], sep) == Join(parts[..i], sep) + [sep] + parts[i]
  {
    assert parts[..i + 1] == parts[..i] + [parts[i]];
    JoinSnoc(parts[..i], sep, parts[i]);
  }

  /** The first `k` pieces joined are a proper prefix, followed by the
      separator. */
  lemma JoinPrefix(parts: seq<string>, sep: char, k: nat)
    requires 0 < k < |parts|
    ensures var q := Join(parts[..k], sep);
      |q| < |Join(parts, sep)| && Join(parts, sep)[..|q|] == q && Join(parts, sep)[|q|] == sep
  {
    JoinSplitAt(parts, sep, k);
  }

  lemma SplitHasTwo(path: string)
    requires path != "" && path[0] == '/'
    ensures |Split(path, '/')| >= 2
  {
    assert '/' in path;
  }

  /** The `i`-th key is a prefix of the path followed by `/`, or the path
      itself. */
  lemma PrefixIsAncestor(path: string, i: nat)
    requires path != "" && path[0] == '/' && i < |Prefixes(path)|
    ensures var q := Prefixes(path)[i];
      |q| <= |path| && path[..|q|] == q && (|q| == |path| || path[|q|] == '/')
  {
    var parts := Split(path, '/');
    JoinSplit(path, '/');
    if i + 2 < |parts| {
      JoinPrefix(parts, '/', i + 2);
    } else {
      assert parts[..i + 2] == parts;
    }
  }

  /** Every key is an ancestor of the path: a prefix followed by `/`, or the
      path itself, which is the last key. */
  lemma PrefixesAreAncestors(path: string)
    requires path != "" && path[0] == '/'
    ensures Prefixes(path) != [] && Prefixes(path)[|Prefixes(path)| - 1] == path
    ensures forall q :: q in Prefixes(path) ==>
      |q| <= |path| && path[..|q|] == q && (|q| == |path| || path[|q|] == '/')
  {
    var parts := Split(path, '/');
    var ps := Prefixes(path);
    SplitHasTwo(path);
    JoinSplit(path, '/');
    assert parts[..|parts|] == parts;
    forall q | q in ps ensures |q| <= |path| && path[..|q|] == q && (|q| == |path| || path[|q|] == '/') {
      var i :| 0 <= i < |ps| && ps[i] == q;
      PrefixIsAncestor(path, i);
    }
  }


  /** `pathsets[key].add(path)` for each key in turn. */
  function Register(sets: map<string, set<string>>, keys: seq<string>, path: string)
    : map<string, set<string>>
  {
    if keys == [] then sets
    else
      var last := keys[|keys| - 1];
      var before := Register(sets, keys[..|keys| - 1], path);
      before[last := (if last in before then before[last] else {}) + {path}]
  }

  /** Registering gives every key a set holding `path` on top of what it
      held, and leaves every other entry alone. */
  lemma {:induction false} RegisterMeaning(sets: map<string, set<string>>, keys: seq<string>, path: string)
    ensures var r := Register(sets, keys, path);
      && (forall k :: k in r <==> k in sets || k in keys)
      && (forall k :: k in r && k !in keys ==> r[k] == sets[k])
      && (forall k :: k in keys ==> r[k] == (if k in sets then sets[k] else {}) + {path})
  {
    if keys != [] {
      var front := keys[..|keys| - 1];
      RegisterMeaning(sets, front, path);
      assert forall k :: k in keys <==> k in front || k == keys[|keys| - 1];
    }
  }

  /** Registering one more key updates that key alone. */
  lemma RegisterSnoc(sets: map<string, set<string>>, keys: seq<string>, key: string, path: string)
    ensures var before := Register(sets, keys, path);
      Register(sets, keys + [key], path)
        == before[key := (if key in before then before[key] else {}) + {path}]
  {
    assert (keys + [key])[..|keys|] == keys;
  }

  /** The effect of `addpath(path)` on `pathsets` for a canonical `path`: a
      path that is already a key changes nothing. */
  function AddAncestors(sets: map<string, set<string>>, path: string): map<string, set<string>>
  {
    if path in sets then sets else Register(sets, Prefixes(path), path)
  }

  /** On first sight a canonical path enters the set of every ancestor,
      including its own, and no other set changes; a path already seen as
      a key, for instance as the ancestor of an earlier path, is left out
      of its own set. */
  lemma AddAncestorsMeaning(sets: map<string, set<string>>, path: string)
    requires path != "" && path[0] == '/'
    ensures path in sets ==> AddAncestors(sets, path) == sets
    ensures path !in sets ==>
      var r := AddAncestors(sets, path);
      && path in r && path in r[path]
      && (forall k :: k in r <==> k in sets || k in Prefixes(path))
      && (forall k :: k in sets && k !in Prefixes(path) ==> r[k] == sets[k])
      && (forall k :: k in Prefixes(path) && k in sets ==> r[k] == sets[k] + {path})
  {
    PrefixesAreAncestors(path);
    RegisterMeaning(sets, Prefixes(path), path);
  }

  /** `addpath(raw)`, as its effect on the table. */
  function WithPath(sets: map<string, set<string>>, raw: string): map<string, set<string>>
  {
    AddAncestors(sets, Canonical(raw))
  }

  /** `addpath` on the first `n` raw paths, in order. */
  function AddFirst(sets: map<string, set<string>>, raw: seq<string>, n: nat): map<string, set<string>>
    requires n <= |raw|
  {
    if n == 0 then sets else WithPath(AddFirst(sets, raw, n - 1), raw[n - 1])
  }

  lemma AddFirstStep(sets: map<string, set<string>>, raw: seq<string>, j: nat)
    requires j < |raw|
    ensures AddFirst(sets, raw, j + 1) == AddAncestors(AddFirst(sets, raw, j), Canonical(raw[j]))
  {
  }

  /** `addpath` on a sequence of raw paths, in order. */
  function AddPaths(sets: map<string, set<string>>, raw: seq<string>): map<string, set<string>>
  {
    AddFirst(sets, raw, |raw|)
  }
}
