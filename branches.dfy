/** `branchinfo` (analyzeslurp.py): the branch key of a repository path.

    The key only has to separate different branches consistently; it is the
    first path component, except that the substrings "tags" and "branches"
    in it are replaced by the first two components joined by "/", and
    "wiki" by "trunk". Replacement is Python's substring `str.replace`, not
    a comparison of whole components. */
module Branches {
  import opened Wrappers
  import opened Text

  /** The first component of a rooted path: `path.split('/', 3)[1]`. */
  function FirstComponent(path: string): string
  {
    if path == "" then "" else path[1..StopAt(path, {'/'}, 1)]
  }

  /** The second component, or "" when there is none (the padding `['']`). */
  function SecondComponent(path: string): string
  {
    if path == "" then ""
    else
      var j := StopAt(path, {'/'}, 1);
      if j < |path| then path[j + 1..StopAt(path, {'/'}, j + 1)] else ""
  }

  /** A path `branchinfo` accepts: `path.split('/')[0]` is empty. */
  predicate Rooted(path: string)
  {
    path == "" || path[0] == '/'
  }

  /** The first `n` of the successive `replace(pat, rep)` calls applied to `s`. */
  function ReplaceSteps(s: string, rules: seq<(string, string)>, n: nat): string
    requires n <= |rules|
    requires forall k :: 0 <= k < |rules| ==> rules[k].0 != ""
  {
    if n == 0 then s else Replace(ReplaceSteps(s, rules, n - 1), rules[n - 1].0, rules[n - 1].1)
  }

  /** The renaming rules of `branchinfo`, in the order it applies them. */
  function Renames(twoLevels: string): (rules: seq<(string, string)>)
    ensures |rules| == 3 && forall k :: 0 <= k < |rules| ==> rules[k].0 != ""
  {
    [("tags", twoLevels), ("branches", twoLevels), ("wiki", "trunk")]
  }

  /** `branchinfo(path)`; `Err(path)` is the failed `assert not stuff.pop(0)`. */
  function BranchInfo(path: string): (r: Result<string, string>)
    ensures r.Err? <==> !Rooted(path)
    ensures r.Err? ==> r.error == path
  {
    if !Rooted(path) then Err(path)
    else
      var first := FirstComponent(path);
      var twoLevels := first + "/" + SecondComponent(path);
      Ok(ReplaceSteps(first, Renames(twoLevels), 3))
  }

  /** `branchinfo` of a rooted path is its first component after the three
      replacements, in order. */
  lemma BranchInfoReplaces(path: string)
    requires Rooted(path)
    ensures
      var first := FirstComponent(path);
      var twoLevels := first + "/" + SecondComponent(path);
      BranchInfo(path) == Ok(Replace(Replace(Replace(first, "tags", twoLevels), "branches", twoLevels), "wiki", "trunk"))
  {
    var first := FirstComponent(path);
    var rules := Renames(first + "/" + SecondComponent(path));
    assert ReplaceSteps(first, rules, 1) == Replace(first, "tags", rules[0].1);
    assert ReplaceSteps(first, rules, 2) == Replace(ReplaceSteps(first, rules, 1), "branches", rules[1].1);
  }

  /** A first component that mentions none of the three words is the key. */
  lemma PlainBranch(path: string)
    requires Rooted(path)
    requires !Contains(FirstComponent(path), "tags")
    requires !Contains(FirstComponent(path), "branches")
    requires !Contains(FirstComponent(path), "wiki")
    ensures BranchInfo(path) == Ok(FirstComponent(path))
  {
    BranchInfoReplaces(path);
    var first := FirstComponent(path);
    var twoLevels := first + "/" + SecondComponent(path);
    ReplaceAbsent(first, "tags", twoLevels);
    ReplaceAbsent(first, "branches", twoLevels);
    ReplaceAbsent(first, "wiki", "trunk");
  }

  /** Each tag directory is its own key `tags/<name>`. */
  lemma TagBranch(path: string)
    requires Rooted(path)
    requires FirstComponent(path) == "tags"
    requires !Contains(SecondComponent(path), "branches")
    requires !Contains(SecondComponent(path), "wiki")
    ensures BranchInfo(path) == Ok("tags/" + SecondComponent(path))
  {
    BranchInfoReplaces(path);
    var second := SecondComponent(path);
    var twoLevels := "tags" + "/" + second;
    ReplaceWhole("tags", twoLevels);
    FirstCharAbsent("tags", "branches");
    FirstCharAbsent("tags", "wiki");
    NotAcrossSlash("tags", second, "branches");
    NotAcrossSlash("tags", second, "wiki");
    ReplaceAbsent(twoLevels, "branches", twoLevels);
    ReplaceAbsent(twoLevels, "wiki", "trunk");
    assert twoLevels == "tags/" + second;
  }

  /** Each branch directory is its own key `branches/<name>`. */
  lemma BranchesBranch(path: string)
    requires Rooted(path)
    requires FirstComponent(path) == "branches"
    requires !Contains(SecondComponent(path), "wiki")
    ensures BranchInfo(path) == Ok("branches/" + SecondComponent(path))
  {
    BranchInfoReplaces(path);
    var second := SecondComponent(path);
    var twoLevels := "branches" + "/" + second;
    FirstCharAbsent("branches", "tags");
    ReplaceAbsent("branches", "tags", twoLevels);
    ReplaceWhole("branches", twoLevels);
    FirstCharAbsent("branches", "wiki");
    NotAcrossSlash("branches", second, "wiki");
    ReplaceAbsent(twoLevels, "wiki", "trunk");
    assert twoLevels == "branches/" + second;
  }

  /** The wiki tree is grouped with trunk. */
  lemma WikiBranch(path: string)
    requires Rooted(path)
    requires FirstComponent(path) == "wiki"
    ensures BranchInfo(path) == Ok("trunk")
  {
    BranchInfoReplaces(path);
    var twoLevels := "wiki" + "/" + SecondComponent(path);
    FirstCharAbsent("wiki", "tags");
    FirstCharAbsent("wiki", "branches");
    ReplaceAbsent("wiki", "tags", twoLevels);
    ReplaceAbsent("wiki", "branches", twoLevels);
    ReplaceWhole("wiki", "trunk");
  }

  lemma FirstCharAbsent(s: string, w: string)
    requires w != "" && w[0] !in s
    ensures !Contains(s, w)
  {
    forall i | 0 <= i <= |s| - |w| ensures !OccursAt(s, w, i) {
      assert s[i..i + |w|][0] == s[i];
    }
  }

  lemma NotAcrossSlash(a: string, b: string, w: string)
    requires '/' !in w
    requires !Contains(a, w) && !Contains(b, w)
    ensures !Contains(a + "/" + b, w)
  {
    if Contains(a + "/" + b, w) {
      ContainsAcross(a, '/', b, w);
    }
  }

  /** The components of `/a/b/...` are `a` and `b`. */
  lemma TwoComponents(a: string, b: string, rest: string)
    requires '/' !in a && '/' !in b
    requires rest == "" || rest[0] == '/'
    ensures FirstComponent("/" + a + "/" + b + rest) == a
    ensures SecondComponent("/" + a + "/" + b + rest) == b
  {
    var path := "/" + a + "/" + b + rest;
    var j := |a| + 1;
    assert forall k :: 1 <= k < j ==> path[k] == a[k - 1];
    StopAtBoundary(path, {'/'}, 1, j);
    assert path[1..j] == a;
    assert forall k :: j + 1 <= k < j + 1 + |b| ==> path[k] == b[k - j - 1];
    assert j + 1 + |b| < |path| ==> path[j + 1 + |b|] == rest[0];
    StopAtBoundary(path, {'/'}, j + 1, j + 1 + |b|);
    assert path[j + 1..j + 1 + |b|] == b;
  }

  /** The only component of `/a` is `a`; the second is the padding "". */
  lemma OneComponent(a: string)
    requires '/' !in a
    ensures FirstComponent("/" + a) == a
    ensures SecondComponent("/" + a) == ""
  {
    var path := "/" + a;
    assert forall k :: 1 <= k < |path| ==> path[k] == a[k - 1];
    StopAtBoundary(path, {'/'}, 1, |path|);
    assert path[1..] == a;
  }

  /** A tag directory's files share the key `tags/<name>`. */
  lemma TagExample(path: string)
    requires path == "/tags/v1/lib.txt"
    ensures BranchInfo(path) == Ok("tags/v1")
  {
    TwoComponents("tags", "v1", "/lib.txt");
    assert path == "/" + "tags" + "/" + "v1" + "/lib.txt";
    FirstCharAbsent("v1", "branches");
    FirstCharAbsent("v1", "wiki");
    TagBranch(path);
    assert "tags/" + "v1" == "tags/v1";
  }

  lemma NoTagsInTrunk(s: string)
    requires s == "trunk"
    ensures !Contains(s, "tags")
  {
    forall i | 0 <= i <= 1 ensures !OccursAt(s, "tags", i) {
      assert s[i..i + 4][1] == s[i + 1] != 'a';
    }
  }

  lemma TrunkComponents(path: string)
    requires path == "/trunk/lib.txt"
    ensures FirstComponent(path) == "trunk"
  {
    TwoComponents("trunk", "lib.txt", "");
    assert path == "/" + "trunk" + "/" + "lib.txt" + "";
  }

  lemma NoMarkersInTrunk(s: string)
    requires s == "trunk"
    ensures !Contains(s, "tags") && !Contains(s, "branches") && !Contains(s, "wiki")
  {
    NoTagsInTrunk(s);
    FirstCharAbsent(s, "branches");
    FirstCharAbsent(s, "wiki");
  }

  /** Every file under trunk has the key "trunk". */
  lemma TrunkExample(path: string)
    requires path == "/trunk/lib.txt"
    ensures BranchInfo(path) == Ok("trunk")
  {
    TrunkComponents(path);
    NoMarkersInTrunk(FirstComponent(path));
    PlainBranch(path);
  }

  /** A top-level tags directory alone gets the padded key "tags/". */
  lemma BareTagsExample(path: string)
    requires path == "/tags"
    ensures BranchInfo(path) == Ok("tags/")
  {
    OneComponent("tags");
    assert path == "/" + "tags";
    FirstCharAbsent("", "branches");
    FirstCharAbsent("", "wiki");
    TagBranch(path);
    assert "tags/" + "" == "tags/";
  }

  /** The empty path passes the check and has the empty key; a path not
      starting with "/" fails it. */
  lemma EdgeExamples(empty: string, relative: string)
    requires empty == "" && relative == "lib.txt"
    ensures BranchInfo(empty) == Ok("")
    ensures BranchInfo(relative) == Err("lib.txt")
  {
    BranchInfoReplaces(empty);
  }

  lemma ReplaceInMytags(m: string, twoLevels: string)
    requires m == "mytags"
    ensures Replace(m, "tags", twoLevels) == "my" + twoLevels
  {
    assert m[..4][0] != 't';
    var y := m[1..];
    assert y[..4][0] != 't';
    assert y[1..] == "tags";
    ReplaceWhole("tags", twoLevels);
  }

  lemma MytagsComponents(path: string)
    requires path == "/mytags/x"
    ensures FirstComponent(path) == "mytags" && SecondComponent(path) == "x"
  {
    TwoComponents("mytags", "x", "");
    assert path == "/" + "mytags" + "/" + "x" + "";
  }

  lemma NoLaterMarkers(k: string, rep: string)
    requires k == "mymytags/x"
    ensures Replace(Replace(k, "branches", rep), "wiki", "trunk") == k
  {
    FirstCharAbsent(k, "branches");
    ReplaceAbsent(k, "branches", rep);
    FirstCharAbsent(k, "wiki");
    ReplaceAbsent(k, "wiki", "trunk");
  }

  /** `branchinfo` of a rooted path, given its two components and the
      outcome of the three replacements. */
  lemma BranchInfoOf(path: string, first: string, second: string, key: string)
    requires Rooted(path) && FirstComponent(path) == first && SecondComponent(path) == second
    requires Replace(Replace(Replace(first, "tags", first + "/" + second), "branches", first + "/" + second), "wiki", "trunk") == key
    ensures BranchInfo(path) == Ok(key)
  {
    BranchInfoReplaces(path);
  }

  lemma MytagsKey(twoLevels: string)
    requires twoLevels == "mytags" + "/" + "x"
    ensures "my" + twoLevels == "mymytags/x"
  {
  }

  /** Replacement works on substrings: "mytags" is rewritten too. */
  lemma SubstringExample(path: string)
    requires path == "/mytags/x"
    ensures BranchInfo(path) == Ok("mymytags/x")
  {
    MytagsComponents(path);
    var twoLevels := "mytags" + "/" + "x";
    ReplaceInMytags("mytags", twoLevels);
    MytagsKey(twoLevels);
    NoLaterMarkers("mymytags/x", twoLevels);
    BranchInfoOf(path, "mytags", "x", "mymytags/x");
  }
}
