/** The table logic of `readrepo` (slurpsvn.py:120-156) stated as
    functions: the content-id table, the rule that
    extends a path's history, and what one revision does to the collector's
    three tables. The directory walk and the file reads that feed them are
    `svn` calls; here their results arrive as an `Observation`. */
module Records {
  import opened Wrappers
  import opened Text
  import opened Evidence
  import opened Paths
  import FileMap

  // ---------------------------------------------------------------------
  // Content ids (`content_id`, slurpsvn.py:125-126)
  // ---------------------------------------------------------------------

  /** Every id is below the table size and no two contents share one. */
  predicate Interning(t: map<string, nat>)
  {
    && (forall c :: c in t ==> t[c] < |t|)
    && (forall c, d :: c in t && d in t && c != d ==> t[c] != t[d])
  }

  /** `bycontents.setdefault(content, len(bycontents))`. */
  function InternOne(t: map<string, nat>, content: string): map<string, nat>
  {
    if content in t then t else t[content := |t|]
  }

  /** Interning the contents one after the other. */
  function Intern(t: map<string, nat>, contents: seq<string>): map<string, nat>
    decreases |contents|
  {
    if contents == [] then t else Intern(InternOne(t, contents[0]), contents[1..])
  }

  /** A new content gets the next id, a known one keeps its id, and the
      table stays an interning. */
  lemma InternOneKeeps(t: map<string, nat>, content: string)
    requires Interning(t)
    ensures var r := InternOne(t, content);
      && Interning(r)
      && content in r
      && r.Keys == t.Keys + {content}
      && (forall c :: c in t ==> r[c] == t[c])
      && (content !in t ==> r[content] == |t| && |r| == |t| + 1)
  {
    if content !in t {
      var r := t[content := |t|];
      assert r.Keys == t.Keys + {content};
      assert |r| == |t| + 1;
    }
  }

  /** Interning many contents keeps the table an interning, and ids
      already given do not change. */
  lemma {:induction false} InternKeeps(t: map<string, nat>, contents: seq<string>)
    requires Interning(t)
    ensures Interning(Intern(t, contents))
    ensures forall c :: c in t ==> c in Intern(t, contents) && Intern(t, contents)[c] == t[c]
    decreases |contents|
  {
    if contents != [] {
      InternOneKeeps(t, contents[0]);
      InternKeeps(InternOne(t, contents[0]), contents[1..]);
    }
  }

  /** Interning many contents gives an id to each of them and to nothing
      else. */
  lemma {:induction false} InternCovers(t: map<string, nat>, contents: seq<string>)
    ensures forall c :: c in Intern(t, contents) <==> c in t || c in contents
    decreases |contents|
  {
    if contents != [] {
      InternCovers(InternOne(t, contents[0]), contents[1..]);
      assert forall c :: c in contents <==> c == contents[0] || c in contents[1..];
    }
  }

  /** The table at the start of `readrepo`: the empty file is content 0. */
  const InitialContents: map<string, nat> := InternOne(map[], "")

  lemma InitialContentsMeaning()
    ensures Interning(InitialContents) && InitialContents == map["" := 0]
  {
    InternOneKeeps(map[], "");
  }

  // ---------------------------------------------------------------------
  // Histories (slurpsvn.py:146-156)
  // ---------------------------------------------------------------------

  type History = seq<Transition>

  /** `bypath[fname]`, which starts out empty. */
  function Lookup(bypath: map<string, History>, f: string): History
  {
    if f in bypath then bypath[f] else []
  }

  /** A file present at `rev` with content `id`: recorded when the history
      is empty or last held something else. */
  function KnownStep(h: History, rev: int, id: nat): History
  {
    if h == [] || h[|h| - 1].content != Some(id) then h + [Transition(rev, Some(id))] else h
  }

  /** A file gone at `rev`: recorded when the history last held a
      content. */
  function DeletedStep(h: History, rev: int): History
  {
    if h != [] && h[|h| - 1].content.Some? then h + [Transition(rev, None)] else h
  }

  /** What the two rules guarantee of every history, for revisions below
      `bound`: revisions strictly increase and lie in `[0, bound)`, two
      neighbours never hold the same content, and a history never starts
      with a deletion. */
  ghost predicate WellFormedHistory(h: History, bound: int)
  {
    && FileMap.WellFormedRevs(h, bound)
    && (forall i, j :: 0 <= i < j < |h| && j == i + 1 ==> h[i].content != h[j].content)
    && (h != [] ==> h[0].content.Some?)
  }

  lemma WellFormedLater(h: History, bound: int)
    requires WellFormedHistory(h, bound)
    ensures WellFormedHistory(h, bound + 1)
  {
  }

  /** Appending an entry at `rev` that differs from the last one, and is
      not a deletion when it comes first, keeps a history well formed. */
  lemma AppendKeeps(h: History, e: Transition, rev: nat)
    requires WellFormedHistory(h, rev) && e.rev == rev
    requires h == [] ==> e.content.Some?
    requires h != [] ==> h[|h| - 1].content != e.content
    ensures WellFormedHistory(h + [e], rev + 1)
  {
    var r := h + [e];
    assert forall k :: 0 <= k < |h| ==> r[k] == h[k];
    assert FileMap.WellFormedRevs(r, rev + 1) by {
      forall i, j | 0 <= i < j < |r| ensures r[i].rev < r[j].rev {
        if j < |h| {
          assert h[i].rev < h[j].rev;
        }
      }
    }
  }

  /** Recording a present file keeps a history well formed, and it ends
      holding that content. */
  lemma KnownStepKeeps(h: History, rev: nat, id: nat)
    requires WellFormedHistory(h, rev)
    ensures var r := KnownStep(h, rev, id);
      && WellFormedHistory(r, rev + 1)
      && r != [] && r[|r| - 1].content == Some(id)
      && r[..|h|] == h && |r| <= |h| + 1
  {
    var r := KnownStep(h, rev, id);
    if h == [] || h[|h| - 1].content != Some(id) {
      AppendKeeps(h, Transition(rev, Some(id)), rev);
    } else {
      WellFormedLater(h, rev);
    }
    assert r[..|h|] == h;
  }

  /** Recording a missing file keeps a history well formed, and it ends
      in a deletion unless it is empty. */
  lemma DeletedStepKeeps(h: History, rev: nat)
    requires WellFormedHistory(h, rev)
    ensures var r := DeletedStep(h, rev);
      && WellFormedHistory(r, rev + 1)
      && (r == [] <==> h == [])
      && (r != [] ==> r[|r| - 1].content.None?)
      && r[..|h|] == h && |r| <= |h| + 1
  {
    var r := DeletedStep(h, rev);
    if h != [] && h[|h| - 1].content.Some? {
      AppendKeeps(h, Transition(rev, None), rev);
    } else {
      WellFormedLater(h, rev);
    }
    assert r[..|h|] == h;
  }

  // ---------------------------------------------------------------------
  // One revision (slurpsvn.py:134-156)
  // ---------------------------------------------------------------------

  /** What `svn` reported for one revision: the raw paths the directory
      walk handed to `addpath`, in order; the files found under the
      changed paths with their contents, in the order they are read; and
      the changed paths that were not found as files. */
  datatype Observation = Observation(walked: seq<string>, files: seq<(string, string)>, paths: set<string>)

  /** The collector's three tables. */
  datatype Repo = Repo(pathsets: map<string, set<string>>, bycontents: map<string, nat>,
                       bypath: map<string, History>)

  function Names(files: seq<(string, string)>): set<string>
  {
    set e | e in files :: e.0
  }

  function Contents(files: seq<(string, string)>): (r: seq<string>)
    ensures |r| == |files|
  {
    seq(|files|, k requires 0 <= k < |files| => files[k].1)
  }

  predicate DistinctNames(files: seq<(string, string)>)
  {
    forall i, j :: 0 <= i < j < |files| ==> files[i].0 != files[j].0
  }

  /** `unknown_paths`: the union of the sets of the given paths. */
  function Under(pathsets: map<string, set<string>>, paths: set<string>): set<string>
  {
    set p, f | p in paths && p in pathsets && f in pathsets[p] :: f
  }

  /** `pathsets[path]` inserts an empty set for every path looked up. */
  function Touch(pathsets: map<string, set<string>>, paths: set<string>): map<string, set<string>>
  {
    map p | p in pathsets.Keys + paths :: if p in pathsets then pathsets[p] else {}
  }

  /** The loop over the files present: intern each content, then extend
      the file's history. */
  function RecordKnown(bycontents: map<string, nat>, bypath: map<string, History>, rev: int,
                       files: seq<(string, string)>): (map<string, nat>, map<string, History>)
    decreases |files|
  {
    if files == [] then (bycontents, bypath)
    else
      var (name, content) := files[0];
      var t := InternOne(bycontents, content);
      RecordKnown(t, bypath[name := KnownStep(Lookup(bypath, name), rev, t[content])], rev, files[1..])
  }

  /** The loop over the paths gone, in any order: every one gets an
      entry, and a deletion if it last held a content. */
  ghost function RecordGone(bypath: map<string, History>, rev: int, gone: set<string>): map<string, History>
    decreases gone
  {
    if gone == {} then bypath
    else
      var f :| f in gone;
      RecordGone(bypath[f := DeletedStep(Lookup(bypath, f), rev)], rev, gone - {f})
  }

  /** One turn of `readrepo`'s revision loop, with the `addpath` calls the
      directory walk makes. */
  ghost function Record(repo: Repo, rev: int, obs: Observation): Repo
  {
    var sets := AddPaths(repo.pathsets, obs.walked);
    var (t, bp) := RecordKnown(repo.bycontents, repo.bypath, rev, obs.files);
    Repo(Touch(sets, obs.paths), t, RecordGone(bp, rev, Under(sets, obs.paths) - Names(obs.files)))
  }

  /** The revision loop from revision `rev` on. */
  ghost function RecordAll(repo: Repo, rev: int, obs: seq<Observation>): Repo
    decreases |obs|
  {
    if obs == [] then repo else RecordAll(Record(repo, rev, obs[0]), rev + 1, obs[1..])
  }

  /** The tables `readrepo` leaves: it starts from no histories and the
      content table holding the empty file. */
  ghost function ReadAll(pathsets: map<string, set<string>>, obs: seq<Observation>): Repo
  {
    RecordAll(Repo(pathsets, InitialContents, map[]), 0, obs)
  }

  /** The content table after the files present: their contents interned
      in order. */
  lemma {:induction false} RecordKnownContents(bycontents: map<string, nat>, bypath: map<string, History>,
                                               rev: int, files: seq<(string, string)>)
    ensures RecordKnown(bycontents, bypath, rev, files).0 == Intern(bycontents, Contents(files))
    decreases |files|
  {
    if files != [] {
      var (name, content) := files[0];
      var t1 := InternOne(bycontents, content);
      var bp1 := bypath[name := KnownStep(Lookup(bypath, name), rev, t1[content])];
      RecordKnownContents(t1, bp1, rev, files[1..]);
      assert Contents(files)[0] == content;
      assert Contents(files)[1..] == Contents(files[1..]);
    }
  }

  /** The files present: only their histories change. */
  lemma {:induction false} RecordKnownFrame(bycontents: map<string, nat>, bypath: map<string, History>,
                                            rev: int, files: seq<(string, string)>)
    ensures var bp := RecordKnown(bycontents, bypath, rev, files).1;
      && (forall f :: f in bp <==> f in bypath || f in Names(files))
      && (forall f :: f in bypath && f !in Names(files) ==> bp[f] == bypath[f])
    decreases |files|
  {
    if files != [] {
      var (name, content) := files[0];
      var t1 := InternOne(bycontents, content);
      var bp1 := bypath[name := KnownStep(Lookup(bypath, name), rev, t1[content])];
      RecordKnownFrame(t1, bp1, rev, files[1..]);
      assert forall f :: f in Names(files) <==> f == name || f in Names(files[1..]) by {
        assert forall e :: e in files <==> e == files[0] || e in files[1..];
      }
    }
  }

  /** The first file's name does not recur among the others. */
  lemma HeadFresh(files: seq<(string, string)>)
    requires DistinctNames(files) && files != []
    ensures DistinctNames(files[1..]) && files[0].0 !in Names(files[1..])
  {
    var rest := files[1..];
    forall e | e in rest ensures e.0 != files[0].0 {
      var k :| 0 <= k < |rest| && rest[k] == e;
      assert rest[k] == files[k + 1];
    }
  }

  /** The files present: each named file's history takes one `KnownStep`
      with the content's final id. */
  lemma {:induction false} RecordKnownSteps(bycontents: map<string, nat>, bypath: map<string, History>,
                                            rev: int, files: seq<(string, string)>)
    requires Interning(bycontents) && DistinctNames(files)
    ensures var (t, bp) := RecordKnown(bycontents, bypath, rev, files);
      forall k :: 0 <= k < |files| ==>
        files[k].1 in t && files[k].0 in bp && bp[files[k].0] == KnownStep(Lookup(bypath, files[k].0), rev, t[files[k].1])
    decreases |files|
  {
    if files != [] {
      var (name, content) := files[0];
      var t1 := InternOne(bycontents, content);
      var bp1 := bypath[name := KnownStep(Lookup(bypath, name), rev, t1[content])];
      var rest := files[1..];
      var (t, bp) := RecordKnown(t1, bp1, rev, rest);
      HeadFresh(files);
      InternOneKeeps(bycontents, content);
      RecordKnownSteps(t1, bp1, rev, rest);
      RecordKnownContents(t1, bp1, rev, rest);
      InternKeeps(t1, Contents(rest));
      RecordKnownFrame(t1, bp1, rev, rest);
      forall k | 0 <= k < |files|
        ensures files[k].1 in t && files[k].0 in bp
          && bp[files[k].0] == KnownStep(Lookup(bypath, files[k].0), rev, t[files[k].1])
      {
        if k > 0 {
          assert files[k] == rest[k - 1];
          assert files[k].0 != name;
        }
      }
    }
  }

  /** The paths gone: each gets one `DeletedStep`, the rest are
      unchanged. */
  lemma {:induction false} RecordGoneMeaning(bypath: map<string, History>, rev: int, gone: set<string>)
    ensures var r := RecordGone(bypath, rev, gone);
      && (forall f :: f in r <==> f in bypath || f in gone)
      && (forall f :: f in gone ==> r[f] == DeletedStep(Lookup(bypath, f), rev))
      && (forall f :: f in bypath && f !in gone ==> r[f] == bypath[f])
    decreases gone
  {
    if gone != {} {
      var f :| f in gone && RecordGone(bypath, rev, gone)
        == RecordGone(bypath[f := DeletedStep(Lookup(bypath, f), rev)], rev, gone - {f});
      var next := bypath[f := DeletedStep(Lookup(bypath, f), rev)];
      RecordGoneMeaning(next, rev, gone - {f});
      assert forall g :: g != f ==> Lookup(next, g) == Lookup(bypath, g);
    }
  }

  /** Those three facts fix the outcome: the paths gone may be visited in
      any order. */
  lemma RecordGoneUnique(bypath: map<string, History>, rev: int, gone: set<string>, r: map<string, History>)
    requires forall f :: f in r <==> f in bypath || f in gone
    requires forall f :: f in gone ==> r[f] == DeletedStep(Lookup(bypath, f), rev)
    requires forall f :: f in bypath && f !in gone ==> r[f] == bypath[f]
    ensures r == RecordGone(bypath, rev, gone)
  {
    RecordGoneMeaning(bypath, rev, gone);
    assert r.Keys == RecordGone(bypath, rev, gone).Keys;
  }

  /** Looking one more path up in `pathsets`. */
  lemma TouchAdd(pathsets: map<string, set<string>>, done: set<string>, p: string)
    ensures var t := Touch(pathsets, done);
      Touch(pathsets, done + {p}) == if p in t then t else t[p := {}]
  {
  }

  /** Taking the set of one more path into `unknown_paths`. */
  lemma UnderAdd(pathsets: map<string, set<string>>, done: set<string>, p: string)
    ensures Under(pathsets, done + {p}) == Under(pathsets, done) + (if p in pathsets then pathsets[p] else {})
  {
  }

  /** The two loops of a revision: each history gets at most one entry, a
      `KnownStep` for the files present and a `DeletedStep` for the paths
      gone (which are not among the files), and the rest are unchanged.
      Every path gone gets a history, possibly empty. */
  lemma RevisionSteps(bycontents: map<string, nat>, bypath: map<string, History>, rev: int,
                      files: seq<(string, string)>, gone: set<string>)
    requires Interning(bycontents) && DistinctNames(files)
    requires forall f :: f in gone ==> f !in Names(files)
    ensures var (t, bp) := RecordKnown(bycontents, bypath, rev, files);
      var r := RecordGone(bp, rev, gone);
      && (forall f :: f in r <==> f in bypath || f in Names(files) || f in gone)
      && (forall k :: 0 <= k < |files| ==>
            files[k].1 in t && r[files[k].0] == KnownStep(Lookup(bypath, files[k].0), rev, t[files[k].1]))
      && (forall f :: f in gone ==> r[f] == DeletedStep(Lookup(bypath, f), rev))
      && (forall f :: f in bypath && f !in Names(files) && f !in gone ==> r[f] == bypath[f])
  {
    var (t, bp) := RecordKnown(bycontents, bypath, rev, files);
    RecordKnownFrame(bycontents, bypath, rev, files);
    RecordKnownSteps(bycontents, bypath, rev, files);
    RecordGoneMeaning(bp, rev, gone);
    forall f | f in gone ensures Lookup(bp, f) == Lookup(bypath, f) {
    }
    forall k | 0 <= k < |files| ensures files[k].0 !in gone {
      assert files[k] in files;
      assert files[k].0 in Names(files);
    }
  }

  /** The paths gone in a revision: those under the changed paths that
      were not found, less the files present. */
  ghost function Gone(pathsets: map<string, set<string>>, obs: Observation): set<string>
  {
    Under(AddPaths(pathsets, obs.walked), obs.paths) - Names(obs.files)
  }

  /** A revision in terms of its two loops. */
  lemma RecordParts(repo: Repo, rev: int, obs: Observation)
    ensures var (t, bp) := RecordKnown(repo.bycontents, repo.bypath, rev, obs.files);
      && Record(repo, rev, obs).bycontents == t
      && Record(repo, rev, obs).bypath == RecordGone(bp, rev, Gone(repo.pathsets, obs))
  {
  }

  /** Every history well formed below `bound`. */
  ghost predicate Histories(bypath: map<string, History>, bound: int)
  {
    forall f :: f in bypath ==> WellFormedHistory(bypath[f], bound)
  }

  /** One history after the two loops of a revision is well formed one
      revision further. */
  lemma RevisionKeepsOne(bycontents: map<string, nat>, bypath: map<string, History>, rev: nat,
                         files: seq<(string, string)>, gone: set<string>, f: string)
    requires Interning(bycontents) && DistinctNames(files)
    requires forall g :: g in gone ==> g !in Names(files)
    requires Histories(bypath, rev)
    requires f in RecordGone(RecordKnown(bycontents, bypath, rev, files).1, rev, gone)
    ensures WellFormedHistory(RecordGone(RecordKnown(bycontents, bypath, rev, files).1, rev, gone)[f], rev + 1)
  {
    var (t, bp) := RecordKnown(bycontents, bypath, rev, files);
    RevisionSteps(bycontents, bypath, rev, files, gone);
    var h := Lookup(bypath, f);
    assert WellFormedHistory(h, rev);
    if f in Names(files) {
      var e :| e in files && e.0 == f;
      var k :| 0 <= k < |files| && files[k] == e;
      KnownStepKeeps(h, rev, t[files[k].1]);
    } else if f in gone {
      DeletedStepKeeps(h, rev);
    } else {
      WellFormedLater(h, rev);
    }
  }

  /** The two loops of a revision keep the content table an interning and
      every history well formed, one revision further. */
  lemma RevisionKeeps(bycontents: map<string, nat>, bypath: map<string, History>, rev: nat,
                      files: seq<(string, string)>, gone: set<string>)
    requires Interning(bycontents) && DistinctNames(files)
    requires forall f :: f in gone ==> f !in Names(files)
    requires Histories(bypath, rev)
    ensures var (t, bp) := RecordKnown(bycontents, bypath, rev, files);
      Interning(t) && Histories(RecordGone(bp, rev, gone), rev + 1)
  {
    var (t, bp) := RecordKnown(bycontents, bypath, rev, files);
    assert Interning(t) by {
      RecordKnownContents(bycontents, bypath, rev, files);
      InternKeeps(bycontents, Contents(files));
    }
    var r := RecordGone(bp, rev, gone);
    forall f | f in r ensures WellFormedHistory(r[f], rev + 1) {
      RevisionKeepsOne(bycontents, bypath, rev, files, gone, f);
    }
  }

  /** A revision keeps the content table an interning and every history
      well formed, one revision further. */
  lemma RecordKeeps(repo: Repo, rev: nat, obs: Observation)
    requires Interning(repo.bycontents) && DistinctNames(obs.files)
    requires Histories(repo.bypath, rev)
    ensures Interning(Record(repo, rev, obs).bycontents)
    ensures Histories(Record(repo, rev, obs).bypath, rev + 1)
  {
    RecordParts(repo, rev, obs);
    RevisionKeeps(repo.bycontents, repo.bypath, rev, obs.files, Gone(repo.pathsets, obs));
  }

  /** Every observation names each file once (they come from a set). */
  predicate AllDistinct(obs: seq<Observation>)
  {
    forall r :: 0 <= r < |obs| ==> DistinctNames(obs[r].files)
  }

  /** The revision loop keeps the content table an interning. */
  lemma {:induction false} RecordAllInterning(repo: Repo, rev: nat, obs: seq<Observation>)
    requires Interning(repo.bycontents)
    ensures Interning(RecordAll(repo, rev, obs).bycontents)
    decreases |obs|
  {
    if obs != [] {
      var next := Record(repo, rev, obs[0]);
      assert Interning(next.bycontents) by {
        RecordParts(repo, rev, obs[0]);
        RecordKnownContents(repo.bycontents, repo.bypath, rev, obs[0].files);
        InternKeeps(repo.bycontents, Contents(obs[0].files));
      }
      RecordAllInterning(next, rev + 1, obs[1..]);
    }
  }

  /** The first revision of the loop keeps what the rest needs. */
  lemma RecordFirstKeeps(repo: Repo, rev: nat, obs: seq<Observation>)
    requires obs != []
    requires Interning(repo.bycontents) && AllDistinct(obs)
    requires Histories(repo.bypath, rev)
    ensures var next := Record(repo, rev, obs[0]);
      && Interning(next.bycontents) && Histories(next.bypath, rev + 1)
      && AllDistinct(obs[1..])
  {
    assert DistinctNames(obs[0].files);
    RecordKeeps(repo, rev, obs[0]);
    forall r | 0 <= r < |obs[1..]| ensures DistinctNames(obs[1..][r].files) {
      assert obs[1..][r] == obs[r + 1];
    }
  }

  /** The revision loop keeps every history well formed, up to the last
      revision read. */
  lemma {:induction false} RecordAllKeeps(repo: Repo, rev: nat, obs: seq<Observation>)
    requires Interning(repo.bycontents) && AllDistinct(obs)
    requires Histories(repo.bypath, rev)
    ensures Histories(RecordAll(repo, rev, obs).bypath, rev + |obs|)
    decreases |obs|
  {
    if obs != [] {
      RecordFirstKeeps(repo, rev, obs);
      RecordAllKeeps(Record(repo, rev, obs[0]), rev + 1, obs[1..]);
    }
  }

  /** After `readrepo` the empty file has id 0, ids are an interning, and
      every history is well formed for the revisions read, which is what
      `get_filemap` expects of its input. */
  lemma ReadAllMeaning(pathsets: map<string, set<string>>, obs: seq<Observation>)
    requires AllDistinct(obs)
    ensures var r := ReadAll(pathsets, obs);
      && Interning(r.bycontents) && "" in r.bycontents && r.bycontents[""] == 0
      && Histories(r.bypath, |obs|)
      && (forall f :: f in r.bypath ==> FileMap.WellFormedRevs(r.bypath[f], |obs|))
  {
    InitialContentsMeaning();
    RecordAllInterning(Repo(pathsets, InitialContents, map[]), 0, obs);
    RecordAllKeeps(Repo(pathsets, InitialContents, map[]), 0, obs);
    ReadAllKeepsEmpty(Repo(pathsets, InitialContents, map[]), 0, obs);
  }

  lemma {:induction false} ReadAllKeepsEmpty(repo: Repo, rev: int, obs: seq<Observation>)
    requires Interning(repo.bycontents) && "" in repo.bycontents
    ensures var r := RecordAll(repo, rev, obs);
      "" in r.bycontents && r.bycontents[""] == repo.bycontents[""]
    decreases |obs|
  {
    if obs != [] {
      var next := Record(repo, rev, obs[0]);
      RecordKnownContents(repo.bycontents, repo.bypath, rev, obs[0].files);
      InternKeeps(repo.bycontents, Contents(obs[0].files));
      ReadAllKeepsEmpty(next, rev + 1, obs[1..]);
    }
  }
}
