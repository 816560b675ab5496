/** The collector `SlurpSvn` (slurpsvn.py:55-227): it reads the log into
    `commits` and `merges`, records every path it meets in `pathsets`, and
    builds the per-path histories `bypath` over the content table
    `bycontents`. What `svn` prints arrives as parameters: the log already
    cut into `(header, body)` pairs, and one `Observation` per revision. */
module Collector {
  import opened Wrappers
  import opened Text
  import opened Evidence
  import opened Paths
  import opened LogEntry
  import opened Records

  /** What `parse_one_commit` reads from each entry of the log. */
  type Written = Result<(nat, seq<Change>), LogFault>

  function Reads(log: seq<(string, string)>): (r: seq<Written>)
    ensures |r| == |log|
  {
    seq(|log|, k requires 0 <= k < |log| => ParseEntry(log[k].0, log[k].1))
  }

  /** `written` is what the entries of `log` read as; each entry's parse is
      looked at only where that entry is parsed. */
  ghost predicate ReadsAs(written: seq<Written>, log: seq<(string, string)>)
  {
    && |written| == |log|
    && forall k {:trigger ParseEntry(log[k].0, log[k].1)} :: 0 <= k < |log| ==>
      written[k] == ParseEntry(log[k].0, log[k].1)
  }

  lemma ReadsAsReads(written: seq<Written>, log: seq<(string, string)>)
    ensures ReadsAs(Reads(log), log)
    ensures ReadsAs(written, log) ==> written == Reads(log)
  {
    if ReadsAs(written, log) {
      forall k | 0 <= k < |log| ensures written[k] == Reads(log)[k] {
        assert written[k] == ParseEntry(log[k].0, log[k].1);
      }
    }
  }

  /** What `parselog` builds: the changed paths and the merge sources of
      each revision, from the empty revision 0 on. */
  datatype Log = Log(commits: seq<seq<string>>, merges: seq<seq<PathRev>>)

  /** One good entry appended to what has been built. */
  function Extend(acc: Log, cs: seq<Change>): Log
  {
    Log(acc.commits + [ChangedPaths(cs)], acc.merges + [MergeInfo(cs)])
  }

  /** `parselog`'s loop from the `i`-th entry on, over what each entry reads
      as, with `acc` built so far: an entry must be revision
      `len(commits)`; the first failure stops it. */
  function CollectFrom(written: seq<Written>, i: nat, acc: Log): Result<Log, LogFault>
    requires i <= |written|
    decreases |written| - i
  {
    if i == |written| then Ok(acc)
    else
      match written[i]
      case Err(e) => Err(e)
      case Ok((rev, cs)) =>
        if rev != |acc.commits| then Err(OutOfOrder(|acc.commits|, rev))
        else CollectFrom(written, i + 1, Extend(acc, cs))
  }

  /** `parselog`'s loop over the whole log, from the empty commit zero. */
  function Collect(written: seq<Written>): Result<Log, LogFault>
  {
    CollectFrom(written, 0, Log([[]], [[]]))
  }

  /** The path table after the first `n` entries, from `start`: each
      entry that parses has `addpath` called on the paths of its changes. */
  function PathsAfter(start: map<string, set<string>>, written: seq<Written>, n: nat): map<string, set<string>>
    requires n <= |written|
  {
    if n == 0 then start
    else
      var before := PathsAfter(start, written, n - 1);
      match written[n - 1]
      case Err(_) => before
      case Ok((_, cs)) => WithChanges(before, cs, |cs|)
  }

  /** From the `i`-th entry on, with `i + 1` commits built, the log is
      collected exactly when every entry parses and the `k`-th one is
      revision `k + 1`. */
  lemma {:induction false} CollectFromOk(written: seq<Written>, i: nat, acc: Log)
    requires i <= |written| && |acc.commits| == i + 1
    ensures CollectFrom(written, i, acc).Ok? <==>
      forall k :: i <= k < |written| ==> written[k].Ok? && written[k].value.0 == k + 1
    decreases |written| - i
  {
    if i < |written| && written[i].Ok? && written[i].value.0 == i + 1 {
      CollectFromOk(written, i + 1, Extend(acc, written[i].value.1));
    }
  }

  /** A collected log keeps what was built and appends each entry's
      canonical changed paths and merge sources, in order. */
  lemma {:induction false} CollectFromValue(written: seq<Written>, i: nat, acc: Log)
    requires i <= |written| && |acc.commits| == |acc.merges|
    requires CollectFrom(written, i, acc).Ok?
    ensures var r := CollectFrom(written, i, acc).value;
      && |r.commits| == |r.merges| == |acc.commits| + |written| - i
      && r.commits[..|acc.commits|] == acc.commits && r.merges[..|acc.merges|] == acc.merges
      && forall k :: i <= k < |written| ==>
           && written[k].Ok?
           && r.commits[|acc.commits| + k - i] == ChangedPaths(written[k].value.1)
           && r.merges[|acc.merges| + k - i] == MergeInfo(written[k].value.1)
    decreases |written| - i
  {
    if i < |written| {
      var next := Extend(acc, written[i].value.1);
      CollectFromValue(written, i + 1, next);
      var r := CollectFrom(written, i, acc).value;
      assert r.commits[..|acc.commits|] == next.commits[..|next.commits|][..|acc.commits|];
      assert r.merges[..|acc.merges|] == next.merges[..|next.merges|][..|acc.merges|];
    }
  }

  /** The log is collected exactly when every entry parses and the `k`-th
      one is revision `k + 1`; `commits` and `merges` then hold the empty
      revision 0 and each revision's canonical changed paths and merge
      sources. */
  lemma CollectMeaning(written: seq<Written>)
    ensures Collect(written).Ok? <==>
      forall k :: 0 <= k < |written| ==> written[k].Ok? && written[k].value.0 == k + 1
    ensures Collect(written).Ok? ==>
      var r := Collect(written).value;
      && |r.commits| == |r.merges| == |written| + 1
      && r.commits[0] == [] && r.merges[0] == []
      && forall k :: 0 <= k < |written| ==>
           r.commits[k + 1] == ChangedPaths(written[k].value.1)
           && r.merges[k + 1] == MergeInfo(written[k].value.1)
  {
    var acc := Log([[]], [[]]);
    CollectFromOk(written, 0, acc);
    if Collect(written).Ok? {
      CollectFromValue(written, 0, acc);
      var r := Collect(written).value;
      assert r.commits[0] == r.commits[..1][0];
      assert r.merges[0] == r.merges[..1][0];
    }
  }

  /** The changes read so far followed by the outcome of the rest. */
  function Resume(parsed: seq<Change>, rest: Result<seq<Change>, LogFault>): Result<seq<Change>, LogFault>
  {
    match rest
    case Err(e) => Err(e)
    case Ok(cs) => Ok(parsed + cs)
  }

  /** The loop over the change lines after the first `i`, each read by
      `parse`: they parsed as `parsed`, `changes` and `mergeinfo` hold
      their canonical paths and sources, and `addpath` has been called on
      each of them. */
  ghost predicate ReadSoFar(parse: string -> Result<Change, LogFault>, data: seq<string>, i: nat,
                            parsed: seq<Change>, changes: seq<string>, mergeinfo: seq<PathRev>,
                            start: map<string, set<string>>, sets: map<string, set<string>>)
  {
    && i <= |data| && |parsed| == i
    && ParseFrom(parse, data, 0) == Resume(parsed, ParseFrom(parse, data, i))
    && changes == ChangedPaths(parsed) && mergeinfo == MergeInfo(parsed)
    && sets == WithChanges(start, parsed, i)
  }

  lemma ReadStart(parse: string -> Result<Change, LogFault>, data: seq<string>, start: map<string, set<string>>)
    ensures ReadSoFar(parse, data, 0, [], [], [], start, start)
  {
    var rest := ParseFrom(parse, data, 0);
    if rest.Ok? {
      assert [] + rest.value == rest.value;
    }
  }

  /** One more good line moves from the rest to what was read. */
  lemma ResumeStep(parse: string -> Result<Change, LogFault>, data: seq<string>, i: nat,
                   parsed: seq<Change>, c: Change)
    requires i < |data| && parse(data[i]) == Ok(c)
    ensures Resume(parsed, ParseFrom(parse, data, i)) == Resume(parsed + [c], ParseFrom(parse, data, i + 1))
  {
    var rest := ParseFrom(parse, data, i + 1);
    if rest.Ok? {
      assert parsed + ([c] + rest.value) == (parsed + [c]) + rest.value;
    }
  }

  /** One more change handed to `addpath`. */
  lemma WithChangesStep(start: map<string, set<string>>, parsed: seq<Change>, c: Change)
    ensures WithChanges(start, parsed + [c], |parsed| + 1) == WithChange(WithChanges(start, parsed, |parsed|), c)
  {
    var all := parsed + [c];
    assert all[|parsed|] == c;
    WithChangesPrefix(start, parsed, [c], |parsed|);
    assert WithChanges(start, all, |parsed| + 1) == WithChange(WithChanges(start, all, |parsed|), all[|parsed|]);
  }

  /** One more change line read. */
  lemma ReadStep(parse: string -> Result<Change, LogFault>, data: seq<string>, i: nat,
                 parsed: seq<Change>, changes: seq<string>, mergeinfo: seq<PathRev>,
                 start: map<string, set<string>>, sets: map<string, set<string>>, c: Change)
    requires ReadSoFar(parse, data, i, parsed, changes, mergeinfo, start, sets)
    requires i < |data| && parse(data[i]) == Ok(c)
    ensures ReadSoFar(parse, data, i + 1, parsed + [c], changes + [Canonical(c.path)],
                      mergeinfo + Source(c), start, WithChange(sets, c))
  {
    ResumeStep(parse, data, i, parsed, c);
    ChangedPathsSnoc(parsed, c);
    MergeInfoSnoc(parsed, c);
    WithChangesStep(start, parsed, c);
  }

  class Slurp {
    var pathsets: map<string, set<string>>
    var commits: seq<seq<string>>
    var merges: seq<seq<PathRev>>
    var bycontents: map<string, nat>
    var bypath: map<string, History>

    constructor ()
      ensures pathsets == map[] && commits == [] && merges == []
      ensures bycontents == map[] && bypath == map[]
    {
      pathsets := map[];
      commits := [];
      merges := [];
      bycontents := map[];
      bypath := map[];
    }

    /** The three tables `readrepo` works on. */
    function Tables(): Repo
      reads this
    {
      Repo(pathsets, bycontents, bypath)
    }

    /** `addpath`: canonicalise the path and, on first sight, record it in
        the set of each of its ancestors and of itself. */
    method AddPath(raw: string) returns (path: string)
      modifies this`pathsets
      ensures path == Canonical(raw)
      ensures pathsets == AddAncestors(old(pathsets), path)
    {
      path := Canonical(raw);
      if path !in pathsets {
        SplitHasTwo(path);
        var parts := Split(path, '/');
        var key := parts[0];
        assert parts[..1] == [parts[0]];
        var i := 1;
        while i < |parts|
          invariant 1 <= i <= |parts|
          invariant key == Join(parts[..i], '/')
          invariant pathsets == Register(old(pathsets), KeysUpTo(parts, i), path)
        {
          JoinStep(parts, '/', i);
          key := key + "/" + parts[i];
          pathsets := pathsets[key := (if key in pathsets then pathsets[key] else {}) + {path}];
          assert pathsets == Register(old(pathsets), KeysUpTo(parts, i + 1), path) by {
            RegisterSnoc(old(pathsets), KeysUpTo(parts, i), key, path);
          }
          i := i + 1;
        }
        assert pathsets == Register(old(pathsets), Prefixes(path), path) by {
          KeysUpToPrefixes(path, |parts|);
          assert Prefixes(path)[..|parts| - 1] == Prefixes(path);
        }
      }
    }

    /** `addpath` on each raw path of one change, source first. */
    method AddChange(c: Change) returns (source: seq<PathRev>, path: string)
      modifies this`pathsets
      ensures source == Source(c) && path == Canonical(c.path)
      ensures pathsets == WithChange(old(pathsets), c)
    {
      source := [];
      if c.from.Some? {
        var s := AddPath(c.from.value.0);
        source := [PathRev(s, c.from.value.1)];
      }
      path := AddPath(c.path);
    }

    /** The loop of `parse_one_commit` over the change lines, each read by
        `parse`: `addpath` on the source and the path of each change,
        collecting the canonical paths and merge sources; a bad line stops
        it. */
    method ReadLines(parse: string -> Result<Change, LogFault>, data: seq<string>)
      returns (r: Result<(seq<string>, seq<PathRev>), LogFault>)
      modifies this`pathsets
      ensures ParseFrom(parse, data, 0).Err? ==> r == Err(ParseFrom(parse, data, 0).error)
      ensures ParseFrom(parse, data, 0).Ok? ==>
        var cs := ParseFrom(parse, data, 0).value;
        && r == Ok((ChangedPaths(cs), MergeInfo(cs)))
        && pathsets == WithChanges(old(pathsets), cs, |cs|)
    {
      var changes: seq<string> := [];
      var mergeinfo: seq<PathRev> := [];
      ghost var parsed: seq<Change> := [];
      ReadStart(parse, data, pathsets);
      var i := 0;
      while i < |data|
        invariant ReadSoFar(parse, data, i, parsed, changes, mergeinfo, old(pathsets), pathsets)
        decreases |data| - i
      {
        var c := parse(data[i]);
        if c.Err? {
          return Err(c.error);
        }
        var change := c.value;
        ghost var before := pathsets;
        var source, path := AddChange(change);
        ReadStep(parse, data, i, parsed, changes, mergeinfo, old(pathsets), before, change);
        mergeinfo := mergeinfo + source;
        changes := changes + [path];
        parsed := parsed + [change];
        i := i + 1;
      }
      assert parsed + [] == parsed;
      r := Ok((changes, mergeinfo));
    }

    /** The change lines of one entry, read as change lines. */
    method ReadChanges(data: seq<string>) returns (r: Result<(seq<string>, seq<PathRev>), LogFault>)
      modifies this`pathsets
      ensures ParseChanges(data).Err? ==> r == Err(ParseChanges(data).error)
      ensures ParseChanges(data).Ok? ==>
        var cs := ParseChanges(data).value;
        && r == Ok((ChangedPaths(cs), MergeInfo(cs)))
        && pathsets == WithChanges(old(pathsets), cs, |cs|)
    {
      r := ReadLines(ParseChange, data);
    }

    /** `parse_one_commit`: the entry, after `addpath` on every path it
        names. `w` is what the entry reads as, and the outcome is the entry
        it stands for, so `r == ParseCommit(header, body)`. */
    method ParseOneCommit(header: string, body: string) returns (r: Result<Entry, LogFault>, ghost w: Written)
      modifies this`pathsets
      ensures w == ParseEntry(header, body) && r == Outcome(w)
      ensures w.Ok? ==> pathsets == WithChanges(old(pathsets), w.value.1, |w.value.1|)
    {
      w := ParseEntry(header, body);
      var h := ParseHeader(header);
      if h.Err? {
        return Err(h.error), w;
      }
      var (rev, numlines) := h.value;
      var lines := ChangeLines(body, numlines);
      if lines.Err? {
        return Err(lines.error), w;
      }
      var found := ReadChanges(lines.value);
      if found.Err? {
        return Err(found.error), w;
      }
      var (changes, mergeinfo) := found.value;
      r := Ok(Entry(rev, changes, mergeinfo));
    }

    /** `parselog` on the entries, oldest first: revision 0 is an empty
        commit, and every entry must be the next revision. */
    method ParseLog(log: seq<(string, string)>) returns (fault: Option<LogFault>, ghost written: seq<Written>)
      modifies this`pathsets, this`commits, this`merges
      ensures ReadsAs(written, log)
      ensures fault.Some? <==> Collect(written).Err?
      ensures fault.Some? ==> fault.value == Collect(written).error
      ensures fault.Some? ==> commits == old(commits) && merges == old(merges)
      ensures fault.None? ==> Log(commits, merges) == Collect(written).value
      ensures fault.None? ==> pathsets == PathsAfter(old(pathsets), written, |written|)
    {
      ReadsAsReads([], log);
      written :| ReadsAs(written, log);
      var cs: seq<seq<string>> := [[]];
      var ms: seq<seq<PathRev>> := [[]];
      var i := 0;
      while i < |log|
        invariant 0 <= i <= |log| && ReadsAs(written, log)
        invariant CollectFrom(written, i, Log(cs, ms)) == Collect(written)
        invariant pathsets == PathsAfter(old(pathsets), written, i)
        invariant commits == old(commits) && merges == old(merges)
      {
        var r;
        ghost var before := pathsets;
        ghost var w;
        r, w := ParseOneCommit(log[i].0, log[i].1);
        if r.Err? {
          return Some(r.error), written;
        }
        var entry := r.value;
        if entry.rev != |cs| {
          return Some(OutOfOrder(|cs|, entry.rev)), written;
        }
        assert Log(cs + [entry.changes], ms + [entry.mergeinfo]) == Extend(Log(cs, ms), w.value.1);
        cs := cs + [entry.changes];
        ms := ms + [entry.mergeinfo];
        i := i + 1;
      }
      commits := cs;
      merges := ms;
      return None, written;
    }

    /** `content_id`: the id of a content, a new one being numbered by the
        table's size. */
    method ContentId(content: string) returns (id: nat)
      modifies this`bycontents
      ensures bycontents == InternOne(old(bycontents), content)
      ensures id == bycontents[content]
    {
      if content in bycontents {
        id := bycontents[content];
      } else {
        id := |bycontents|;
        bycontents := bycontents[content := id];
      }
    }

    /** The `addpath` calls of the directory walk, in order. */
    method Walk(walked: seq<string>)
      modifies this`pathsets
      ensures pathsets == AddPaths(old(pathsets), walked)
    {
      var j := 0;
      while j < |walked|
        invariant 0 <= j <= |walked|
        invariant pathsets == AddFirst(old(pathsets), walked, j)
      {
        var _ := AddPath(walked[j]);
        AddFirstStep(old(pathsets), walked, j);
        j := j + 1;
      }
    }

    /** `unknown_paths`: the union of the sets of the changed paths not
        found, each looked up in `pathsets`, which gives a path never seen
        an empty set. */
    method UnknownPaths(paths: set<string>) returns (unknown: set<string>)
      modifies this`pathsets
      ensures pathsets == Touch(old(pathsets), paths)
      ensures unknown == Under(old(pathsets), paths)
    {
      unknown := {};
      var todo := paths;
      ghost var looked: set<string> := {};
      while todo != {}
        invariant looked + todo == paths && looked !! todo
        invariant pathsets == Touch(old(pathsets), looked)
        invariant unknown == Under(old(pathsets), looked)
        decreases todo
      {
        var p :| p in todo;
        TouchAdd(old(pathsets), looked, p);
        UnderAdd(old(pathsets), looked, p);
        if p !in pathsets {
          pathsets := pathsets[p := {}];
        }
        unknown := unknown + pathsets[p];
        looked := looked + {p};
        todo := todo - {p};
      }
    }

    /** The loop over the files found: `content_id` of each content, then
        a new entry in the file's history unless it already ends with that
        content. `known` is the set of their names. */
    method RecordFiles(rev: int, files: seq<(string, string)>) returns (known: set<string>)
      modifies this`bycontents, this`bypath
      ensures (bycontents, bypath) == RecordKnown(old(bycontents), old(bypath), rev, files)
      ensures known == Names(files)
    {
      known := {};
      var k := 0;
      while k < |files|
        invariant 0 <= k <= |files| && known == Names(files[..k])
        invariant RecordKnown(bycontents, bypath, rev, files[k..])
          == RecordKnown(old(bycontents), old(bypath), rev, files)
      {
        var (name, content) := files[k];
        var id := ContentId(content);
        bypath := bypath[name := KnownStep(Lookup(bypath, name), rev, id)];
        known := known + {name};
        assert files[k..][1..] == files[k + 1..];
        assert files[..k + 1] == files[..k] + [files[k]];
        k := k + 1;
      }
      assert files[..k] == files;
    }

    /** The loop over the paths gone, in any order: a deletion for each
        one whose history last held a content, and an entry, possibly
        empty, for every one. */
    method MarkGone(rev: int, gone: set<string>)
      modifies this`bypath
      ensures bypath == RecordGone(old(bypath), rev, gone)
    {
      var todo := gone;
      ghost var marked: set<string> := {};
      while todo != {}
        invariant marked + todo == gone && marked !! todo
        invariant forall f :: f in bypath <==> f in old(bypath) || f in marked
        invariant forall f :: f in marked ==> bypath[f] == DeletedStep(Lookup(old(bypath), f), rev)
        invariant forall f :: f in old(bypath) && f !in marked ==> bypath[f] == old(bypath)[f]
        decreases todo
      {
        var f :| f in todo;
        bypath := bypath[f := DeletedStep(Lookup(bypath, f), rev)];
        marked := marked + {f};
        todo := todo - {f};
      }
      RecordGoneUnique(old(bypath), rev, gone, bypath);
    }

    /** One turn of `readrepo`'s revision loop at revision `rev`: the
        directory walk's `addpath` calls, the unknown paths gathered, the
        files found recorded, then every unknown path that is not a file
        found marked deleted. */
    method RecordRevision(rev: int, obs: Observation)
      modifies this`pathsets, this`bycontents, this`bypath
      ensures Tables() == Record(old(Tables()), rev, obs)
    {
      Walk(obs.walked);
      ghost var sets := pathsets;
      var unknown := UnknownPaths(obs.paths);
      var known := RecordFiles(rev, obs.files);
      MarkGone(rev, unknown - known);
      assert sets == AddPaths(old(pathsets), obs.walked);
    }

    /** `readrepo`: from no histories and the content table holding the
        empty file as content 0, one turn of the revision loop per
        observation, revision 0 first. */
    method ReadRepo(obs: seq<Observation>)
      modifies this`pathsets, this`bycontents, this`bypath
      ensures Tables() == ReadAll(old(pathsets), obs)
      ensures AllDistinct(obs) ==>
        && Interning(bycontents) && "" in bycontents && bycontents[""] == 0
        && Histories(bypath, |obs|)
    {
      bypath := map[];
      bycontents := map[];
      var _ := ContentId("");
      var rev := 0;
      while rev < |obs|
        invariant 0 <= rev <= |obs|
        invariant RecordAll(Tables(), rev, obs[rev..]) == ReadAll(old(pathsets), obs)
      {
        RecordRevision(rev, obs[rev]);
        assert obs[rev..][1..] == obs[rev + 1..];
        rev := rev + 1;
      }
      if AllDistinct(obs) {
        ReadAllMeaning(old(pathsets), obs);
      }
    }
  }
}
