# slurpsvn merge inference, in Dafny

slurpsvn reconstructs the merge history of a Subversion repository in two
steps. `slurpsvn.py` reads the repository through `svn log -v`, `svn ls`
and `svn cat`. It produces three tables:

- `commits`: the canonical changed paths of each revision;
- `merges`: the `(path, rev)` copy sources of each revision;
- `bypath`: each file's history of `(rev, content id)` transitions, where a
  content id of `None` marks a deletion.

`analyzeslurp.py` reads those tables back. It assigns every revision to
its owning branch and prints two kinds of directive:

- `<p>,<r> reparent` when revision `r` follows `p` on its branch because
  the revisions between them were spurious;
- `<a>,<r> merge` when revision `r` evidently merged the state of
  revision `a`.

The project models both files. Each module follows one part of the
program. In the tables below `∪` stands for Python's `|` on `BranchRange`
(`__or__`):

| module | what it models |
|---|---|
| `Intervals` | `BranchRange` values: Python `True` (unconstrained), `False` (impossible), or a set of `(branch, low, high)` windows; `&` (`__and__`) |
| `Union` | `∪` (`__or__`): grouping per branch, sorting, the backward coalescing loop |
| `Choose` | `choose_best`, with its trunk and own-branch preference |
| `Factory` | `factory`: `bisect.bisect` on a breakpoint list, the `low <= target_rev` assertion, the pre-existing-file shortcut |
| `Branches` | `branchinfo`, including its substring `replace` chain |
| `FileMap` | `get_filemap`: breakpoints, the revision → paths index, the "identical content seen earlier" index |
| `Analysis` | the `analyze` loop as functions: owner choice, spurious revisions, reparenting, evidence folding, the directives printed |
| `Analyzer` | the same loop as methods, each proved equal to its function |
| `Directives` | the two directive line formats, with a parser that reads them back |
| `Paths` | `addpath`: canonical paths and the ancestor sets in `pathsets` |
| `LogEntry` | `parse_one_commit`: header, body, change lines; and what `svn log -v` prints |
| `Collector` | the `SlurpSvn` object: `pathsets`, `commits`, `merges`, `bycontents`, `bypath` updated in place by `addpath`, `parse_one_commit`, `parselog`, `content_id` and `readrepo` |
| `Records` | `readrepo` as functions: content interning, the history-append rule, one revision and all revisions |
| `Listing` | `readdir` on the text `svn ls` prints |
| `Text` | the Python string operations the program relies on (`split`, `join`, `strip`, `split()`, `find`, `replace`, `int`, `str`, slicing) |
| `Orders`, `Evidence`, `Wrappers` | sorting, strict orders, the canonical ascending form of a set, `Option` and `Result` |

Python sets are kept as strictly ascending sequences. That is the one
canonical list for each set, so two sets are equal exactly when their
sequences are. Strings are ordered by code point and `(path, rev)` pairs
by revision, then path.

Errors stop the program at an `assert`, an unpacking or an index. They
become `Err` values: `Evidence.Fault` for the analysis and
`LogEntry.LogFault` for the collector. `analyze` keeps the directives it
printed before a fatal error (`Analysis.Outcome`).

Two behaviours of the code a reader might not expect:

- `branchinfo("/x")` is `"x"`, not `"x/"`. The padding `['']` makes only
  `"/tags"` and `"/branches"` end in `/` (`Branches.BareTagsExample`).
- The `factory` fallback looks up the evidence path's own branch in
  `branchrevs`, not the target branch (analyzeslurp.py:94).

## Model

| member | source | states |
|---|---|---|
| Intervals.Overlap | analyzeslurp.py:46-52 | two windows yield a window exactly when they share a branch and `max low < min high`; the result lies inside both |
| Intervals.Intersect | analyzeslurp.py:43-52 | a window is in the intersection exactly when some pair of windows, one from each side, overlaps to it |
| Intervals.IntersectAscending | analyzeslurp.py:43-53 | the intersection is a set: strictly ascending, no duplicates |
| Intervals.And | analyzeslurp.py:40-56 | `True` is the identity of `&` and `False` absorbs it; two window sets give exactly the same-branch overlaps, or `False` when none survives |
| Intervals.IntersectMembers | analyzeslurp.py:44-52 | membership in the intersection is exactly a same-branch overlap of one window from each side |
| Intervals.AndWithin | analyzeslurp.py:48-52 | every surviving window is nonempty and lies inside one window of each operand |
| Intervals.AndCommutative | analyzeslurp.py:40-56 | `a & b == b & a` for all ranges |
| Intervals.OverlapAssociative | analyzeslurp.py:48-50 | overlapping x with y then z gives the same windows as y with z then x |
| Intervals.AndLeftMembers | analyzeslurp.py:40-53 | `(a & b) & c` holds exactly the three-way overlaps |
| Intervals.AndRightMembers | analyzeslurp.py:40-53 | `a & (b & c)` holds exactly the three-way overlaps |
| Intervals.AndAssociative | analyzeslurp.py:40-53 | `&` is associative, so the order in which `analyze` folds evidence with `&` does not matter |
| Union.BranchesOf | analyzeslurp.py:61-63 | the branches that get a bucket are exactly those of the operands' windows |
| Union.Windows | analyzeslurp.py:62-63 | one branch's bucket holds no more pairs than there are windows |
| Union.CoalesceFrom | analyzeslurp.py:68-70 | the coalesced tail is no longer than its input and starts at the input's first low |
| Union.Coalesce | analyzeslurp.py:67-70 | coalescing never lengthens a bucket |
| Union.Tag | analyzeslurp.py:71-72 | tagging a bucket with its branch keeps order and length |
| Union.CoalesceInPlace | analyzeslurp.py:67-70 | the backward loop with slice assignment computes `Coalesce` of the bucket |
| Union.GroupByBranch | analyzeslurp.py:61-63 | the per-branch dictionary has one bucket per branch that occurs, holding that branch's pairs in order |
| Union.AddWindows | analyzeslurp.py:71-72 | adding a bucket's windows to the result set gives the set union |
| Union.CoalesceBranch | analyzeslurp.py:66-72 | one pass of the outer loop adds the next branch's coalesced windows |
| Union.CoalesceAll | analyzeslurp.py:65-73 | the outer loop collects the coalesced windows of every branch |
| Union.Union | analyzeslurp.py:58-73 | `__or__` on two window sets computes `Merge` |
| Union.CoalesceShape | analyzeslurp.py:67-70 | a sorted bucket coalesces to nonempty windows separated by gaps (`next low > previous high`) |
| Union.CoalesceCovers | analyzeslurp.py:68-70 | every input low is covered by some coalesced window |
| Union.CoalesceEndpoints | analyzeslurp.py:70 | each coalesced window takes its low from one input pair and its high from one input pair |
| Union.CollectMembers | analyzeslurp.py:65-73 | the collected set holds exactly the coalesced windows of the branches visited |
| Union.MergeMembers | analyzeslurp.py:58-73 | a window is in `a ∪ b` exactly when it is a coalesced window of its branch's bucket over `a + b` |
| Union.MergeAscending | analyzeslurp.py:73 | the result is a set: strictly ascending |
| Union.SortedMembers | analyzeslurp.py:67 | sorting a bucket keeps exactly its pairs |
| Union.SortedWindows | analyzeslurp.py:67 | a sorted bucket of nonempty windows is sorted and nonempty |
| Union.CoalescedShape | analyzeslurp.py:67-70 | each branch's result windows are nonempty and separated |
| Union.MergeSeparated | analyzeslurp.py:66-72 | two distinct result windows on one branch do not touch |
| Union.MergeCovers | analyzeslurp.py:68-72 | every operand window's low is covered by a result window on its branch |
| Union.MergeEndpoints | analyzeslurp.py:70 | a merged window takes the first chained window's low and the last chained window's high, each from some operand window |
| Union.WindowsAppend | analyzeslurp.py:62-63 | the bucket of `self + other` is the bucket of `self` followed by that of `other` |
| Union.MergeCommutative | analyzeslurp.py:62-73 | `a ∪ b == b ∪ a` on window sets |
| Union.Join | analyzeslurp.py:58-76 | `True` absorbs `∪` and `False` is its identity; two window sets give exactly the coalesced windows of their concatenation |
| Union.Or | analyzeslurp.py:58-76 | the method computes `Join` |
| Union.JoinCommutative | analyzeslurp.py:58-76 | `∪` is commutative on all ranges |
| Union.OneBranchMerge | analyzeslurp.py:61-73 | on one branch, `a ∪ b` holds exactly that branch's coalesced windows |
| Union.NestedWindowTruncates | analyzeslurp.py:69-70 | `[1,10) ∪ [2,3)` gives `[1,3)`: revision 5, covered by an operand, is no longer covered |
| Union.NestedMerge | analyzeslurp.py:69-70 | a window nested in an earlier one replaces its high |
| Union.OverlappingMerge | analyzeslurp.py:69-70 | `[1,10) ∪ [5,8)` gives `[1,8)`, the later high |
| Union.DisjointMerge | analyzeslurp.py:68-72 | windows with a gap stay apart, in ascending order |
| Union.ThreeMerge | analyzeslurp.py:68-72 | `[1,10) ∪ {[2,3), [5,8)}` gives `{[1,3), [5,8)}` |
| Union.JoinLeftGrouping | analyzeslurp.py:58-73 | `([1,10) ∪ [5,8)) ∪ [2,3)` gives `[1,3)` |
| Union.JoinRightGrouping | analyzeslurp.py:58-73 | `[1,10) ∪ ([5,8) ∪ [2,3))` gives `{[1,3), [5,8)}` |
| Union.JoinNotAssociative | analyzeslurp.py:58-73 | `∪` is not associative, so the fold order at analyzeslurp.py:192-193 can change the result |
| Choose.OnBranch | analyzeslurp.py:80-82 | a branch's choices are exactly the range's windows on that branch |
| Choose.ChooseBest | analyzeslurp.py:78-86 | the result is empty exactly for an empty range, and otherwise is the `(branch, low)` of a member |
| Choose.ChooseSingle | analyzeslurp.py:79-86 | a one-window range gives that window's `(branch, low)` |
| Choose.ChooseGreatest | analyzeslurp.py:83-86 | with several windows, the result is the greatest window of the preferred group |
| Choose.SortedLastGreatest | analyzeslurp.py:85-86 | the last element after sorting is the greatest window |
| Choose.ChoosePreference | analyzeslurp.py:83-84 | a trunk window wins over everything; without one, an own-branch window wins |
| Factory.BisectFrom | analyzeslurp.py:95 | the bisection stays within its bounds |
| Factory.Bisect | analyzeslurp.py:95 | `bisect.bisect` returns an index within the list |
| Factory.BisectPartition | analyzeslurp.py:95 | on a sorted list, everything before the index is `<= rev` and everything from it is `> rev` |
| Factory.Factory | analyzeslurp.py:88-103 | fails exactly for an unrooted path, or when `low > target_rev`; otherwise gives `True` (same branch only) or one window on the evidence path's branch with `low <= target_rev` |
| Factory.BoundsMeaning | analyzeslurp.py:95-97 | `low` is the greatest breakpoint `<= rev` or -1; `high` is the next breakpoint or `low + 1` |
| Factory.BoundsOrdered | analyzeslurp.py:96-97 | `low < high` for a sorted list and `rev >= -1` |
| Factory.FactoryOutcome | analyzeslurp.py:91-103 | fails exactly when `low > target_rev`; `True` exactly when `high >= target_rev` on the target branch; otherwise the window `(branch, low, high)` |
| Branches.Renames | analyzeslurp.py:120-122 | the three replacements, each with a nonempty pattern |
| Branches.BranchInfo | analyzeslurp.py:110-123 | fails exactly for a path not starting with `/` |
| Branches.BranchInfoReplaces | analyzeslurp.py:116-122 | the result is the first component with `tags`, then `branches`, replaced by the first two components and `wiki` by `trunk` |
| Branches.PlainBranch | analyzeslurp.py:118-122 | a first component without any marker is the branch |
| Branches.TagBranch | analyzeslurp.py:119-120 | `/tags/<t>/...` is branch `tags/<t>` |
| Branches.BranchesBranch | analyzeslurp.py:119-121 | `/branches/<b>/...` is branch `branches/<b>` |
| Branches.WikiBranch | analyzeslurp.py:122 | `/wiki/...` is branch `trunk` |
| Branches.TwoComponents | analyzeslurp.py:116-119 | the first two components of `/a/b...` are `a` and `b` |
| Branches.OneComponent | analyzeslurp.py:116 | `/a` has first component `a` and an empty second one, from the padding |
| Branches.TagExample | analyzeslurp.py:116-123 | `/tags/v1/lib.txt` is branch `tags/v1` |
| Branches.TrunkExample | analyzeslurp.py:116-123 | `/trunk/lib.txt` is branch `trunk` |
| Branches.BareTagsExample | analyzeslurp.py:116-120 | `/tags` is branch `tags/` |
| Branches.EdgeExamples | analyzeslurp.py:116-117 | the empty path passes the assertion and gives `""`; `lib.txt` fails it |
| Branches.SubstringExample | analyzeslurp.py:120 | `replace` works on substrings: `/mytags/x` is branch `mymytags/x` |
| FileMap.Revs | analyzeslurp.py:133-134 | the revisions of a history, in order |
| FileMap.AddEntry | analyzeslurp.py:135 | adding to a set-valued dictionary adds exactly one member under one key |
| FileMap.AddEntries | analyzeslurp.py:144 | `update` adds exactly the given members under one key |
| FileMap.RecordTransition | analyzeslurp.py:133-137 | one transition adds its path under its revision, and `(path, rev)` under its content id when the id is truthy |
| FileMap.AddHistory | analyzeslurp.py:132-138 | one history gives breakpoints `[-1, maxrev] + revs` and adds exactly its transitions to both indexes |
| FileMap.IndexHistories | analyzeslurp.py:126-139 | breakpoints exist exactly for nonempty histories; `byrev[r]` holds exactly the paths with a transition at `r`; `filemap[c]` holds exactly the `(path, rev)` with truthy content `c` |
| FileMap.AddGroup | analyzeslurp.py:142-144 | each member of a content group gets exactly the members before it in revision order |
| FileMap.AscendingRevSorted | analyzeslurp.py:142 | the ascending form of a group is already sorted by revision |
| FileMap.SortByIdentity | analyzeslurp.py:142 | sorting a sorted list changes nothing |
| FileMap.GroupsAreContents | analyzeslurp.py:141 | two references share a group exactly when they held the same truthy content |
| FileMap.IndexIdentical | analyzeslurp.py:140-144 | `identical[x]` holds exactly the references with the same content and an earlier place in revision order |
| FileMap.GetFileMap | analyzeslurp.py:125-146 | the three tables satisfy all of the above together |
| FileMap.BreakpointsSorted | analyzeslurp.py:138 | each breakpoint list is sorted |
| FileMap.BreakpointsWellFormed | analyzeslurp.py:132-138 | for increasing revisions in `[0, maxrev)` the breakpoints are `[-1] + revs + [maxrev]` |
| FileMap.FileMapUnique | analyzeslurp.py:125-146 | the tables are determined by the histories |
| FileMap.IdenticalTransitive | analyzeslurp.py:142-144 | an earlier identical of an earlier identical is itself an earlier identical |
| Analysis.Requested | analyzeslurp.py:161 | exactly the changed paths that have breakpoints, in order |
| Analysis.KeysOfFirst | analyzeslurp.py:164-165 | branch keys succeed exactly when every path is rooted, one key per path |
| Analysis.KeysOfFirstValues | analyzeslurp.py:164-165 | each key is the `branchinfo` of its path |
| Analysis.KeysOfFirstFault | analyzeslurp.py:117 | a failure names the first unrooted path |
| Analysis.BranchKeysFault | analyzeslurp.py:164-165 | tallying stops at the first unrooted path in `chain(actual, requested)` |
| Analysis.CountFirst | analyzeslurp.py:163-165 | the count is bounded and positive exactly for a key that occurs |
| Analysis.Count | analyzeslurp.py:163-165 | a branch's count is positive exactly when it occurs, counting repeats |
| Analysis.FewerIsOrder | analyzeslurp.py:166 | ordering by `(count, name)` is a strict total order |
| Analysis.LeastOf | analyzeslurp.py:166-167 | the least candidate by `(count, name)` is a candidate and precedes every other |
| Analysis.ClassifyLeast | analyzeslurp.py:163-167 | the owner is the branch of some path and has the least `(count, name)` |
| Analysis.OwnerUnique | analyzeslurp.py:166-167 | a key no other key precedes is the owner |
| Analysis.ClassifyNothing | analyzeslurp.py:167 | a revision without paths belongs to `<nonexistent>` |
| Analysis.SkipSpurious | analyzeslurp.py:177-180 | the loop keeps the current revision last, or fails with `IndexError` for it |
| Analysis.SkipSpuriousFails | analyzeslurp.py:178-180 | it fails exactly when every earlier revision of the branch is spurious |
| Analysis.SkipSpuriousKeeps | analyzeslurp.py:177-180 | on success, a run of spurious predecessors was removed and the new predecessor recorded |
| Analysis.SkipSpuriousMeaning | analyzeslurp.py:177-180 | both of the above |
| Analysis.SkipSpuriousExamples | analyzeslurp.py:178-180 | `[3,5,7]` with 5 spurious gives `[3,7]`, reparented to 3; `[5,7]` fails |
| Analysis.AndLows | analyzeslurp.py:187 | `&` keeps every low at most the revision |
| Analysis.JoinLows | analyzeslurp.py:193 | `∪` keeps every low at most the revision |
| Analysis.MergeRangeLows | analyzeslurp.py:185-187 | folding explicit merges keeps every low at most the revision |
| Analysis.CopyRangeLows | analyzeslurp.py:191-193 | folding one path's identicals keeps every low at most the revision |
| Analysis.CopiedRangeLows | analyzeslurp.py:188-194 | folding all copied paths keeps every low at most the revision |
| Analysis.EvidenceLows | analyzeslurp.py:185-194 | the combined evidence has every low at most the revision |
| Analysis.DecideSource | analyzeslurp.py:196-201 | a merge line is printed exactly for a nonempty window set; its source is the low of a window and at most the revision |
| Analysis.AppendWellFormed | analyzeslurp.py:169-170 | appending the revision keeps each branch list increasing and below the next revision |
| Analysis.KeptWellFormed | analyzeslurp.py:177-180 | the kept list stays increasing; a new predecessor is an earlier, non-spurious revision of the branch |
| Analysis.StepOnWellFormed | analyzeslurp.py:169-201 | one revision keeps the branch lists well formed |
| Analysis.StepWellFormed | analyzeslurp.py:159-201 | one revision, including owner choice, keeps the branch lists well formed |
| Analysis.SameRevisionMerge | analyzeslurp.py:196-201 | a window starting at the revision itself yields the merge `<r>,<r> merge` |
| Analysis.ConcludeSound | analyzeslurp.py:196-201 | the merge line keeps what was printed before and names this revision and a source no later than it (a same-revision `<r>,<r> merge` can occur) |
| Analysis.SpuriousSilent | analyzeslurp.py:169-175 | a revision that changed nothing prints nothing, is marked spurious and is still appended to its owner's list; other branches keep their lists |
| Analysis.StepOnSound | analyzeslurp.py:172-201 | every directive of a revision names it; a reparent names a non-spurious earlier revision of the branch |
| Analysis.StepSound | analyzeslurp.py:159-201 | the same, after owner choice |
| Analysis.RunFromSound | analyzeslurp.py:159-201 | the output stays in revision order with sound directives |
| Analysis.RunSound | analyzeslurp.py:148-201 | the whole output is in revision order; every reparent names a strictly earlier revision and every merge a source no later than its revision |
| Analyzer.Tally | analyzeslurp.py:163-165 | the tally loop fails at the first unrooted path and otherwise counts every branch key with multiplicity |
| Analyzer.LeastKey | analyzeslurp.py:166-167 | the loop over the tally finds the owner |
| Analyzer.ClassifyRevision | analyzeslurp.py:163-167 | the method computes `Classify` |
| Analyzer.DropSpurious | analyzeslurp.py:177-180 | the `del myrevs[-2]` loop computes `SkipSpurious` |
| Analyzer.MergeEvidence | analyzeslurp.py:185-187 | the merge loop computes `MergeRange` from `True` |
| Analyzer.CopyEvidence | analyzeslurp.py:191-193 | the inner loop computes `CopyRange` from `False` |
| Analyzer.CopiedEvidence | analyzeslurp.py:188-194 | the copied-paths loop computes `CopiedRange` |
| Analyzer.ProcessRevision | analyzeslurp.py:159-201 | one loop iteration computes `Step` |
| Analyzer.Analyze | analyzeslurp.py:148-201 | fails on `len(commits) != len(merges)`; otherwise computes `Run` over the tables of `get_filemap` |
| Analyzer.AnalyzeSound | analyzeslurp.py:148-201 | every directive `analyze` prints is in revision order; a reparent names a strictly earlier revision and a merge a source no later than its revision |
| Directives.ReadShowInt | analyzeslurp.py:183 | a rendered number reads back |
| Directives.BracketRoundTrip | analyzeslurp.py:183 | `<n>` reads back as `n` and holds no `,`, space or newline |
| Directives.ParseRender | analyzeslurp.py:183-201 | every directive line reads back as its directive |
| Directives.RenderOneLine | analyzeslurp.py:183-201 | a directive is one line |
| Directives.RenderAll | analyzeslurp.py:183-201 | one line per directive, in order |
| Directives.ParseLines | analyzeslurp.py:183-201 | a read gives one directive per line |
| Directives.ParseLinesRender | analyzeslurp.py:183-201 | the printed lines read back as the directives |
| Directives.ParseStreamRender | analyzeslurp.py:183-201 | the printed output reads back as the directives |
| Paths.Canonical | slurpsvn.py:213 | a canonical path starts with `/` and does not end with one, except `/` itself |
| Paths.CanonicalIdempotent | slurpsvn.py:213 | canonicalising twice is canonicalising once |
| Paths.Prefixes | slurpsvn.py:221-226 | one key per component |
| Paths.KeysUpToPrefixes | slurpsvn.py:221-226 | the keys built by the loop are the prefixes of the path |
| Paths.PrefixIsAncestor | slurpsvn.py:221-226 | each key is the path cut at a `/` or the path itself |
| Paths.PrefixesAreAncestors | slurpsvn.py:221-226 | every key is an ancestor of the path and the last key is the path |
| Paths.RegisterMeaning | slurpsvn.py:224-226 | the loop adds the path to the set of every key and changes nothing else |
| Paths.RegisterSnoc | slurpsvn.py:224-226 | one loop step adds the path to one more key's set |
| Paths.AddAncestorsMeaning | slurpsvn.py:219-226 | a known path changes nothing; a new one enters the set of every prefix, itself included, and no other key changes |
| LogEntry.ParseFrom | slurpsvn.py:107-117 | one change per line when every line parses |
| LogEntry.ParseFromMeaning | slurpsvn.py:107-117 | the parse succeeds exactly when every line does, with the changes in line order; otherwise it reports the first bad line |
| LogEntry.ParseChangesMeaning | slurpsvn.py:107-117 | the same for all change lines of an entry |
| LogEntry.ChangedPaths | slurpsvn.py:117 | one changed path per change |
| LogEntry.SourcesOf | slurpsvn.py:115 | at most one merge source per change |
| LogEntry.ChangedPathsSnoc | slurpsvn.py:117 | each change appends its canonical path |
| LogEntry.MergeInfoSnoc | slurpsvn.py:115 | each change appends its source, if any |
| LogEntry.ChangeSources | slurpsvn.py:111-115 | a change has a source exactly when its line contains ` (from ` |
| LogEntry.FromMeansMarker | slurpsvn.py:111-112 | the same for one parsed line |
| LogEntry.RenderHeaderFields | slurpsvn.py:93 | a header splits at each vertical bar into its four fields |
| LogEntry.RevisionField | slurpsvn.py:94-95 | the first field strips to the rule and `r<rev>` on two lines |
| LogEntry.CountField | slurpsvn.py:96 | the last field splits into the count and its word |
| LogEntry.ParseFields | slurpsvn.py:92-98 | a header with those fields reads as `(int(rev[1:]), int(count))` |
| LogEntry.HeaderRoundTrip | slurpsvn.py:92-98 | every header `svn log` prints reads back as its revision and message line count |
| LogEntry.BodyRoundTrip | slurpsvn.py:99-104 | every body with a nonempty message reads back as its change lines |
| LogEntry.NoMessageFails | slurpsvn.py:101-103 | a message count of 0 keeps no line, so the entry fails |
| LogEntry.SourceRoundTrip | slurpsvn.py:113-115 | `<path>:<rev>)` ends in `)` and splits at `:` into the path and the number |
| LogEntry.PathHoldsNoMarker | slurpsvn.py:111 | a path without `(` holds no ` (from ` and none starts inside it |
| LogEntry.PlainChangeRoundTrip | slurpsvn.py:109-111 | a line without a source reads back as its path |
| LogEntry.CopiedChangeRoundTrip | slurpsvn.py:109-116 | a line with a source reads back as its path and `(path, rev)` |
| LogEntry.ChangeRoundTrip | slurpsvn.py:105-117 | every change line `svn log -v` prints reads back as its change |
| Records.InternOneKeeps | slurpsvn.py:125-126 | `setdefault` keeps existing ids and gives new content the next id, `len(bycontents)` |
| Records.InternKeeps | slurpsvn.py:125-126 | interning keeps ids distinct and below the table size, and never changes an id |
| Records.InternCovers | slurpsvn.py:125-126 | the table holds exactly the contents seen |
| Records.InitialContentsMeaning | slurpsvn.py:130-131 | the table starts as `{"": 0}` |
| Records.AppendKeeps | slurpsvn.py:149-150 | an append that differs from the last id keeps a history well formed |
| Records.KnownStepKeeps | slurpsvn.py:148-150 | a known file appends at most `(rev, id)`, and its history then ends with `id` |
| Records.DeletedStepKeeps | slurpsvn.py:154-156 | a gone file appends at most `(rev, None)`; an empty history stays empty |
| Records.RecordKnownContents | slurpsvn.py:146-147 | the content table after the known files is the table with their contents interned |
| Records.RecordKnownFrame | slurpsvn.py:146-150 | only the known files' histories change |
| Records.RecordKnownSteps | slurpsvn.py:146-150 | each known file's history takes exactly one known step |
| Records.RecordGoneMeaning | slurpsvn.py:153-156 | each gone file's history takes exactly one deletion step; the rest is unchanged |
| Records.RecordGoneUnique | slurpsvn.py:153 | the outcome does not depend on the set's iteration order |
| Records.TouchAdd | slurpsvn.py:142-143 | reading `pathsets[path]` inserts an empty set for a new key |
| Records.UnderAdd | slurpsvn.py:141-143 | the unknown paths are the union of the touched sets |
| Records.RevisionSteps | slurpsvn.py:146-156 | one revision: known files take a known step, gone files a deletion step, others unchanged |
| Records.RecordParts | slurpsvn.py:133-156 | one revision records the known files, then the unknown paths that are not known |
| Records.RevisionKeeps | slurpsvn.py:146-156 | one revision keeps interning sound and all histories well formed |
| Records.RecordKeeps | slurpsvn.py:133-156 | the same for a whole observed revision |
| Records.RecordAllInterning | slurpsvn.py:133-156 | all revisions keep interning sound |
| Records.RecordAllKeeps | slurpsvn.py:133-156 | all revisions keep histories well formed: no repeated id, no leading `None` |
| Records.ReadAllMeaning | slurpsvn.py:120-156 | after `readrepo`, `""` has id 0, ids are sound, and every history is increasing and below the revision count |
| Records.ReadAllKeepsEmpty | slurpsvn.py:131 | the empty file keeps id 0 |
| Listing.DirEntriesMeaning | slurpsvn.py:194-200 | a name is listed exactly when some line names it; the last such line decides whether it is a directory |
| Listing.ReadDir | slurpsvn.py:189-200 | the loop computes `DirEntries` of the lines |
| Collector.Reads | slurpsvn.py:79-81 | one parse outcome per log entry |
| Collector.CollectFromOk | slurpsvn.py:82-84 | collecting succeeds exactly when every entry parses and has the next revision number |
| Collector.CollectFromValue | slurpsvn.py:79-86 | the collected lists extend the accumulator with each entry's paths and sources |
| Collector.CollectMeaning | slurpsvn.py:79-87 | `commits[r]` and `merges[r]` are revision `r`'s paths and sources, with an empty revision 0, and both have the same length |
| Collector.ReadStep | slurpsvn.py:107-117 | one change-loop step keeps the loop's invariant |
| Collector.Slurp.constructor | slurpsvn.py:62 | all tables start empty |
| Collector.Slurp.AddPath | slurpsvn.py:202-227 | returns the canonical path and updates `pathsets` by `AddAncestors` |
| Collector.Slurp.AddChange | slurpsvn.py:110-117 | one change registers its path and its source's path |
| Collector.Slurp.ReadLines | slurpsvn.py:107-117 | the change loop gives the parse's paths and sources, or its first error |
| Collector.Slurp.ReadChanges | slurpsvn.py:105-117 | the same for the change-line parser |
| Collector.Slurp.ParseOneCommit | slurpsvn.py:89-118 | `parse_one_commit` computes `ParseEntry` and registers the changed paths |
| Collector.Slurp.ParseLog | slurpsvn.py:66-87 | fails exactly when collecting fails, leaving `commits` and `merges` unchanged; otherwise sets them to the collected lists |
| Collector.Slurp.ContentId | slurpsvn.py:125-126 | returns the content's id after interning it |
| Collector.Slurp.Walk | slurpsvn.py:137 | every walked path goes through `addpath` |
| Collector.Slurp.UnknownPaths | slurpsvn.py:141-143 | collects the union of the paths' sets, inserting empty sets for new keys |
| Collector.Slurp.RecordFiles | slurpsvn.py:146-150 | records the known files and returns their names |
| Collector.Slurp.MarkGone | slurpsvn.py:153-156 | marks the gone files deleted |
| Collector.Slurp.RecordRevision | slurpsvn.py:133-156 | one revision updates the tables by `Record` |
| Collector.Slurp.ReadRepo | slurpsvn.py:120-156 | `readrepo` computes `ReadAll`; ids then stay sound and histories well formed |
| Text.JoinSplit | slurpsvn.py:100 | `sep.join(s.split(sep)) == s` |
| Text.SplitJoin | slurpsvn.py:93 | splitting a join of separator-free pieces gives the pieces |
| Text.StripIdempotent | slurpsvn.py:213 | stripping twice is stripping once |
| Text.StripAround | slurpsvn.py:93 | stripping removes exactly the stripped characters around a core |
| Text.SplitWsPair | slurpsvn.py:96 | two words with a space between split into those words |
| Text.SplitOnce | slurpsvn.py:111 | `split(w, 1)` cuts at the first occurrence, or keeps the whole string |
| Text.SplitOnceAt | slurpsvn.py:111 | `split(w, 1)` cuts at the first occurrence |
| Text.ReplaceAbsent | analyzeslurp.py:120-122 | `replace` without an occurrence changes nothing |
| Text.ReplaceWhole | analyzeslurp.py:120-122 | `replace` on the whole pattern gives the replacement |
| Text.ReadDigits | slurpsvn.py:95 | a digit string reads as its decimal value |
| Text.PyIntMeaning | slurpsvn.py:98 | Python 2 `int` strips whitespace, reads an optional sign, skips whitespace after the sign, then needs only digits |
| Text.SpaceAfterSign | slurpsvn.py:116 | a space between sign and digits is accepted: `int('- 5')` is -5 |
| Text.ShowIntRoundTrip | slurpsvn.py:115 | `int(str(n)) == n` |
| Text.PrefixTo | slurpsvn.py:101-102 | `s[:j]` is a prefix of `s`, for negative `j` too |

## Left out

- Running `svn`: `SlurpSvn.__call__`, `log`, `ls`, `cat` and the recursive
  walk `allfiles` (slurpsvn.py:166-187, 229-248) are subprocess I/O.
  `readdir` takes the text `svn ls` would print, and each revision of
  `readrepo` takes an `Observation`: the paths the walk sent through
  `addpath`, the known files with their contents, and the paths not found
  as files.
- The regex split of the whole log and the `rstrip` of its last entry
  (slurpsvn.py:72-78): `parselog` takes the `(header, body)` pairs.
- Pickle, the `__main__` blocks and argv (slurpsvn.py:158-164, 251-256;
  analyzeslurp.py:205-209) are file I/O.
- `intern` only saves memory; paths and contents are plain strings.
- `stderr` diagnostics print nothing the program reads back.
- `dirnames` and `revbranches` in `analyze` are written but never read.
- Python set iteration order: sets are kept in ascending order. Where the
  order matters it is fixed that way (`|` folds identicals in ascending
  order, and ties in `get_filemap`'s sort by revision fall to the path).
  `readrepo`'s set loops pick elements with `:|`, and
  `Records.RecordGoneUnique` shows the outcome does not depend on the pick.
- `defaultdict` auto-insertion in `analyze` (analyzeslurp.py:94, 188)
  creates keys nothing reads later; those lookups return an empty default.
  The auto-insertion in `readrepo` is modelled, since `bypath` keeps the
  empty histories it creates.
- Collector.Slurp.ParseLog: `pathsets` after a failed parse is not stated.
  The paths registered before the failing entry stay in `pathsets`; no
  later step reads them, because the collector stops.
- Collector.Slurp.RecordFiles: walks the known files in observation order
  rather than Python's set order. `Records.RecordKnownSteps` states the
  outcome per file for distinct names.
- Aliasing: `myrevs` in `analyze` is the list stored in `branchrevs`, and
  is updated through the map instead.
