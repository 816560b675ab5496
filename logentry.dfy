/** `parse_one_commit` (slurpsvn.py:89-118) stated as functions: one entry
    of `svn log -v`, already cut into its header line and its body, read
    into the revision number, the changed paths and the merge sources.

    A header reads `r<rev> | <author> | <date> | <n> line(s)` after a rule
    of dashes; the body is `Changed paths:`, one line per change, a blank
    line, and the `n` lines of the message. */
module LogEntry {
  import opened Wrappers
  import opened Text
  import opened Evidence
  import opened Paths

  /** The assertions and unpacking errors that stop the collector. */
  datatype LogFault =
    | BadHeader(header: string)            // the unpackings at slurpsvn.py:93-94
    | BadRevision(token: string)           // assert at slurpsvn.py:95
    | BadLineCount(field: string)          // slurpsvn.py:96-98
    | BadBody                              // slurpsvn.py:100-104
    | BadChange(line: string)              // assert at slurpsvn.py:109
    | BadMergeSource(line: string)         // slurpsvn.py:114-116
    | OutOfOrder(expected: nat, found: nat) // assert at slurpsvn.py:83

  /** The header: the revision number and the message's line count. */
  function ParseHeader(header: string): Result<(nat, int), LogFault>
  {
    var fields := Split(header, '|');
    if |fields| != 4 then Err(BadHeader(header))
    else
      var revLines := Split(Strip(fields[0], Whitespace), '\n');
      var count := Strip(fields[3], Whitespace);
      if |revLines| != 2 then Err(BadHeader(header))
      else
        var token := revLines[1];
        if !(token != "" && token[0] == 'r' && IsDigits(token[1..])) then Err(BadRevision(token))
        else
          var words := SplitWs(count);
          if |words| != 2 || (words[1] != "line" && words[1] != "lines") then Err(BadLineCount(count))
          else
            match PyInt(words[0])
            case None => Err(BadLineCount(count))
            case Some(n) => Ok((DigitsValue(token[1..]), n))
  }

  /** The change lines of the body: it ends with a newline, the last
      `numlines` lines are the message (`body[:-numlines]`, so a count of 0
      keeps nothing), and what precedes them is `Changed paths:`, the change
      lines and a blank line. */
  function ChangeLines(body: string, numlines: int): Result<seq<string>, LogFault>
  {
    var lines := Split(body, '\n');
    if lines[|lines| - 1] != "" then Err(BadBody)
    else
      var data := PrefixTo(lines[..|lines| - 1], -numlines);
      if data == [] || data[0] != "Changed paths:" then Err(BadBody)
      else if |data| < 2 || data[|data| - 1] != "" then Err(BadBody)
      else Ok(data[1..|data| - 1])
  }

  /** One change as written: the path, and the `(path, rev)` it was copied
      from, if any. */
  datatype Change = Change(path: string, from: Option<(string, int)>)

  const FromMarker: string := " (from "

  /** One change line: `' /'` at columns 4-5, the path from column 5, and an
      optional ` (from <path>:<rev>)` suffix. */
  function ParseChange(line: string): Result<Change, LogFault>
  {
    if Slice(line, 4, 6) != " /" then Err(BadChange(line))
    else
      var (path, rest) := SplitOnce(line[5..], FromMarker);
      match rest
      case None => Ok(Change(path, None))
      case Some(m) =>
        if !EndsWith(m, ")") then Err(BadMergeSource(line))
        else
          var pieces := Split(m[..|m| - 1], ':');
          if |pieces| != 2 then Err(BadMergeSource(line))
          else
            match PyInt(pieces[1])
            case None => Err(BadMergeSource(line))
            case Some(r) => Ok(Change(path, Some((pieces[0], r))))
  }

  /** The change lines from the `i`-th on read by `parse`, in order; the
      first bad one stops the parse. */
  function ParseFrom(parse: string -> Result<Change, LogFault>, lines: seq<string>, i: nat)
    : (r: Result<seq<Change>, LogFault>)
    requires i <= |lines|
    ensures r.Ok? ==> |r.value| == |lines| - i
    decreases |lines| - i
  {
    if i == |lines| then Ok([])
    else
      match parse(lines[i])
      case Err(e) => Err(e)
      case Ok(c) =>
        match ParseFrom(parse, lines, i + 1)
        case Err(e) => Err(e)
        case Ok(cs) => Ok([c] + cs)
  }

  /** Every change line in order. */
  function ParseChanges(lines: seq<string>): Result<seq<Change>, LogFault>
  {
    ParseFrom(ParseChange, lines, 0)
  }

  /** The lines from the `i`-th on parse exactly when each of them does,
      and then each line's change is at that line's place; otherwise the
      fault is that of the first bad line. */
  lemma {:induction false} ParseFromMeaning(parse: string -> Result<Change, LogFault>, lines: seq<string>, i: nat)
    requires i <= |lines|
    ensures ParseFrom(parse, lines, i).Ok? <==> forall k :: i <= k < |lines| ==> parse(lines[k]).Ok?
    ensures ParseFrom(parse, lines, i).Ok? ==>
      forall k :: i <= k < |lines| ==> parse(lines[k]) == Ok(ParseFrom(parse, lines, i).value[k - i])
    ensures ParseFrom(parse, lines, i).Err? ==>
      exists j :: i <= j < |lines| && parse(lines[j]) == Err(ParseFrom(parse, lines, i).error)
        && forall k :: i <= k < j ==> parse(lines[k]).Ok?
    decreases |lines| - i
  {
    if i < |lines| {
      ParseFromMeaning(parse, lines, i + 1);
      if parse(lines[i]).Err? {
        assert parse(lines[i]) == Err(ParseFrom(parse, lines, i).error);
      }
    }
  }

  /** The parse succeeds exactly when every line parses, and then holds
      each line's change at that line's place; otherwise it fails with the
      fault of the first bad line. */
  lemma ParseChangesMeaning(lines: seq<string>)
    ensures ParseChanges(lines).Ok? <==> forall k :: 0 <= k < |lines| ==> ParseChange(lines[k]).Ok?
    ensures ParseChanges(lines).Ok? ==>
      forall k :: 0 <= k < |lines| ==> ParseChange(lines[k]) == Ok(ParseChanges(lines).value[k])
    ensures ParseChanges(lines).Err? ==>
      exists j :: 0 <= j < |lines| && ParseChange(lines[j]) == Err(ParseChanges(lines).error)
        && forall k :: 0 <= k < j ==> ParseChange(lines[k]).Ok?
  {
    ParseFromMeaning(ParseChange, lines, 0);
  }

  /** `addpath` on the paths of one change: the source first. */
  function WithChange(sets: map<string, set<string>>, c: Change): map<string, set<string>>
  {
    var before := if c.from.Some? then WithPath(sets, c.from.value.0) else sets;
    WithPath(before, c.path)
  }

  /** `addpath` on the paths of the first `n` changes, in order. */
  function WithChanges(sets: map<string, set<string>>, cs: seq<Change>, n: nat): map<string, set<string>>
    requires n <= |cs|
  {
    if n == 0 then sets else WithChange(WithChanges(sets, cs, n - 1), cs[n - 1])
  }

  /** Changes after the first `n` do not matter to them. */
  lemma {:induction false} WithChangesPrefix(sets: map<string, set<string>>, cs: seq<Change>, more: seq<Change>, n: nat)
    requires n <= |cs|
    ensures WithChanges(sets, cs + more, n) == WithChanges(sets, cs, n)
  {
    if n > 0 {
      WithChangesPrefix(sets, cs, more, n - 1);
      assert (cs + more)[n - 1] == cs[n - 1];
    }
  }

  /** `changes`: the canonical path of every change, in order. */
  function ChangedPaths(cs: seq<Change>): (r: seq<string>)
    ensures |r| == |cs|
  {
    seq(|cs|, k requires 0 <= k < |cs| => Canonical(cs[k].path))
  }

  /** The merge entry of one change, if it has a source. */
  function Source(c: Change): seq<PathRev>
  {
    if c.from.Some? then [PathRev(Canonical(c.from.value.0), c.from.value.1)] else []
  }

  /** The merge entries of the first `n` changes, in order. */
  function SourcesOf(cs: seq<Change>, n: nat): (r: seq<PathRev>)
    requires n <= |cs|
    ensures |r| <= n
  {
    if n == 0 then [] else SourcesOf(cs, n - 1) + Source(cs[n - 1])
  }

  /** `mergeinfo`: the canonical source of every copy, in order. */
  function MergeInfo(cs: seq<Change>): seq<PathRev>
  {
    SourcesOf(cs, |cs|)
  }

  /** What one log entry yields. */
  datatype Entry = Entry(rev: nat, changes: seq<string>, mergeinfo: seq<PathRev>)

  /** The entry made of a revision's changes: their canonical paths and
      canonical merge sources. */
  function Commit(rev: nat, cs: seq<Change>): Entry
  {
    Entry(rev, ChangedPaths(cs), MergeInfo(cs))
  }

  /** The revision number and the changes of one entry, as written. */
  function ParseEntry(header: string, body: string): Result<(nat, seq<Change>), LogFault>
  {
    match ParseHeader(header)
    case Err(e) => Err(e)
    case Ok((rev, numlines)) =>
      match ChangeLines(body, numlines)
      case Err(e) => Err(e)
      case Ok(lines) =>
        match ParseChanges(lines)
        case Err(e) => Err(e)
        case Ok(cs) => Ok((rev, cs))
  }

  /** The entry an outcome of `ParseEntry` stands for. */
  function Outcome(w: Result<(nat, seq<Change>), LogFault>): Result<Entry, LogFault>
  {
    match w
    case Err(e) => Err(e)
    case Ok((rev, cs)) => Ok(Commit(rev, cs))
  }

  /** `parse_one_commit`: the revision, the canonical changed paths and the
      canonical merge sources. */
  function ParseCommit(header: string, body: string): Result<Entry, LogFault>
  {
    Outcome(ParseEntry(header, body))
  }

  lemma ChangedPathsSnoc(cs: seq<Change>, c: Change)
    ensures ChangedPaths(cs + [c]) == ChangedPaths(cs) + [Canonical(c.path)]
  {
  }

  /** Changes after the first `n` do not matter to their merge entries. */
  lemma {:induction false} SourcesOfPrefix(cs: seq<Change>, more: seq<Change>, n: nat)
    requires n <= |cs|
    ensures SourcesOf(cs + more, n) == SourcesOf(cs, n)
  {
    if n > 0 {
      SourcesOfPrefix(cs, more, n - 1);
      assert (cs + more)[n - 1] == cs[n - 1];
    }
  }

  lemma MergeInfoSnoc(cs: seq<Change>, c: Change)
    ensures MergeInfo(cs + [c]) == MergeInfo(cs) + Source(c)
  {
    SourcesOfPrefix(cs, [c], |cs|);
    assert (cs + [c])[|cs|] == c;
  }

  /** A merge entry comes from exactly the change lines that hold
      ` (from `. */
  lemma ChangeSources(lines: seq<string>)
    requires ParseChanges(lines).Ok?
    ensures forall k :: 0 <= k < |lines| ==>
      (ParseChanges(lines).value[k].from.Some? <==> Contains(lines[k], FromMarker))
  {
    var cs := ParseChanges(lines).value;
    ParseChangesMeaning(lines);
    forall k | 0 <= k < |lines| ensures cs[k].from.Some? <==> Contains(lines[k], FromMarker) {
      FromMeansMarker(lines[k], cs[k]);
    }
  }

  /** An occurrence of ` (from ` lies after column 5, which holds a `/`,
      so it is an occurrence in the path part. */
  lemma MarkerInTail(line: string, i: int)
    requires |line| >= 6 && line[5] == '/'
    requires OccursAt(line, FromMarker, i)
    ensures Contains(line[5..], FromMarker)
  {
    var tail := line[5..];
    assert tail[i - 5..i - 5 + |FromMarker|] == line[i..i + |FromMarker|];
    assert OccursAt(tail, FromMarker, i - 5);
  }

  lemma MarkerFromTail(line: string, path: string, m: string)
    requires |line| >= 5 && line[5..] == path + FromMarker + m
    ensures Contains(line, FromMarker)
  {
    var j := 5 + |path|;
    assert line[j..j + |FromMarker|] == FromMarker;
    assert OccursAt(line, FromMarker, j);
  }

  /** A change has a source exactly when its line holds ` (from `. */
  lemma FromMeansMarker(line: string, c: Change)
    requires ParseChange(line) == Ok(c)
    ensures c.from.Some? <==> Contains(line, FromMarker)
  {
    assert Slice(line, 4, 6) == " /";
    assert |line| >= 6 && line[5] == '/';
    var (path, rest) := SplitOnce(line[5..], FromMarker);
    if rest.Some? {
      MarkerFromTail(line, path, rest.value);
    } else if Contains(line, FromMarker) {
      var i :| 0 <= i <= |line| - |FromMarker| && OccursAt(line, FromMarker, i);
      MarkerInTail(line, i);
    }
  }

  // ---------------------------------------------------------------------
  // What `svn log -v` prints, read back
  // ---------------------------------------------------------------------

  /** The rule of 72 dashes that opens every entry. */
  const Rule: string := Dashes(72)

  function Dashes(n: nat): (r: string)
    ensures |r| == n && forall k :: 0 <= k < n ==> r[k] == '-'
  {
    if n == 0 then "" else "-" + Dashes(n - 1)
  }

  function LineWord(n: nat): string
  {
    if n == 1 then "line" else "lines"
  }

  lemma LineWordIsWord(n: nat)
    ensures IsWord(LineWord(n))
  {
    var w := LineWord(n);
    forall j | 0 <= j < |w| ensures w[j] !in Whitespace {
      assert 'a' <= w[j] <= 'z';
    }
  }

  /** The header of an entry, up to and including its newline: the rule,
      then `r<rev>`, the author, the date and `<n> line(s)`, separated by
      ` | `. */
  function RenderHeader(rev: nat, author: string, date: string, n: nat): string
  {
    Join(HeaderFields(rev, author, date, n), '|')
  }

  /** The four `|` fields of a header, with the spaces around each bar. */
  function HeaderFields(rev: nat, author: string, date: string, n: nat): seq<string>
  {
    [Rule + "\nr" + ShowNat(rev) + " ", " " + author + " ", " " + date + " ",
     " " + ShowNat(n) + " " + LineWord(n) + "\n"]
  }

  lemma NoDigitIsBar(s: string)
    requires IsDigits(s)
    ensures '|' !in s && '\n' !in s && IsWord(s)
  {
    assert forall k :: 0 <= k < |s| ==> IsDigit(s[k]);
  }

  /** A header splits at `|` into its four fields when the author and the
      date hold no `|`. */
  lemma RenderHeaderFields(rev: nat, author: string, date: string, n: nat)
    requires '|' !in author && '|' !in date
    ensures Split(RenderHeader(rev, author, date, n), '|') == HeaderFields(rev, author, date, n)
  {
    var fs := HeaderFields(rev, author, date, n);
    NoDigitIsBar(ShowNat(rev));
    NoDigitIsBar(ShowNat(n));
    assert '|' !in Rule;
    assert forall k :: 0 <= k < 4 ==> '|' !in fs[k];
    SplitJoin(fs, '|');
  }

  /** The first field of a header strips to the rule and the revision
      token, on two lines. */
  lemma RevisionField(digits: string)
    requires IsDigits(digits)
    ensures Split(Strip(Rule + "\nr" + digits + " ", Whitespace), '\n') == [Rule, "r" + digits]
  {
    var core := Rule + "\nr" + digits;
    assert core[0] == Rule[0] == '-';
    assert core[|core| - 1] == digits[|digits| - 1];
    assert "" + core + " " == core + " ";
    StripAround("", core, " ", Whitespace);
    RevisionLines(digits);
  }

  lemma RevisionLines(digits: string)
    requires IsDigits(digits)
    ensures Split(Rule + "\nr" + digits, '\n') == [Rule, "r" + digits]
  {
    NoDigitIsBar(digits);
    var token := "r" + digits;
    assert '\n' !in token;
    assert '\n' !in Rule;
    JoinCons(Rule, [token], '\n');
    assert [Rule] + [token] == [Rule, token];
    assert Rule + "\nr" + digits == Rule + ['\n'] + token;
    SplitJoin([Rule, token], '\n');
  }

  /** The last field of a header strips and splits into the count and
      its word. */
  lemma CountField(digits: string, word: string)
    requires IsDigits(digits) && IsWord(word)
    ensures SplitWs(Strip(" " + digits + " " + word + "\n", Whitespace)) == [digits, word]
  {
    var core := digits + " " + word;
    NoDigitIsBar(digits);
    assert " " + digits + " " + word + "\n" == " " + core + "\n";
    StripAround(" ", core, "\n", Whitespace);
    SplitWsPair(digits, word);
  }

  /** What `ParseHeader` makes of a header whose fields are known. */
  lemma ParseFields(header: string, fs: seq<string>, rule: string, revDigits: string, count: string, word: string, n: int)
    requires Split(header, '|') == fs && |fs| == 4
    requires Split(Strip(fs[0], Whitespace), '\n') == [rule, "r" + revDigits] && IsDigits(revDigits)
    requires SplitWs(Strip(fs[3], Whitespace)) == [count, word] && (word == "line" || word == "lines")
    requires PyInt(count) == Some(n)
    ensures ParseHeader(header) == Ok((DigitsValue(revDigits), n))
  {
    var token := "r" + revDigits;
    assert token != "" && token[0] == 'r' && token[1..] == revDigits;
  }

  /** Every header `svn` prints reads back as its revision and its message
      line count. */
  lemma HeaderRoundTrip(rev: nat, author: string, date: string, n: nat)
    requires '|' !in author && '|' !in date
    ensures ParseHeader(RenderHeader(rev, author, date, n)) == Ok((rev, n))
  {
    var fs := HeaderFields(rev, author, date, n);
    RenderHeaderFields(rev, author, date, n);
    RevisionField(ShowNat(rev));
    LineWordIsWord(n);
    CountField(ShowNat(n), LineWord(n));
    ShowNatValue(rev);
    ShowNatRoundTrip(n);
    ParseFields(RenderHeader(rev, author, date, n), fs, Rule, ShowNat(rev), ShowNat(n), LineWord(n), n);
  }

  /** The body of an entry: `Changed paths:`, the change lines, a blank
      line, the message, and a final newline. */
  function RenderBody(changes: seq<string>, msg: seq<string>): string
  {
    Join(["Changed paths:"] + changes + [""] + msg + [""], '\n')
  }

  predicate NoNewlines(lines: seq<string>)
  {
    forall k :: 0 <= k < |lines| ==> '\n' !in lines[k]
  }

  /** The change lines of every body with a nonempty message read back,
      given the message's line count. */
  lemma BodyRoundTrip(changes: seq<string>, msg: seq<string>)
    requires msg != [] && NoNewlines(changes) && NoNewlines(msg)
    ensures ChangeLines(RenderBody(changes, msg), |msg|) == Ok(changes)
  {
    var parts := ["Changed paths:"] + changes + [""] + msg + [""];
    forall k | 0 <= k < |parts| ensures '\n' !in parts[k] {
      if 0 < k <= |changes| {
        assert parts[k] == changes[k - 1];
      } else if |changes| + 1 < k < |parts| - 1 {
        assert parts[k] == msg[k - |changes| - 2];
      }
    }
    SplitJoin(parts, '\n');
    var front := parts[..|parts| - 1];
    var data := ["Changed paths:"] + changes + [""];
    assert front == data + msg;
    assert PrefixTo(front, -|msg|) == data;
    assert data[1..|data| - 1] == changes;
  }

  /** A message line count of 0 keeps no line at all (`body[:-0]` is
      empty), so such an entry never parses. */
  lemma NoMessageFails(body: string)
    ensures ChangeLines(body, 0) == Err(BadBody)
  {
  }

  /** A change line as `svn` writes it: the four-column action, a space,
      the path, and the copy source if there is one. */
  function RenderChange(action: string, c: Change): string
  {
    action + " " + (c.path + SourceSuffix(c.from))
  }

  /** ` (from <path>:<rev>)`, or nothing for a change without a source. */
  function SourceSuffix(from: Option<(string, int)>): string
  {
    match from
    case None => ""
    case Some((src, r)) => FromMarker + SourceText(src, r)
  }

  function SourceText(src: string, r: int): string
  {
    src + ":" + ShowInt(r) + ")"
  }

  /** Every occurrence of the marker has its `(` one place in. */
  lemma MarkerHasParen(s: string, j: int)
    requires 0 <= j < |s| - 1
    ensures OccursAt(s, FromMarker, j) ==> s[j + 1] == '('
  {
    if OccursAt(s, FromMarker, j) {
      assert s[j..j + |FromMarker|][1] == '(';
    }
  }

  /** A path without `(` holds no marker, and none starts inside it. */
  lemma PathHoldsNoMarker(path: string, tail: string)
    requires '(' !in path
    ensures !Contains(path, FromMarker)
    ensures forall j :: 0 <= j < |path| ==> !OccursAt(path + FromMarker + tail, FromMarker, j)
  {
    forall j | 0 <= j <= |path| - |FromMarker| ensures !OccursAt(path, FromMarker, j) {
      MarkerHasParen(path, j);
    }
    var s := path + FromMarker + tail;
    forall j | 0 <= j < |path| ensures !OccursAt(s, FromMarker, j) {
      assert s[j + 1] != '(' by {
        if j + 1 < |path| {
          assert s[j + 1] == path[j + 1];
        } else {
          assert s[j + 1] == FromMarker[0];
        }
      }
      MarkerHasParen(s, j);
    }
  }

  /** The copy source after the marker reads back as its path and
      revision. */
  lemma SourceRoundTrip(src: string, r: int)
    requires ':' !in src
    ensures var m := SourceText(src, r);
      EndsWith(m, ")") && Split(m[..|m| - 1], ':') == [src, ShowInt(r)]
  {
    var m := SourceText(src, r);
    assert m[..|m| - 1] == src + ":" + ShowInt(r);
    ShowIntChars(r);
    var parts := [src, ShowInt(r)];
    JoinCons(src, [ShowInt(r)], ':');
    assert [src] + [ShowInt(r)] == parts;
    SplitJoin(parts, ':');
  }

  /** The path of a change line starts at column 5, after the action. */
  lemma LineShape(action: string, rest: string)
    requires |action| == 4 && rest != [] && rest[0] == '/'
    ensures var line := action + " " + rest;
      Slice(line, 4, 6) == " /" && line[5..] == rest
  {
    var line := action + " " + rest;
    assert line[4] == ' ' && line[5] == '/';
  }

  /** What `ParseChange` makes of a line whose pieces are known. */
  lemma ParseCopied(line: string, path: string, m: string, src: string, digits: string, r: int)
    requires Slice(line, 4, 6) == " /" && SplitOnce(line[5..], FromMarker) == (path, Some(m))
    requires EndsWith(m, ")") && Split(m[..|m| - 1], ':') == [src, digits] && PyInt(digits) == Some(r)
    ensures ParseChange(line) == Ok(Change(path, Some((src, r))))
  {
  }

  /** A change line without a copy source reads back as its path. */
  lemma PlainChangeRoundTrip(action: string, path: string)
    requires |action| == 4 && path != [] && path[0] == '/' && '(' !in path
    ensures ParseChange(RenderChange(action, Change(path, None))) == Ok(Change(path, None))
  {
    assert path + SourceSuffix(None) == path;
    LineShape(action, path);
    PathHoldsNoMarker(path, "");
  }

  /** A change line with a copy source reads back as its path and its
      source. */
  lemma CopiedChangeRoundTrip(action: string, path: string, src: string, r: int)
    requires |action| == 4 && path != [] && path[0] == '/' && '(' !in path && ':' !in src
    ensures ParseChange(RenderChange(action, Change(path, Some((src, r))))) == Ok(Change(path, Some((src, r))))
  {
    var m := SourceText(src, r);
    var rest := path + (FromMarker + m);
    assert rest == path + FromMarker + m;
    assert rest[0] == '/';
    LineShape(action, rest);
    PathHoldsNoMarker(path, m);
    SplitOnceAt(path, FromMarker, m);
    SourceRoundTrip(src, r);
    ShowIntRoundTrip(r);
    ParseCopied(action + " " + rest, path, m, src, ShowInt(r), r);
  }

  /** Every change line `svn` writes reads back as the change it
      describes, when the path starts at column 5 with `/`, holds no `(`,
      and the copy source holds no `:`. */
  lemma ChangeRoundTrip(action: string, c: Change)
    requires |action| == 4 && c.path != [] && c.path[0] == '/' && '(' !in c.path
    requires c.from.Some? ==> ':' !in c.from.value.0
    ensures ParseChange(RenderChange(action, c)) == Ok(c)
  {
    match c.from
    case None =>
      PlainChangeRoundTrip(action, c.path);
    case Some((src, r)) =>
      CopiedChangeRoundTrip(action, c.path, src, r);
  }
}
