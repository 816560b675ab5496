/** `readdir` (slurpsvn.py:189-200): the dictionary built from the output
    of `svn ls`, one name per line, directories marked by a trailing `/`. */
module Listing {
  import opened Wrappers
  import opened Text

  /** What one line of `svn ls` says: a name ending in `/` is a directory,
      any other nonempty line a file, an empty line nothing. */
  function DirEntry(line: string): Option<(string, bool)>
  {
    if EndsWith(line, "/") then Some((line[..|line| - 1], true))
    else if line != "" then Some((line, false))
    else None
  }

  predicate Lists(line: string, name: string)
  {
    DirEntry(line).Some? && DirEntry(line).value.0 == name
  }

  /** The dictionary built line by line; a later line overwrites. */
  function DirEntries(lines: seq<string>): map<string, bool>
  {
    if lines == [] then map[]
    else
      var m := DirEntries(lines[..|lines| - 1]);
      match DirEntry(lines[|lines| - 1])
      case None => m
      case Some((name, isDir)) => m[name := isDir]
  }

  /** A name is in the dictionary exactly when some line names it, and it
      maps to what the last such line says. */
  lemma {:induction false} DirEntriesMeaning(lines: seq<string>, name: string)
    ensures name in DirEntries(lines) <==> exists k :: 0 <= k < |lines| && Lists(lines[k], name)
    ensures forall k ::
      (0 <= k < |lines| && Lists(lines[k], name) && forall j :: k < j < |lines| ==> !Lists(lines[j], name))
      ==> name in DirEntries(lines) && DirEntries(lines)[name] == DirEntry(lines[k]).value.1
    decreases |lines|
  {
    if lines != [] {
      var init := lines[..|lines| - 1];
      DirEntriesMeaning(init, name);
      assert forall k :: 0 <= k < |init| ==> init[k] == lines[k];
    }
  }

  /** `readdir` on the text `svn ls` printed. */
  method ReadDir(listing: string) returns (result: map<string, bool>)
    ensures result == DirEntries(Split(listing, '\n'))
  {
    var lines := Split(listing, '\n');
    result := map[];
    var i := 0;
    while i < |lines|
      invariant 0 <= i <= |lines|
      invariant result == DirEntries(lines[..i])
    {
      var fname := lines[i];
      if EndsWith(fname, "/") {
        result := result[fname[..|fname| - 1] := true];
      } else if fname != "" {
        result := result[fname := false];
      }
      assert lines[..i + 1][..i] == lines[..i];
      i := i + 1;
    }
    assert lines[..|lines|] == lines;
  }
}
