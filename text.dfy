/** The handful of Python `str` operations the program relies on, written
    out with Python's semantics: `split(sep)`, `sep.join`, `strip`,
    `split()` on whitespace, `split(word, 1)`, `endswith`, `replace`,
    `isdigit`, `int(...)` and `'%s' % n` for integers, and slicing. */
module Text {
  import opened Wrappers

  /** The characters Python 2's `str.strip()` and `str.split()` treat as
      whitespace. */
  const Whitespace: set<char> := {' ', '\t', '\n', '\r', '\U{000B}', '\U{000C}'}

  // ---------------------------------------------------------------------
  // split(sep) and join for a one-character separator
  // ---------------------------------------------------------------------

  /** Position of the first `c` in `s`. */
  function IndexOf(s: string, c: char): (i: nat)
    requires c in s
    ensures i < |s| && s[i] == c && c !in s[..i]
  {
    if s[0] == c then 0
    else
      assert s == [s[0]] + s[1..];
      1 + IndexOf(s[1..], c)
  }

  /** Python's `s.split(sep)`: never empty, and the pieces hold no `sep`. */
  function Split(s: string, sep: char): (parts: seq<string>)
    ensures |parts| >= 1
    ensures forall k :: 0 <= k < |parts| ==> sep !in parts[k]
    decreases |s|
  {
    if sep !in s then [s]
    else
      var i := IndexOf(s, sep);
      [s[..i]] + Split(s[i + 1..], sep)
  }

  /** Python's `sep.join(parts)`. */
  function Join(parts: seq<string>, sep: char): string
  {
    if parts == [] then ""
    else if |parts| == 1 then parts[0]
    else parts[0] + [sep] + Join(parts[1..], sep)
  }

  /** `split` at the first separator: the piece before it, then the rest. */
  lemma SplitAtFirst(s: string, sep: char)
    requires sep in s
    ensures Split(s, sep) == [s[..IndexOf(s, sep)]] + Split(s[IndexOf(s, sep) + 1..], sep)
  {
  }

  /** `join` of a first piece and at least one more. */
  lemma JoinCons(a: string, rest: seq<string>, sep: char)
    requires rest != []
    ensures Join([a] + rest, sep) == a + [sep] + Join(rest, sep)
  {
    assert ([a] + rest)[1..] == rest;
  }

  /** A string is the part before position `i`, the character there, and
      the part after. */
  lemma Reassemble(s: string, i: nat)
    requires i < |s|
    ensures s[..i] + [s[i]] + s[i + 1..] == s
  {
  }

  /** `join` undoes `split` at the first separator once it undoes it on
      the rest. */
  lemma JoinSplitStep(s: string, sep: char)
    requires sep in s
    requires Join(Split(s[IndexOf(s, sep) + 1..], sep), sep) == s[IndexOf(s, sep) + 1..]
    ensures Join(Split(s, sep), sep) == s
  {
    var i := IndexOf(s, sep);
    var rest := Split(s[i + 1..], sep);
    SplitAtFirst(s, sep);
    JoinCons(s[..i], rest, sep);
    Reassemble(s, i);
    calc {
      Join(Split(s, sep), sep);
      == Join([s[..i]] + rest, sep);
      == s[..i] + [sep] + Join(rest, sep);
      == s[..i] + [s[i]] + s[i + 1..];
      == s;
    }
  }

  lemma {:induction false} JoinSplit(s: string, sep: char)
    ensures Join(Split(s, sep), sep) == s
    decreases |s|
  {
    if sep in s {
      JoinSplit(s[IndexOf(s, sep) + 1..], sep);
      JoinSplitStep(s, sep);
    }
  }

  lemma {:induction false} SplitJoin(parts: seq<string>, sep: char)
    requires |parts| >= 1
    requires forall k :: 0 <= k < |parts| ==> sep !in parts[k]
    ensures Split(Join(parts, sep), sep) == parts
  {
    if |parts| > 1 {
      var tail := Join(parts[1..], sep);
      var s := parts[0] + [sep] + tail;
      assert Join(parts, sep) == s;
      SplitJoin(parts[1..], sep);
      assert IndexOf(s, sep) == |parts[0]| by {
        assert s[|parts[0]|] == sep;
        assert s[..|parts[0]|] == parts[0];
      }
      assert s[..|parts[0]|] == parts[0];
      assert s[|parts[0]| + 1..] == tail;
      SplitAtFirst(s, sep);
      assert parts == [parts[0]] + parts[1..];
    }
  }

  // ---------------------------------------------------------------------
  // strip and whitespace split
  // ---------------------------------------------------------------------

  /** Where the leading run of characters of `cs` from position `i` ends. */
  function LeadEnd(s: string, cs: set<char>, i: nat): (r: nat)
    requires i <= |s|
    ensures i <= r <= |s|
    ensures r < |s| ==> s[r] !in cs
    decreases |s| - i
  {
    if i < |s| && s[i] in cs then LeadEnd(s, cs, i + 1) else i
  }

  /** Where the trailing run of characters of `cs` before position `j`
      starts. */
  function TrailStart(s: string, cs: set<char>, j: nat): (r: nat)
    requires j <= |s|
    ensures r <= j
    ensures 0 < r ==> s[r - 1] !in cs
  {
    if 0 < j && s[j - 1] in cs then TrailStart(s, cs, j - 1) else j
  }

  /** Python's `s.lstrip(chars)`. */
  function LStrip(s: string, cs: set<char>): (r: string)
    ensures r != [] ==> r[0] !in cs
  {
    s[LeadEnd(s, cs, 0)..]
  }

  /** Python's `s.rstrip(chars)`. */
  function RStrip(s: string, cs: set<char>): (r: string)
    ensures r != [] ==> r[|r| - 1] !in cs
  {
    s[..TrailStart(s, cs, |s|)]
  }

  /** Python's `s.strip(chars)`. */
  function Strip(s: string, cs: set<char>): string
  {
    RStrip(LStrip(s, cs), cs)
  }

  lemma StripBounds(s: string, cs: set<char>)
    ensures var r := Strip(s, cs);
            r != [] ==> r[0] !in cs && r[|r| - 1] !in cs
  {
    var l := LStrip(s, cs);
    var r := RStrip(l, cs);
    if r != [] {
      assert r[0] == l[0];
    }
  }

  lemma LStripNoop(s: string, cs: set<char>)
    requires s != [] ==> s[0] !in cs
    ensures LStrip(s, cs) == s
  {
    assert s[0..] == s;
  }

  lemma RStripNoop(s: string, cs: set<char>)
    requires s != [] ==> s[|s| - 1] !in cs
    ensures RStrip(s, cs) == s
  {
    assert s[..|s|] == s;
  }

  /** Stripping twice strips nothing more. */
  lemma StripIdempotent(s: string, cs: set<char>)
    ensures Strip(Strip(s, cs), cs) == Strip(s, cs)
  {
    var r := Strip(s, cs);
    StripBounds(s, cs);
    LStripNoop(r, cs);
    RStripNoop(r, cs);
  }

  /** A leading run that ends at a character outside `cs`, or at the end,
      ends there. */
  lemma {:induction false} LeadEndBoundary(s: string, cs: set<char>, i: nat, j: nat)
    requires i <= j <= |s|
    requires forall k :: i <= k < j ==> s[k] in cs
    requires j == |s| || s[j] !in cs
    ensures LeadEnd(s, cs, i) == j
    decreases j - i
  {
    if i < j {
      LeadEndBoundary(s, cs, i + 1, j);
    }
  }

  /** A trailing run that starts after a character outside `cs`, or at the
      start, starts there. */
  lemma {:induction false} TrailStartBoundary(s: string, cs: set<char>, i: nat, j: nat)
    requires i <= j <= |s|
    requires forall k :: i <= k < j ==> s[k] in cs
    requires i == 0 || s[i - 1] !in cs
    ensures TrailStart(s, cs, j) == i
  {
    if i < j {
      TrailStartBoundary(s, cs, i, j - 1);
    }
  }

  /** Stripping removes exactly the runs of `cs` around a core that starts
      and ends outside `cs`. */
  lemma StripAround(pre: string, core: string, post: string, cs: set<char>)
    requires forall k :: 0 <= k < |pre| ==> pre[k] in cs
    requires forall k :: 0 <= k < |post| ==> post[k] in cs
    requires core != [] && core[0] !in cs && core[|core| - 1] !in cs
    ensures Strip(pre + core + post, cs) == core
  {
    var s := pre + core + post;
    LeadEndBoundary(s, cs, 0, |pre|);
    var l := s[|pre|..];
    assert l == core + post;
    TrailStartBoundary(l, cs, |core|, |l|);
    assert l[..|core|] == core;
  }

  /** Where the run of characters outside `cs` that starts at `i` ends. */
  function StopAt(s: string, cs: set<char>, i: nat): (r: nat)
    requires i <= |s|
    ensures i <= r <= |s|
    ensures forall k :: i <= k < r ==> s[k] !in cs
    ensures r < |s| ==> s[r] in cs
    decreases |s| - i
  {
    if i < |s| && s[i] !in cs then StopAt(s, cs, i + 1) else i
  }

  /** A run that ends at a character of `cs`, or at the end, ends there. */
  lemma {:induction false} StopAtBoundary(s: string, cs: set<char>, i: nat, j: nat)
    requires i <= j <= |s|
    requires forall k :: i <= k < j ==> s[k] !in cs
    requires j == |s| || s[j] in cs
    ensures StopAt(s, cs, i) == j
    decreases j - i
  {
    if i < j {
      StopAtBoundary(s, cs, i + 1, j);
    }
  }

  /** Leading part of `s` up to the first character of `cs` (exclusive). */
  function TakeUntil(s: string, cs: set<char>): (r: string)
    ensures forall k :: 0 <= k < |r| ==> r[k] !in cs
  {
    s[..StopAt(s, cs, 0)]
  }

  /** A nonempty run of non-whitespace characters. */
  predicate IsWord(w: string)
  {
    w != "" && forall j :: 0 <= j < |w| ==> w[j] !in Whitespace
  }

  /** Python's `s.split()`: maximal runs of non-whitespace. */
  function SplitWs(s: string): (words: seq<string>)
    ensures forall k :: 0 <= k < |words| ==> IsWord(words[k])
    decreases |s|
  {
    var t := LStrip(s, Whitespace);
    if t == [] then []
    else
      var w := TakeUntil(t, Whitespace);
      assert w != "" by { assert t[0] !in Whitespace; }
      [w] + SplitWs(t[|w|..])
  }

  // ---------------------------------------------------------------------
  // Substrings: find, split(word, 1), endswith, replace
  // ---------------------------------------------------------------------

  /** Two words with one space between split into those two words. */
  lemma SplitWsPair(a: string, b: string)
    requires IsWord(a) && IsWord(b)
    ensures SplitWs(a + " " + b) == [a, b]
  {
    var s := a + " " + b;
    LStripNoop(s, Whitespace);
    StopAtBoundary(s, Whitespace, 0, |a|);
    assert s[..|a|] == a;
    var rest := s[|a|..];
    assert rest == " " + b;
    LeadEndBoundary(rest, Whitespace, 0, 1);
    assert rest[1..] == b;
    StopAtBoundary(b, Whitespace, 0, |b|);
    assert b[..|b|] == b;
    assert b[|b|..] == [];
    assert SplitWs(rest) == [b];
  }

  predicate OccursAt(s: string, w: string, i: int)
  {
    0 <= i && i + |w| <= |s| && s[i..i + |w|] == w
  }

  /** Python's `w in s`. */
  predicate Contains(s: string, w: string)
  {
    exists i :: 0 <= i <= |s| - |w| && OccursAt(s, w, i)
  }

  /** Python's `s.find(w)`, as an option. */
  function Find(s: string, w: string): (r: Option<nat>)
    ensures r.Some? ==> OccursAt(s, w, r.value) &&
                        forall j :: 0 <= j < r.value ==> !OccursAt(s, w, j)
    ensures r.None? ==> !Contains(s, w)
  {
    if |s| < |w| then None
    else if s[..|w|] == w then Some(0)
    else
      match Find(s[1..], w)
      case None =>
        assert forall j :: 1 <= j <= |s| - |w| && OccursAt(s, w, j) ==> OccursAt(s[1..], w, j - 1);
        None
      case Some(i) =>
        assert forall j :: 1 <= j < i + 1 && OccursAt(s, w, j) ==> OccursAt(s[1..], w, j - 1);
        Some(i + 1)
  }

  /** Python's `s.split(w, 1)` for a nonempty `w`: the text before the first
      `w` and, if there is one, the text after it. */
  function SplitOnce(s: string, w: string): (r: (string, Option<string>))
    requires w != ""
    ensures r.1.None? ==> r.0 == s && !Contains(s, w)
    ensures r.1.Some? ==> s == r.0 + w + r.1.value && !Contains(r.0, w)
  {
    match Find(s, w)
    case None => (s, None)
    case Some(i) =>
      assert !Contains(s[..i], w) by {
        forall j | 0 <= j <= i - |w| ensures !OccursAt(s[..i], w, j) {
          assert !OccursAt(s, w, j);
          assert s[..i][j..j + |w|] == s[j..j + |w|];
        }
      }
      assert s == s[..i] + w + s[i + |w|..];
      (s[..i], Some(s[i + |w|..]))
  }

  /** `s.split(w, 1)` on `p + w + m`, where `w` first occurs after `p`. */
  lemma SplitOnceAt(p: string, w: string, m: string)
    requires w != ""
    requires forall j :: 0 <= j < |p| ==> !OccursAt(p + w + m, w, j)
    ensures SplitOnce(p + w + m, w) == (p, Some(m))
  {
    var s := p + w + m;
    assert OccursAt(s, w, |p|) by {
      assert s[|p|..|p| + |w|] == w;
    }
    assert Find(s, w) == Some(|p|);
    assert s[..|p|] == p && s[|p| + |w|..] == m;
  }

  predicate EndsWith(s: string, w: string)
  {
    |w| <= |s| && s[|s| - |w|..] == w
  }

  /** Python's `s.replace(pat, rep)`: every non-overlapping occurrence of
      `pat`, scanning left to right. */
  function Replace(s: string, pat: string, rep: string): string
    requires pat != ""
  {
    if |s| < |pat| then s
    else if s[..|pat|] == pat then rep + Replace(s[|pat|..], pat, rep)
    else [s[0]] + Replace(s[1..], pat, rep)
  }

  lemma {:induction false} ReplaceAbsent(s: string, pat: string, rep: string)
    requires pat != ""
    requires !Contains(s, pat)
    ensures Replace(s, pat, rep) == s
  {
    if |s| >= |pat| {
      assert !OccursAt(s, pat, 0);
      assert !Contains(s[1..], pat) by {
        forall j | 0 <= j <= |s[1..]| - |pat| ensures !OccursAt(s[1..], pat, j) {
          assert !OccursAt(s, pat, j + 1);
          assert s[1..][j..j + |pat|] == s[j + 1..j + 1 + |pat|];
        }
      }
      ReplaceAbsent(s[1..], pat, rep);
      assert s == [s[0]] + s[1..];
    }
  }

  lemma ReplaceWhole(pat: string, rep: string)
    requires pat != ""
    ensures Replace(pat, pat, rep) == rep
  {
    assert pat[|pat|..] == "";
    assert pat[..|pat|] == pat;
  }

  /** A word without `c` that occurs in `a + [c] + b` occurs in `a` or in `b`. */
  lemma ContainsAcross(a: string, c: char, b: string, w: string)
    requires c !in w
    requires Contains(a + [c] + b, w)
    ensures Contains(a, w) || Contains(b, w)
  {
    var s := a + [c] + b;
    var i :| 0 <= i <= |s| - |w| && OccursAt(s, w, i);
    assert forall k :: i <= k < i + |w| ==> s[k] == w[k - i];
    assert s[|a|] == c;
    if i + |w| <= |a| {
      assert s[i..i + |w|] == a[i..i + |w|];
      assert OccursAt(a, w, i);
    } else {
      assert i > |a|;
      assert s[i..i + |w|] == b[i - |a| - 1..i - |a| - 1 + |w|];
      assert OccursAt(b, w, i - |a| - 1);
    }
  }

  // ---------------------------------------------------------------------
  // Integers: isdigit, int(...) and '%s' % n
  // ---------------------------------------------------------------------

  predicate IsDigit(c: char)
  {
    '0' <= c <= '9'
  }

  /** Python 2's `str.isdigit()`: nonempty and only ASCII digits. */
  predicate IsDigits(s: string)
  {
    s != [] && forall k :: 0 <= k < |s| ==> IsDigit(s[k])
  }

  function DigitValue(c: char): nat
    requires IsDigit(c)
  {
    (c as int) - ('0' as int)
  }

  function DigitsValue(s: string): nat
    requires forall k :: 0 <= k < |s| ==> IsDigit(s[k])
  {
    if s == [] then 0 else DigitsValue(s[..|s| - 1]) * 10 + DigitValue(s[|s| - 1])
  }

  /** The digits of `s[..n]` read left to right, or `None` at the first
      character that is not a digit. */
  function ReadDigits(s: string, n: nat): (r: Option<nat>)
    requires n <= |s|
    ensures r.Some? <==> forall k :: 0 <= k < n ==> IsDigit(s[k])
    ensures r.Some? ==> r.value == DigitsValue(s[..n])
  {
    if n == 0 then Some(0)
    else
      match ReadDigits(s, n - 1)
      case None => None
      case Some(v) =>
        if IsDigit(s[n - 1]) then
          assert s[..n][..n - 1] == s[..n - 1];
          Some(v * 10 + DigitValue(s[n - 1]))
        else None
  }

  /** Python 2's `int(s)` in base 10: surrounding whitespace, an optional
      sign, whitespace again after the sign (`PyOS_strtol` skips it before
      reading the digits), then at least one digit; anything else raises
      ValueError (`None`). */
  function PyInt(s: string): Option<int>
  {
    var t := Strip(s, Whitespace);
    var signed := t != [] && (t[0] == '-' || t[0] == '+');
    var digits := if signed then LStrip(t[1..], Whitespace) else t;
    if digits == [] then None
    else
      match ReadDigits(digits, |digits|)
      case None => None
      case Some(v) => if signed && t[0] == '-' then Some(-(v as int)) else Some(v as int)
  }

  /** `int(s)` accepts exactly a nonempty run of digits, once stripped, or a
      sign followed by such a run after any whitespace, and reads it in
      base 10. */
  lemma PyIntMeaning(s: string)
    ensures var t := Strip(s, Whitespace);
      PyInt(s) == if IsDigits(t) then Some(DigitsValue(t) as int)
        else if t != [] && t[0] == '-' && IsDigits(LStrip(t[1..], Whitespace))
          then Some(-(DigitsValue(LStrip(t[1..], Whitespace)) as int))
        else if t != [] && t[0] == '+' && IsDigits(LStrip(t[1..], Whitespace))
          then Some(DigitsValue(LStrip(t[1..], Whitespace)))
        else None
  {
    var t := Strip(s, Whitespace);
    assert t[..|t|] == t;
    if t != [] {
      var u := LStrip(t[1..], Whitespace);
      assert u[..|u|] == u;
    }
  }

  /** A space between the sign and the digits is accepted:
      `int('- 5') == -5`. */
  lemma SpaceAfterSign(s: string)
    requires s == "- 5"
    ensures PyInt(s) == Some(-5)
  {
    LStripNoop(s, Whitespace);
    RStripNoop(s, Whitespace);
    var u := s[1..];
    assert u[0] in Whitespace && u[1] !in Whitespace;
    assert LeadEnd(u, Whitespace, 1) == 1;
    assert LeadEnd(u, Whitespace, 0) == 1;
    assert LStrip(u, Whitespace) == "5";
    assert ReadDigits("5", 1) == Some(5);
  }

  function ShowNat(n: nat): (s: string)
    ensures IsDigits(s)
  {
    var d := ['0' + ((n % 10) as char)];
    if n < 10 then d else ShowNat(n / 10) + d
  }

  /** Python's `'%s' % n` for an integer `n`. */
  function ShowInt(n: int): string
  {
    if n < 0 then "-" + ShowNat(-n) else ShowNat(n)
  }

  /** A rendering holds only digits and a minus sign. */
  lemma ShowIntChars(n: int)
    ensures forall c :: c in ShowInt(n) ==> IsDigit(c) || c == '-'
  {
    var digits := ShowNat(if n < 0 then -n else n);
    assert forall c :: c in digits ==> IsDigit(c);
  }

  lemma {:induction false} ShowNatValue(n: nat)
    ensures DigitsValue(ShowNat(n)) == n
  {
    var s := ShowNat(n);
    if n >= 10 {
      ShowNatValue(n / 10);
      assert s[..|s| - 1] == ShowNat(n / 10);
    }
  }

  /** A rendering reads back digit by digit as the number. */
  lemma ReadShowNat(m: nat)
    ensures ReadDigits(ShowNat(m), |ShowNat(m)|) == Some(m)
  {
    var d := ShowNat(m);
    ShowNatValue(m);
    assert d[..|d|] == d;
  }

  /** A rendering has no surrounding whitespace to strip. */
  lemma StripShown(n: int)
    ensures Strip(ShowInt(n), Whitespace) == ShowInt(n)
  {
    var s := ShowInt(n);
    assert s[0] !in Whitespace && s[|s| - 1] !in Whitespace;
    LStripNoop(s, Whitespace);
    RStripNoop(s, Whitespace);
  }

  /** `int(str(n)) == n`: the decimal rendering reads back as the number. */
  lemma ShowIntRoundTrip(n: int)
    ensures PyInt(ShowInt(n)) == Some(n)
  {
    var s := ShowInt(n);
    var m := if n < 0 then -n else n;
    var d := ShowNat(m);
    StripShown(n);
    PyIntMeaning(s);
    ShowNatValue(m);
    if n < 0 {
      assert s[0] == '-' && s[1..] == d;
      assert !IsDigits(s) by { assert !IsDigit(s[0]); }
      LStripNoop(d, Whitespace);
    } else {
      assert s == d;
    }
  }

  lemma ShowNatRoundTrip(n: nat)
    ensures PyInt(ShowNat(n)) == Some(n)
  {
    ShowIntRoundTrip(n);
  }

  // ---------------------------------------------------------------------
  // Slicing with Python's clamping rules
  // ---------------------------------------------------------------------

  /** Python's `s[a:b]` for nonnegative bounds. */
  function Slice<T>(s: seq<T>, a: nat, b: nat): (r: seq<T>)
    ensures |r| <= |s|
  {
    var lo := if a < |s| then a else |s|;
    var hi := if b < lo then lo else if b < |s| then b else |s|;
    s[lo..hi]
  }

  /** Python's `s[:j]` for any integer `j` (a negative `j` counts from the end). */
  function PrefixTo<T>(s: seq<T>, j: int): (r: seq<T>)
    ensures |r| <= |s| && r == s[..|r|]
  {
    if j >= 0 then (if j < |s| then s[..j] else s)
    else if |s| + j > 0 then s[..|s| + j] else []
  }
}
