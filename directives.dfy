/** The decision stream `analyze` prints on standard output
    (analyzeslurp.py:183 and 201): one line per decision, two revision
    numbers in angle brackets separated by a comma, a space and a keyword.

        <predecessor>,<rev> reparent
        <source>,<rev> merge

    The stream is consumed by a separate history-rewriting tool, so the
    grammar is fixed; `Parse` reads it back and `ParseRender` and
    `ParseStreamRender` show that nothing is lost. */
module Directives {
  import opened Wrappers
  import opened Text

  datatype Directive =
    | Reparent(parent: int, rev: int)   // `rev` now follows `parent` on its branch
    | MergeFrom(source: int, rev: int)  // `rev` merged the state of `source`

  function Keyword(d: Directive): string
  {
    match d
    case Reparent(_, _) => "reparent"
    case MergeFrom(_, _) => "merge"
  }

  function First(d: Directive): int
  {
    match d
    case Reparent(p, _) => p
    case MergeFrom(s, _) => s
  }

  /** `'<%s>' % n`. */
  function Bracket(n: int): string
  {
    "<" + ShowInt(n) + ">"
  }

  /** The printed line, without its newline. */
  function Render(d: Directive): string
  {
    Join([Bracket(First(d)), Join([Bracket(d.rev), Keyword(d)], ' ')], ',')
  }

  /** A decimal integer with an optional minus sign and nothing else. */
  function ReadInt(s: string): Option<int>
  {
    if IsDigits(s) then Some(DigitsValue(s) as int)
    else if s != [] && s[0] == '-' && IsDigits(s[1..]) then Some(-(DigitsValue(s[1..]) as int))
    else None
  }

  function Unbracket(s: string): Option<int>
  {
    if |s| >= 2 && s[0] == '<' && s[|s| - 1] == '>' then ReadInt(s[1..|s| - 1]) else None
  }

  /** Reads one line of the stream back. */
  function Parse(line: string): Option<Directive>
  {
    var halves := Split(line, ',');
    if |halves| != 2 then None
    else
      var words := Split(halves[1], ' ');
      if |words| != 2 then None
      else
        match (Unbracket(halves[0]), Unbracket(words[0]))
        case (Some(a), Some(b)) =>
          if words[1] == "reparent" then Some(Reparent(a, b))
          else if words[1] == "merge" then Some(MergeFrom(a, b))
          else None
        case _ => None
  }

  lemma {:induction false} ReadShowInt(n: int)
    ensures ReadInt(ShowInt(n)) == Some(n)
  {
    var s := ShowInt(n);
    ShowNatValue(if n < 0 then -n else n);
    if n < 0 {
      assert s[1..] == ShowNat(-n);
      assert !IsDigit(s[0]);
    }
  }

  lemma BracketRoundTrip(n: int)
    ensures Unbracket(Bracket(n)) == Some(n)
    ensures ',' !in Bracket(n) && ' ' !in Bracket(n) && '\n' !in Bracket(n)
  {
    var b := Bracket(n);
    assert b[1..|b| - 1] == ShowInt(n);
    ReadShowInt(n);
    ShowIntChars(n);
  }

  lemma KeywordChars(d: Directive)
    ensures ',' !in Keyword(d) && ' ' !in Keyword(d) && '\n' !in Keyword(d)
  {
  }

  /** The line splits at its comma into the two bracketed halves, and the
      second half at its space into the revision and the keyword. */
  lemma RenderPieces(d: Directive)
    ensures Split(Render(d), ',') == [Bracket(First(d)), Join([Bracket(d.rev), Keyword(d)], ' ')]
    ensures Split(Join([Bracket(d.rev), Keyword(d)], ' '), ' ') == [Bracket(d.rev), Keyword(d)]
    ensures Render(d) == Bracket(First(d)) + [','] + (Bracket(d.rev) + [' '] + Keyword(d))
  {
    var a, b, kw := Bracket(First(d)), Bracket(d.rev), Keyword(d);
    BracketRoundTrip(First(d));
    BracketRoundTrip(d.rev);
    KeywordChars(d);
    var second := Join([b, kw], ' ');
    assert second == b + [' '] + kw;
    SplitJoin([b, kw], ' ');
    assert ',' !in second;
    SplitJoin([a, second], ',');
  }

  /** Every directive reads back from its line. */
  lemma ParseRender(d: Directive)
    ensures Parse(Render(d)) == Some(d)
  {
    RenderPieces(d);
    BracketRoundTrip(First(d));
    BracketRoundTrip(d.rev);
    assert "reparent" != "merge";
  }

  /** No line holds a newline, so the lines of the stream stay apart. */
  lemma RenderOneLine(d: Directive)
    ensures '\n' !in Render(d)
  {
    BracketRoundTrip(First(d));
    BracketRoundTrip(d.rev);
    KeywordChars(d);
    RenderPieces(d);
  }

  function RenderAll(ds: seq<Directive>): (lines: seq<string>)
    ensures |lines| == |ds|
    ensures forall k :: 0 <= k < |ds| ==> lines[k] == Render(ds[k])
  {
    if ds == [] then [] else [Render(ds[0])] + RenderAll(ds[1..])
  }

  /** The whole stream: every line followed by a newline. */
  function Stream(ds: seq<Directive>): string
  {
    Join(RenderAll(ds) + [""], '\n')
  }

  function ParseLines(lines: seq<string>): (r: Option<seq<Directive>>)
    ensures r.Some? ==> |r.value| == |lines|
  {
    if lines == [] then Some([])
    else
      match (Parse(lines[0]), ParseLines(lines[1..]))
      case (Some(d), Some(ds)) => Some([d] + ds)
      case _ => None
  }

  function ParseStream(s: string): Option<seq<Directive>>
  {
    var lines := Split(s, '\n');
    if lines[|lines| - 1] != "" then None else ParseLines(lines[..|lines| - 1])
  }

  lemma {:induction false} ParseLinesRender(ds: seq<Directive>)
    ensures ParseLines(RenderAll(ds)) == Some(ds)
  {
    if ds != [] {
      ParseRender(ds[0]);
      ParseLinesRender(ds[1..]);
      assert RenderAll(ds) == [Render(ds[0])] + RenderAll(ds[1..]);
      assert ds == [ds[0]] + ds[1..];
    }
  }

  /** The printed stream reads back as the directives, in order. */
  lemma ParseStreamRender(ds: seq<Directive>)
    ensures ParseStream(Stream(ds)) == Some(ds)
  {
    var lines := RenderAll(ds) + [""];
    forall k | 0 <= k < |lines| ensures '\n' !in lines[k] {
      if k < |ds| {
        RenderOneLine(ds[k]);
      }
    }
    SplitJoin(lines, '\n');
    assert lines[..|lines| - 1] == RenderAll(ds);
    ParseLinesRender(ds);
  }
}
