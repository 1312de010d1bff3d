/** The tag-rule parser of ray/ci/pipeline/determine_tests_to_run.py. */
module TagParser {
  import opened Seqs
  import opened Text

  // ----- Lines -----

  /** Characters at which `str.splitlines` breaks. */
  predicate IsBreak(c: char) {
    || '\n' <= c <= '\r' || '\U{1c}' <= c <= '\U{1e}' || c == '\U{85}' || c == '\U{2028}' || c == '\U{2029}'
  }

  lemma BreaksAreSpaces(c: char)
    ensures IsBreak(c) ==> IsSpace(c)
  {}

  predicate NoBreaks(s: string) {
    forall i :: 0 <= i < |s| ==> !IsBreak(s[i])
  }

  function LineLen(s: string): (n: nat)
    ensures n <= |s|
    ensures NoBreaks(s[..n])
    ensures n < |s| ==> IsBreak(s[n])
  {
    if s == "" || IsBreak(s[0]) then 0 else 1 + LineLen(s[1..])
  }

  /** What is left after the first line and its line break; "\r\n" is one break. */
  function AfterLine(s: string): (r: string)
    ensures s != "" ==> |r| < |s|
  {
    var n := LineLen(s);
    if n + 1 < |s| && s[n] == '\r' && s[n + 1] == '\n' then s[n + 2..]
    else if n < |s| then s[n + 1..]
    else ""
  }

  function SplitLines(s: string): seq<string>
    decreases |s|
  {
    if s == "" then [] else [s[..LineLen(s)]] + SplitLines(AfterLine(s))
  }

  /** Every line ended by a newline. */
  function JoinLines(lines: seq<string>): string {
    if lines == [] then "" else lines[0] + ("\n" + JoinLines(lines[1..]))
  }

  lemma {:induction false} LineLenAtBreak(line: string, rest: string)
    requires NoBreaks(line) && rest != "" && IsBreak(rest[0])
    ensures LineLen(line + rest) == |line|
  {
    if line == "" {
      assert line + rest == rest;
    } else {
      assert (line + rest)[1..] == line[1..] + rest;
      LineLenAtBreak(line[1..], rest);
    }
  }

  ghost predicate AllUnbroken(lines: seq<string>) {
    forall i :: 0 <= i < |lines| ==> NoBreaks(lines[i])
  }

  lemma {:induction false} SplitJoinedLines(lines: seq<string>)
    requires AllUnbroken(lines)
    ensures SplitLines(JoinLines(lines)) == lines
  {
    if lines != [] {
      var rest := "\n" + JoinLines(lines[1..]);
      var s := lines[0] + rest;
      SplitJoinedLines(lines[1..]);
      LineLenAtBreak(lines[0], rest);
      assert s[|lines[0]|] == '\n';
      assert s[..|lines[0]|] == lines[0] && s[|lines[0]| + 1..] == JoinLines(lines[1..]);
    }
  }

  lemma {:induction false} SplitLinesUnbroken(s: string)
    ensures AllUnbroken(SplitLines(s))
    decreases |s|
  {
    if s != "" {
      SplitLinesUnbroken(AfterLine(s));
    }
  }

  /** A line without comment and surrounding whitespace, following the source's two steps; "" is skipped. */
  function CodeLine(line: string): string {
    var l := Strip(line);
    if l == "" || l[0] == '#' then "" else Strip(Cut(l, '#'))
  }

  // ----- Parsing -----

  /** What a rule says, apart from the line it ended on. */
  datatype Body = Body(tags: set<string>, dirs: seq<string>, files: seq<string>, patterns: seq<string>)

  const NOTHING := Body({}, [], [], [])

  datatype TagRule = TagRule(body: Body, lineno: nat)

  datatype ParseError = LateTagDeclaration | TokensAfterSemicolon
  datatype State = State(defs: set<string>, ended: bool, current: Body, rules: seq<TagRule>) | Failed(error: ParseError)

  const START := State({}, false, NOTHING, [])

  /** A path line adds a pattern, a directory or a file to the current rule. */
  function AddPath(b: Body, l: string): Body
    requires l != ""
  {
    if '*' in l then b.(patterns := b.patterns + [l])
    else if l[|l| - 1] == '/' then b.(dirs := b.dirs + [l[..|l| - 1]])
    else b.(files := b.files + [l])
  }

  /** One line of code, already cleaned, on line number `lineno`. */
  function Handle(st: State, l: string, lineno: nat): State
    requires st.State? && l != ""
  {
    if l[0] == '!' then
      if st.ended then Failed(LateTagDeclaration)
      else st.(defs := st.defs + Elements(Split(l[1..])))
    else
      var st' := st.(ended := true);
      if l[0] == '@' then st'.(current := st.current.(tags := st.current.tags + Elements(Split(l[1..]))))
      else if l[0] == ';' then
        if l != ";" then Failed(TokensAfterSemicolon)
        else st'.(rules := st.rules + [TagRule(st.current, lineno)], current := NOTHING)
      else st'.(current := AddPath(st.current, l))
  }

  function Step(st: State, line: string, lineno: nat): State {
    var l := CodeLine(line);
    if st.Failed? || l == "" then st else Handle(st, l, lineno)
  }

  /** The state after the given lines, numbered from one. */
  function ParseLines(lines: seq<string>): State {
    if lines == [] then START else Step(ParseLines(lines[..|lines| - 1]), lines[|lines| - 1], |lines|)
  }

  /** The last rule needs no semicolon. */
  function Finish(st: State, lineno: nat): State {
    if st.Failed? || st.current == NOTHING then st
    else st.(rules := st.rules + [TagRule(st.current, lineno)], current := NOTHING)
  }

  function Parse(content: string): State {
    var lines := SplitLines(content);
    Finish(ParseLines(lines), |lines|)
  }

  /** The line loop of `_parse_rules`. */
  method ParseRules(content: string) returns (r: State)
    ensures r == Parse(content)
  {
    var lines := SplitLines(content);
    r := ScanLines(lines);
    r := Finish(r, |lines|);
  }

  method ScanLines(lines: seq<string>) returns (st: State)
    ensures st == ParseLines(lines)
  {
    st := START;
    for i := 0 to |lines|
      invariant st == ParseLines(lines[..i])
    {
      assert lines[..i + 1][..i] == lines[..i];
      st := Step(st, lines[i], i + 1);
      if st.Failed? {
        StaysFailed(lines, i + 1);
        return;
      }
    }
    assert lines[..|lines|] == lines;
  }

  lemma {:induction false} StaysFailed(lines: seq<string>, i: nat)
    requires i <= |lines| && ParseLines(lines[..i]).Failed?
    ensures ParseLines(lines) == ParseLines(lines[..i])
    decreases |lines| - i
  {
    if i == |lines| {
      assert lines[..i] == lines;
    } else {
      assert lines[..i + 1][..i] == lines[..i];
      StaysFailed(lines, i + 1);
    }
  }

  // ----- Comments, blank lines and line numbers do not matter -----

  function BodyOf(r: TagRule): Body { r.body }

  /** A parse without line numbers. */
  datatype View = View(defs: set<string>, ended: bool, current: Body, rules: seq<Body>) | Rejected(error: ParseError)

  function ViewOf(st: State): View {
    match st
    case State(defs, ended, current, rules) => View(defs, ended, current, Map(BodyOf, rules))
    case Failed(e) => Rejected(e)
  }

  function HandleView(v: View, l: string): View
    requires l != ""
  {
    if v.Rejected? then v
    else if l[0] == '!' then
      if v.ended then Rejected(LateTagDeclaration) else v.(defs := v.defs + Elements(Split(l[1..])))
    else
      var v' := v.(ended := true);
      if l[0] == '@' then v'.(current := v.current.(tags := v.current.tags + Elements(Split(l[1..]))))
      else if l[0] == ';' then
        if l != ";" then Rejected(TokensAfterSemicolon) else v'.(rules := v.rules + [v.current], current := NOTHING)
      else v'.(current := AddPath(v.current, l))
  }

  /** A line's code, if it has any. */
  function CodeOf(line: string): seq<string> {
    var l := CodeLine(line);
    if l == "" then [] else [l]
  }

  /** The lines of code of a file. */
  function Core(lines: seq<string>): seq<string> {
    Concat(Map(CodeOf, lines))
  }

  ghost predicate NoneEmpty(core: seq<string>) {
    forall i :: 0 <= i < |core| ==> core[i] != ""
  }

  ghost function RunCore(v: View, core: seq<string>): View
    requires NoneEmpty(core)
    decreases |core|
  {
    if core == [] then v else RunCore(HandleView(v, core[0]), core[1..])
  }

  lemma {:induction false} CoreSnoc(lines: seq<string>, x: string)
    ensures Core(lines + [x]) == Core(lines) + CodeOf(x)
  {
    MapAppend(CodeOf, lines, [x]);
    ConcatSnoc(Map(CodeOf, lines), CodeOf(x));
    assert Map(CodeOf, [x]) == [CodeOf(x)];
  }

  lemma {:induction false} CoreLast(lines: seq<string>)
    requires lines != []
    ensures Core(lines) == Core(lines[..|lines| - 1]) + CodeOf(lines[|lines| - 1])
  {
    CoreSnoc(lines[..|lines| - 1], lines[|lines| - 1]);
    assert lines == lines[..|lines| - 1] + [lines[|lines| - 1]];
  }

  lemma {:induction false} CoreNoneEmpty(lines: seq<string>)
    ensures NoneEmpty(Core(lines))
  {
    if lines != [] {
      CoreNoneEmpty(lines[..|lines| - 1]);
      CoreLast(lines);
    }
  }

  lemma {:induction false} RunCoreAppend(v: View, a: seq<string>, b: seq<string>)
    requires NoneEmpty(a) && NoneEmpty(b)
    ensures RunCore(v, a + b) == RunCore(RunCore(v, a), b)
    decreases |a|
  {
    if a == [] {
      assert a + b == b;
    } else {
      assert (a + b)[1..] == a[1..] + b;
      RunCoreAppend(HandleView(v, a[0]), a[1..], b);
    }
  }

  lemma {:induction false} RunCoreOne(v: View, l: string)
    requires l != ""
    ensures RunCore(v, [l]) == HandleView(v, l)
  {
    assert [l][1..] == [];
  }

  lemma {:induction false} HandleIsView(st: State, l: string, lineno: nat)
    requires st.State? && l != ""
    ensures ViewOf(Handle(st, l, lineno)) == HandleView(ViewOf(st), l)
  {
    MapAppend(BodyOf, st.rules, [TagRule(st.current, lineno)]);
  }

  lemma {:induction false} StepIsView(st: State, x: string, lineno: nat, start: View, core: seq<string>)
    requires NoneEmpty(core) && ViewOf(st) == RunCore(start, core)
    ensures NoneEmpty(core + CodeOf(x)) && ViewOf(Step(st, x, lineno)) == RunCore(start, core + CodeOf(x))
  {
    var l := CodeLine(x);
    if l == "" {
      assert core + [] == core;
    } else {
      RunCoreAppend(start, core, [l]);
      RunCoreOne(ViewOf(st), l);
      if st.State? { HandleIsView(st, l, lineno); }
    }
  }

  /** Without line numbers, a parse depends on the lines of code alone. */
  lemma {:induction false} ParseIsCore(lines: seq<string>)
    ensures NoneEmpty(Core(lines)) && ViewOf(ParseLines(lines)) == RunCore(ViewOf(START), Core(lines))
  {
    CoreNoneEmpty(lines);
    if lines != [] {
      var init, x := lines[..|lines| - 1], lines[|lines| - 1];
      ParseIsCore(init);
      CoreLast(lines);
      StepIsView(ParseLines(init), x, |lines|, ViewOf(START), Core(init));
    }
  }

  function FinishView(v: View): View {
    if v.Rejected? || v.current == NOTHING then v else v.(rules := v.rules + [v.current], current := NOTHING)
  }

  lemma {:induction false} FinishIsView(st: State, lineno: nat)
    ensures ViewOf(Finish(st, lineno)) == FinishView(ViewOf(st))
  {
    if st.State? {
      MapAppend(BodyOf, st.rules, [TagRule(st.current, lineno)]);
    }
  }

  /**
   * Inserting or removing blank lines, comment lines, trailing comments or surrounding whitespace changes
   * nothing but line numbers: files with the same lines of code parse alike, errors included.
   */
  lemma {:induction false} NoiseInvariance(a: string, b: string)
    requires Core(SplitLines(a)) == Core(SplitLines(b))
    ensures ViewOf(Parse(a)) == ViewOf(Parse(b))
  {
    ParseIsCore(SplitLines(a));
    ParseIsCore(SplitLines(b));
    FinishIsView(ParseLines(SplitLines(a)), |SplitLines(a)|);
    FinishIsView(ParseLines(SplitLines(b)), |SplitLines(b)|);
  }

  // ----- What counts as noise -----

  lemma {:induction false} LStripCut(s: string)
    ensures LStrip(Cut(s, '#')) == Cut(LStrip(s), '#')
  {
    if s != "" && IsSpace(s[0]) {
      LStripCut(s[1..]);
      assert Cut(s, '#')[1..] == Cut(s[1..], '#');
    }
  }

  lemma {:induction false} CutSnoc(s: string, c: char)
    requires IsSpace(c)
    ensures RStrip(Cut(s + [c], '#')) == RStrip(Cut(s, '#'))
  {
    if '#' in s {
      CutAppend(s, [c]);
    } else {
      CutAbsent(s);
      CutAbsent(s + [c]);
      assert (s + [c])[..|s|] == s;
    }
  }

  lemma {:induction false} CutAbsent(s: string)
    requires '#' !in s
    ensures Cut(s, '#') == s
  {
    if s != "" {
      CutAbsent(s[1..]);
      assert s == [s[0]] + s[1..];
    }
  }

  /** Text after a comment sign is never read. */
  lemma {:induction false} CutAppend(s: string, x: string)
    requires '#' in s
    ensures Cut(s + x, '#') == Cut(s, '#')
  {
    if s[0] != '#' {
      assert (s + x)[1..] == s[1..] + x;
      CutAppend(s[1..], x);
    }
  }

  lemma {:induction false} RStripCut(t: string)
    ensures RStrip(Cut(RStrip(t), '#')) == RStrip(Cut(t, '#'))
  {
    if t != "" && IsSpace(t[|t| - 1]) {
      RStripCut(t[..|t| - 1]);
      CutSnoc(t[..|t| - 1], t[|t| - 1]);
      assert t == t[..|t| - 1] + [t[|t| - 1]];
    }
  }

  /** A trailing comment adds nothing to a line, and a line that is only a comment or blank has no code. */
  lemma {:induction false} CommentIsNoise(line: string, comment: string)
    ensures CodeOf(line + ("#" + comment)) == CodeOf(line)
    ensures (forall i :: 0 <= i < |line| ==> IsSpace(line[i])) ==> CodeOf(line) == []
  {
    CodeLineIsCut(line);
    CodeLineIsCut(line + ("#" + comment));
    if '#' in line {
      CutAppend(line, "#" + comment);
    } else {
      CutAbsent(line);
      CutAtSign(line, comment);
    }
    if forall i :: 0 <= i < |line| ==> IsSpace(line[i]) {
      LStripBlank(line);
    }
  }

  lemma {:induction false} CutAtSign(s: string, x: string)
    requires '#' !in s
    ensures Cut(s + ("#" + x), '#') == s
  {
    if s != "" {
      CutAtSign(s[1..], x);
      assert (s + ("#" + x))[1..] == s[1..] + ("#" + x);
      assert s == [s[0]] + s[1..];
    }
  }

  lemma {:induction false} LStripBlank(s: string)
    requires forall i :: 0 <= i < |s| ==> IsSpace(s[i])
    ensures LStrip(s) == ""
  {
    if s != "" { LStripBlank(s[1..]); }
  }

  /** Inserting a line without code leaves the lines of code as they were. */
  lemma {:induction false} InsertNoise(a: seq<string>, line: string, b: seq<string>)
    requires CodeOf(line) == []
    ensures Core(a + [line] + b) == Core(a + b)
  {
    MapAppend(CodeOf, a + [line], b);
    MapAppend(CodeOf, a, b);
    ConcatAppend(Map(CodeOf, a + [line]), Map(CodeOf, b));
    ConcatAppend(Map(CodeOf, a), Map(CodeOf, b));
    CoreSnoc(a, line);
    assert Core(a) + [] == Core(a);
  }

  /** The source's strip, test and cut amount to cutting the comment and stripping. */
  lemma {:induction false} CodeLineIsCut(line: string)
    ensures CodeLine(line) == Strip(Cut(line, '#'))
  {
    var t := LStrip(line);
    var l := RStrip(t);
    LStripCut(line);
    RStripCut(t);
    StripStrips(line);
    if l != "" && l[0] != '#' {
      LStripCut(l);
    }
  }

  lemma {:induction false} LineEndsAt(line: string, b: char, rest: string)
    requires NoBreaks(line) && IsBreak(b) && !(b == '\r' && rest != "" && rest[0] == '\n')
    ensures SplitLines(line + ([b] + rest)) == [line] + SplitLines(rest)
  {
    var s := line + ([b] + rest);
    LineLenAtBreak(line, [b] + rest);
    assert s[|line|] == b && s[..|line|] == line && s[|line| + 1..] == rest;
    if |line| + 1 < |s| { assert s[|line| + 1] == rest[0]; }
    assert AfterLine(s) == rest;
  }

  lemma {:induction false} LineEndsTwice(line: string, rest: string)
    requires NoBreaks(line)
    ensures SplitLines(line + ("\r\n" + rest)) == [line] + SplitLines(rest)
  {
    var t := line + ("\r\n" + rest);
    LineLenAtBreak(line, "\r\n" + rest);
    assert t[|line|] == '\r' && t[|line| + 1] == '\n' && t[..|line|] == line && t[|line| + 2..] == rest;
    assert AfterLine(t) == rest;
  }

  lemma {:induction false} LastLine(line: string)
    requires NoBreaks(line) && line != ""
    ensures SplitLines(line) == [line]
  {
    assert LineLen(line) == |line| && line[..|line|] == line;
    assert SplitLines(AfterLine(line)) == [];
  }

  /** Each line break ends a line, and a carriage return followed by a newline is one break. */
  lemma {:induction false} LineEnds(line: string, b: char, rest: string)
    requires NoBreaks(line) && IsBreak(b)
    ensures !(b == '\r' && rest != "" && rest[0] == '\n') ==>
              SplitLines(line + ([b] + rest)) == [line] + SplitLines(rest)
    ensures SplitLines(line + ("\r\n" + rest)) == [line] + SplitLines(rest)
    ensures line != "" ==> SplitLines(line) == [line]
  {
    if !(b == '\r' && rest != "" && rest[0] == '\n') { LineEndsAt(line, b, rest); }
    LineEndsTwice(line, rest);
    if line != "" { LastLine(line); }
  }
}
