/** A canonical printer for tag rules, and the round trips between it and the parser. */
module TagPrinter {
  import opened Seqs
  import opened Text
  import opened TagParser

  // ----- Well-formed declarations and rules -----

  /** A line that reads as itself: no comment, no surrounding whitespace, no line break. */
  ghost predicate Plain(l: string) {
    l != "" && Stripped(l) && '#' !in l && NoBreaks(l)
  }

  ghost predicate WfTag(w: string) {
    IsWord(w) && '#' !in w
  }

  predicate Marked(l: string)
    requires l != ""
  {
    l[0] == '!' || l[0] == '@' || l[0] == ';'
  }

  ghost predicate WfPath(l: string) {
    Plain(l) && !Marked(l)
  }

  ghost predicate WfDir(d: string) {
    WfPath(d + "/") && '*' !in d
  }

  ghost predicate WfFile(f: string) {
    WfPath(f) && '*' !in f && f[|f| - 1] != '/'
  }

  ghost predicate WfPattern(p: string) {
    WfPath(p) && '*' in p
  }

  ghost predicate WfTags(tags: set<string>) {
    forall w :: w in tags ==> WfTag(w)
  }

  ghost predicate WfBody(b: Body) {
    && WfTags(b.tags)
    && (forall i :: 0 <= i < |b.dirs| ==> WfDir(b.dirs[i]))
    && (forall i :: 0 <= i < |b.files| ==> WfFile(b.files[i]))
    && (forall i :: 0 <= i < |b.patterns| ==> WfPattern(b.patterns[i]))
  }

  ghost predicate WfBodies(bs: seq<Body>) {
    forall i :: 0 <= i < |bs| ==> WfBody(bs[i])
  }

  // ----- Parsing yields well-formed results -----

  lemma {:induction false} LStripKeeps(s: string)
    ensures NoBreaks(s) ==> NoBreaks(LStrip(s))
    ensures '#' !in s ==> '#' !in LStrip(s)
  {
    if s != "" && IsSpace(s[0]) {
      LStripKeeps(s[1..]);
    }
  }

  lemma {:induction false} RStripKeeps(s: string)
    ensures NoBreaks(s) ==> NoBreaks(RStrip(s))
    ensures '#' !in s ==> '#' !in RStrip(s)
  {
    if s != "" && IsSpace(s[|s| - 1]) {
      RStripKeeps(s[..|s| - 1]);
    }
  }

  lemma {:induction false} CutKeeps(s: string)
    ensures '#' !in Cut(s, '#')
    ensures NoBreaks(s) ==> NoBreaks(Cut(s, '#'))
  {
    if s != "" && s[0] != '#' {
      CutKeeps(s[1..]);
    }
  }

  /** Whatever the source keeps of a line is plain, and a plain line is kept as it is. */
  lemma {:induction false} CodeIsPlain(line: string)
    requires NoBreaks(line)
    ensures CodeLine(line) != "" ==> Plain(CodeLine(line))
    ensures Plain(line) ==> CodeLine(line) == line
  {
    var c := Cut(line, '#');
    CodeLineIsCut(line);
    CutKeeps(line);
    LStripKeeps(c);
    RStripKeeps(LStrip(c));
    StripStrips(c);
    if Plain(line) {
      CutAbsent(line);
      StripOfStripped(line);
    }
  }

  lemma {:induction false} SplitKeeps(s: string)
    requires '#' !in s
    ensures forall i :: 0 <= i < |Split(s)| ==> '#' !in Split(s)[i]
    decreases |s|
  {
    var t := LStrip(s);
    LStripKeeps(s);
    if t != "" {
      SplitKeeps(t[WordLen(t)..]);
    }
  }

  lemma {:induction false} SplitWellFormed(s: string)
    requires '#' !in s
    ensures WfTags(Elements(Split(s)))
  {
    SplitGivesWords(s);
    SplitKeeps(s);
    forall w | w in Elements(Split(s)) ensures WfTag(w) {
      var i :| 0 <= i < |Split(s)| && Split(s)[i] == w;
    }
  }

  ghost predicate WfView(v: View) {
    v.View? ==> WfTags(v.defs) && WfBody(v.current) && WfBodies(v.rules)
  }

  lemma {:induction false} AddPathWellFormed(b: Body, l: string)
    requires WfBody(b) && WfPath(l)
    ensures WfBody(AddPath(b, l))
  {
    if '*' !in l && l[|l| - 1] == '/' {
      assert l[..|l| - 1] + "/" == l;
    }
  }

  lemma {:induction false} HandleWellFormed(v: View, l: string)
    requires WfView(v) && Plain(l)
    ensures WfView(HandleView(v, l))
  {
    if v.View? {
      if l[0] == '!' || l[0] == '@' {
        SplitWellFormed(l[1..]);
      } else if l[0] != ';' {
        AddPathWellFormed(v.current, l);
      }
    }
  }

  ghost predicate AllPlain(core: seq<string>) {
    forall i :: 0 <= i < |core| ==> Plain(core[i])
  }

  lemma {:induction false} RunWellFormed(v: View, core: seq<string>)
    requires WfView(v) && AllPlain(core)
    ensures NoneEmpty(core) && WfView(RunCore(v, core))
    decreases |core|
  {
    if core != [] {
      HandleWellFormed(v, core[0]);
      RunWellFormed(HandleView(v, core[0]), core[1..]);
    }
  }

  lemma {:induction false} CorePlain(lines: seq<string>)
    requires AllUnbroken(lines)
    ensures AllPlain(Core(lines))
  {
    if lines != [] {
      CorePlain(lines[..|lines| - 1]);
      CoreLast(lines);
      CodeIsPlain(lines[|lines| - 1]);
    }
  }

  /** Every successful parse gives well-formed declarations and rules. */
  lemma {:induction false} ParseWellFormed(content: string)
    ensures WfView(ViewOf(Parse(content)))
  {
    var lines := SplitLines(content);
    SplitLinesUnbroken(content);
    CorePlain(lines);
    ParseIsCore(lines);
    RunWellFormed(ViewOf(START), Core(lines));
    FinishIsView(ParseLines(lines), |lines|);
  }

  // ----- Printing -----

  /** Some listing of a set. */
  ghost function Listing(s: set<string>): seq<string> {
    if s == {} then [] else var x :| x in s; [x] + Listing(s - {x})
  }

  lemma {:induction false} ListingElements(s: set<string>)
    ensures Elements(Listing(s)) == s
  {
    if s != {} {
      var x :| x in s && Listing(s) == [x] + Listing(s - {x});
      ListingElements(s - {x});
      assert Elements([x] + Listing(s - {x})) == {x} + Elements(Listing(s - {x}));
    }
  }

  /** A declaration or tag line. */
  function WordLine(mark: char, words: seq<string>): string {
    [mark] + (" " + Join(words))
  }

  /** No line at all for an empty set. */
  ghost function TagLines(mark: char, tags: set<string>): seq<string> {
    if tags == {} then [] else [WordLine(mark, Listing(tags))]
  }

  function DirLine(d: string): string { d + "/" }

  ghost function PrintBody(b: Body): seq<string> {
    Map(DirLine, b.dirs) + b.files + b.patterns + TagLines('@', b.tags) + [";"]
  }

  ghost function PrintBodies(bs: seq<Body>): seq<string> {
    if bs == [] then [] else PrintBodies(bs[..|bs| - 1]) + PrintBody(bs[|bs| - 1])
  }

  ghost function Print(defs: set<string>, bs: seq<Body>): seq<string> {
    TagLines('!', defs) + PrintBodies(bs)
  }

  // ----- Reading back what was printed -----

  ghost predicate WfWords(ws: seq<string>) {
    forall i :: 0 <= i < |ws| ==> WfTag(ws[i])
  }

  lemma {:induction false} WordChars(w: string)
    requires WfTag(w)
    ensures NoBreaks(w) && !IsSpace(w[|w| - 1])
  {
    forall i | 0 <= i < |w| ensures !IsBreak(w[i]) { BreaksAreSpaces(w[i]); }
  }

  lemma {:induction false} JoinPlain(ws: seq<string>)
    requires ws != [] && WfWords(ws)
    ensures Join(ws) != "" && !IsSpace(Join(ws)[|Join(ws)| - 1]) && '#' !in Join(ws) && NoBreaks(Join(ws))
  {
    WordChars(ws[0]);
    if |ws| > 1 {
      JoinPlain(ws[1..]);
    }
  }

  lemma {:induction false} WordLinePlain(mark: char, ws: seq<string>)
    requires ws != [] && WfWords(ws) && (mark == '!' || mark == '@')
    ensures Plain(WordLine(mark, ws)) && Split(WordLine(mark, ws)[1..]) == ws
  {
    JoinPlain(ws);
    MarkedPlain(mark, Join(ws));
    SplitJoin(ws);
    SplitSpace(Join(ws));
    assert WordLine(mark, ws)[1..] == " " + Join(ws);
  }

  lemma {:induction false} MarkedPlain(mark: char, text: string)
    requires text != "" && !IsSpace(text[|text| - 1]) && '#' !in text && NoBreaks(text) && (mark == '!' || mark == '@')
    ensures Plain([mark] + (" " + text))
  {
    var line := [mark] + (" " + text);
    assert line[|line| - 1] == text[|text| - 1];
    forall i | 0 <= i < |line| ensures line[i] != '#' && !IsBreak(line[i]) {
      if i > 1 { assert line[i] == text[i - 2]; }
    }
  }

  lemma {:induction false} ListingWords(tags: set<string>)
    requires WfTags(tags) && tags != {}
    ensures WfWords(Listing(tags)) && Listing(tags) != []
  {
    ListingElements(tags);
    forall i | 0 <= i < |Listing(tags)| ensures WfTag(Listing(tags)[i]) {
      assert Listing(tags)[i] in Elements(Listing(tags));
    }
  }

  lemma {:induction false} ReadDefs(defs: set<string>)
    requires WfTags(defs)
    ensures AllPlain(TagLines('!', defs)) && NoneEmpty(TagLines('!', defs))
    ensures RunCore(ViewOf(START), TagLines('!', defs)) == View(defs, false, NOTHING, [])
  {
    if defs != {} {
      ListingWords(defs);
      WordLinePlain('!', Listing(defs));
      ListingElements(defs);
      RunCoreOne(ViewOf(START), WordLine('!', Listing(defs)));
    }
  }

  lemma {:induction false} ReadTags(v: View, tags: set<string>)
    requires v.View? && v.current.tags == {} && WfTags(tags)
    ensures AllPlain(TagLines('@', tags)) && NoneEmpty(TagLines('@', tags))
    ensures RunCore(v, TagLines('@', tags))
         == v.(ended := v.ended || tags != {}, current := v.current.(tags := tags))
  {
    if tags != {} {
      ListingWords(tags);
      WordLinePlain('@', Listing(tags));
      ListingElements(tags);
      RunCoreOne(v, WordLine('@', Listing(tags)));
    }
  }

  /** Path lines added one after the other. */
  ghost function AddPaths(b: Body, lines: seq<string>): Body
    requires NoneEmpty(lines)
    decreases |lines|
  {
    if lines == [] then b else AddPaths(AddPath(b, lines[0]), lines[1..])
  }

  ghost predicate AllPaths(lines: seq<string>) {
    forall i :: 0 <= i < |lines| ==> WfPath(lines[i])
  }

  lemma {:induction false} ReadPaths(v: View, lines: seq<string>)
    requires v.View? && AllPaths(lines)
    ensures NoneEmpty(lines) && AllPlain(lines)
    ensures RunCore(v, lines) == v.(ended := v.ended || lines != [], current := AddPaths(v.current, lines))
    decreases |lines|
  {
    if lines != [] {
      ReadPaths(HandleView(v, lines[0]), lines[1..]);
    }
  }

  lemma {:induction false} ReadDir(b: Body, d: string)
    requires WfDir(d)
    ensures AddPath(b, DirLine(d)) == b.(dirs := b.dirs + [d])
  {
    assert DirLine(d)[..|d|] == d && '*' !in DirLine(d);
  }

  lemma AddPathsCons(b: Body, lines: seq<string>)
    requires lines != [] && NoneEmpty(lines)
    ensures AddPaths(b, lines) == AddPaths(AddPath(b, lines[0]), lines[1..])
  {}

  lemma DirLinesArePaths(dirs: seq<string>)
    requires forall i :: 0 <= i < |dirs| ==> WfDir(dirs[i])
    ensures AllPaths(Map(DirLine, dirs)) && NoneEmpty(Map(DirLine, dirs))
  {}

  lemma AppendRest(a: seq<string>, b: seq<string>)
    requires b != []
    ensures a + [b[0]] + b[1..] == a + b
  {}

  lemma {:induction false} ReadFirstDir(b: Body, dirs: seq<string>)
    requires dirs != [] && forall i :: 0 <= i < |dirs| ==> WfDir(dirs[i])
    ensures NoneEmpty(Map(DirLine, dirs)) && NoneEmpty(Map(DirLine, dirs[1..]))
    ensures AddPaths(b, Map(DirLine, dirs)) == AddPaths(b.(dirs := b.dirs + [dirs[0]]), Map(DirLine, dirs[1..]))
  {
    DirLinesArePaths(dirs);
    DirLinesArePaths(dirs[1..]);
    ReadDir(b, dirs[0]);
    AddPathsCons(b, Map(DirLine, dirs));
    assert Map(DirLine, dirs)[1..] == Map(DirLine, dirs[1..]);
  }

  lemma {:induction false} ReadDirs(b: Body, dirs: seq<string>)
    requires forall i :: 0 <= i < |dirs| ==> WfDir(dirs[i])
    ensures AllPaths(Map(DirLine, dirs)) && NoneEmpty(Map(DirLine, dirs))
    ensures AddPaths(b, Map(DirLine, dirs)) == b.(dirs := b.dirs + dirs)
    decreases |dirs|
  {
    DirLinesArePaths(dirs);
    if dirs == [] {
      assert b.dirs + [] == b.dirs;
    } else {
      ReadFirstDir(b, dirs);
      ReadDirs(b.(dirs := b.dirs + [dirs[0]]), dirs[1..]);
      AppendRest(b.dirs, dirs);
    }
  }

  lemma {:induction false} ReadFiles(b: Body, files: seq<string>)
    requires forall i :: 0 <= i < |files| ==> WfFile(files[i])
    ensures AllPaths(files) && AddPaths(b, files) == b.(files := b.files + files)
    decreases |files|
  {
    if files == [] {
      assert b.files + [] == b.files;
    } else {
      ReadFiles(b.(files := b.files + [files[0]]), files[1..]);
      assert b.files + [files[0]] + files[1..] == b.files + files;
    }
  }

  lemma {:induction false} ReadPatterns(b: Body, patterns: seq<string>)
    requires forall i :: 0 <= i < |patterns| ==> WfPattern(patterns[i])
    ensures AllPaths(patterns) && AddPaths(b, patterns) == b.(patterns := b.patterns + patterns)
    decreases |patterns|
  {
    if patterns == [] {
      assert b.patterns + [] == b.patterns;
    } else {
      ReadPatterns(b.(patterns := b.patterns + [patterns[0]]), patterns[1..]);
      assert b.patterns + [patterns[0]] + patterns[1..] == b.patterns + patterns;
    }
  }

  ghost function PathLines(b: Body): seq<string> {
    Map(DirLine, b.dirs) + b.files + b.patterns
  }

  lemma {:induction false} AddThree(b: Body, d: seq<string>, f: seq<string>, p: seq<string>, b1: Body, b2: Body)
    requires NoneEmpty(d) && NoneEmpty(f) && NoneEmpty(p) && AddPaths(b, d) == b1 && AddPaths(b1, f) == b2
    ensures NoneEmpty(d + f + p) && AddPaths(b, d + f + p) == AddPaths(b2, p)
  {
    AddPathsAppend(b, d, f);
    AddPathsAppend(b, d + f, p);
  }

  lemma {:induction false} AddDirsOnly(dirs: seq<string>)
    requires forall i :: 0 <= i < |dirs| ==> WfDir(dirs[i])
    ensures NoneEmpty(Map(DirLine, dirs)) && AddPaths(NOTHING, Map(DirLine, dirs)) == Body({}, dirs, [], [])
  {
    ReadDirs(NOTHING, dirs);
    assert [] + dirs == dirs;
  }

  lemma {:induction false} AddFilesOnly(dirs: seq<string>, files: seq<string>)
    requires forall i :: 0 <= i < |files| ==> WfFile(files[i])
    ensures NoneEmpty(files) && AddPaths(Body({}, dirs, [], []), files) == Body({}, dirs, files, [])
  {
    ReadFiles(Body({}, dirs, [], []), files);
    assert [] + files == files;
  }

  lemma {:induction false} AddPatternsOnly(dirs: seq<string>, files: seq<string>, patterns: seq<string>)
    requires forall i :: 0 <= i < |patterns| ==> WfPattern(patterns[i])
    ensures NoneEmpty(patterns) && AddPaths(Body({}, dirs, files, []), patterns) == Body({}, dirs, files, patterns)
  {
    ReadPatterns(Body({}, dirs, files, []), patterns);
    assert [] + patterns == patterns;
  }

  lemma {:induction false} PathLinesArePaths(b: Body)
    requires WfBody(b)
    ensures AllPaths(PathLines(b))
  {
    DirLinesArePaths(b.dirs);
    ReadFiles(NOTHING, b.files);
    ReadPatterns(NOTHING, b.patterns);
  }

  lemma {:induction false} AddBody(b: Body)
    requires WfBody(b)
    ensures NoneEmpty(PathLines(b)) && AddPaths(NOTHING, PathLines(b)) == Body({}, b.dirs, b.files, b.patterns)
  {
    AddDirsOnly(b.dirs);
    AddFilesOnly(b.dirs, b.files);
    AddPatternsOnly(b.dirs, b.files, b.patterns);
    AddThree(NOTHING, Map(DirLine, b.dirs), b.files, b.patterns,
             Body({}, b.dirs, [], []), Body({}, b.dirs, b.files, []));
  }

  lemma {:induction false} ReadPathLines(v: View, b: Body)
    requires v.View? && v.current == NOTHING && WfBody(b)
    ensures AllPaths(PathLines(b)) && NoneEmpty(PathLines(b)) && AllPlain(PathLines(b))
    ensures RunCore(v, PathLines(b))
         == v.(ended := v.ended || PathLines(b) != [], current := Body({}, b.dirs, b.files, b.patterns))
  {
    AddBody(b);
    PathLinesArePaths(b);
    ReadPaths(v, PathLines(b));
  }

  lemma {:induction false} AddPathsAppend(b: Body, x: seq<string>, y: seq<string>)
    requires NoneEmpty(x) && NoneEmpty(y)
    ensures AddPaths(b, x + y) == AddPaths(AddPaths(b, x), y)
    decreases |x|
  {
    if x == [] {
      assert x + y == y;
    } else {
      assert (x + y)[1..] == x[1..] + y;
      AddPathsAppend(AddPath(b, x[0]), x[1..], y);
    }
  }

  /** Reading a printed rule adds exactly that rule. */
  lemma {:induction false} ReadBody(v: View, b: Body)
    requires v.View? && v.current == NOTHING && WfBody(b)
    ensures AllPlain(PrintBody(b)) && NoneEmpty(PrintBody(b))
    ensures RunCore(v, PrintBody(b)) == View(v.defs, true, NOTHING, v.rules + [b])
  {
    var paths, tags := PathLines(b), TagLines('@', b.tags);
    ReadPathLines(v, b);
    ReadTags(RunCore(v, paths), b.tags);
    ReadThree(v, paths, tags, ";");
    PlainParts(paths, tags);
  }

  lemma {:induction false} ReadThree(v: View, a: seq<string>, b: seq<string>, l: string)
    requires NoneEmpty(a) && NoneEmpty(b) && l != ""
    ensures NoneEmpty(a + b + [l])
    ensures RunCore(v, a + b + [l]) == HandleView(RunCore(RunCore(v, a), b), l)
  {
    RunCoreAppend(v, a, b);
    RunCoreAppend(v, a + b, [l]);
    RunCoreOne(RunCore(v, a + b), l);
  }

  lemma {:induction false} PlainParts(a: seq<string>, b: seq<string>)
    requires AllPlain(a) && AllPlain(b)
    ensures AllPlain(a + b + [";"])
  {
    assert Plain(";");
  }

  lemma {:induction false} ReadLastBody(v: View, lines: seq<string>, before: View, b: Body)
    requires v.View? && AllPlain(lines) && NoneEmpty(lines) && RunCore(v, lines) == before
    requires before.View? && before.current == NOTHING && WfBody(b)
    ensures AllPlain(lines + PrintBody(b)) && NoneEmpty(lines + PrintBody(b))
    ensures RunCore(v, lines + PrintBody(b)) == View(before.defs, true, NOTHING, before.rules + [b])
  {
    ReadBody(before, b);
    RunCoreAppend(v, lines, PrintBody(b));
  }

  lemma {:induction false} ReadBodies(v: View, bs: seq<Body>)
    requires v.View? && v.current == NOTHING && v.rules == [] && WfBodies(bs)
    ensures AllPlain(PrintBodies(bs)) && NoneEmpty(PrintBodies(bs))
    ensures RunCore(v, PrintBodies(bs)) == View(v.defs, v.ended || bs != [], NOTHING, bs)
  {
    if bs != [] {
      var init, b := bs[..|bs| - 1], bs[|bs| - 1];
      assert b in bs && bs == init + [b];
      ReadBodies(v, init);
      ReadLastBody(v, PrintBodies(init), RunCore(v, PrintBodies(init)), b);
    }
  }

  lemma {:induction false} PlainCode(x: string)
    requires Plain(x)
    ensures CodeOf(x) == [x]
  {
    CodeIsPlain(x);
  }

  lemma {:induction false} PlainCoreSnoc(init: seq<string>, x: string)
    requires AllUnbroken(init) && Core(init) == init && Plain(x)
    ensures AllUnbroken(init + [x]) && Core(init + [x]) == init + [x]
  {
    PlainCode(x);
    CoreSnoc(init, x);
  }

  lemma {:induction false} PlainSplit(lines: seq<string>, init: seq<string>, x: string)
    requires AllPlain(lines) && lines == init + [x]
    ensures AllPlain(init) && Plain(x)
  {
    assert lines[|init|] == x;
    forall i | 0 <= i < |init| ensures Plain(init[i]) { assert lines[i] == init[i]; }
  }

  lemma {:induction false} PlainCore(lines: seq<string>)
    requires AllPlain(lines)
    ensures AllUnbroken(lines) && Core(lines) == lines
  {
    if lines != [] {
      var init, x := lines[..|lines| - 1], lines[|lines| - 1];
      assert lines == init + [x];
      PlainSplit(lines, init, x);
      PlainCore(init);
      PlainCoreSnoc(init, x);
    }
  }

  /** The text of a configuration file for these declarations and rules. */
  ghost function PrintFile(defs: set<string>, bs: seq<Body>): string {
    JoinLines(Print(defs, bs))
  }

  /** Parsing a printed file gives back its declarations and its rules, in order. */
  lemma {:induction false} RoundTrip(defs: set<string>, bs: seq<Body>)
    requires WfTags(defs) && WfBodies(bs)
    ensures ViewOf(Parse(PrintFile(defs, bs))) == View(defs, bs != [], NOTHING, bs)
  {
    var lines := Print(defs, bs);
    ReadDefs(defs);
    var v := RunCore(ViewOf(START), TagLines('!', defs));
    ReadBodies(v, bs);
    RunCoreAppend(ViewOf(START), TagLines('!', defs), PrintBodies(bs));
    PlainCore(lines);
    SplitJoinedLines(lines);
    ParseIsCore(lines);
    FinishIsView(ParseLines(lines), |lines|);
  }

  /**
   * Whatever file was parsed, printing the result and parsing again gives the same declarations and rules;
   * so the well-formed rule sets are exactly those the parser can return.
   */
  lemma {:induction false} Reprint(content: string)
    requires Parse(content).State?
    ensures var v := ViewOf(Parse(content));
            && WfTags(v.defs) && WfBodies(v.rules)
            && ViewOf(Parse(PrintFile(v.defs, v.rules))).View?
            && ViewOf(Parse(PrintFile(v.defs, v.rules))).defs == v.defs
            && ViewOf(Parse(PrintFile(v.defs, v.rules))).rules == v.rules
  {
    ParseWellFormed(content);
    var v := ViewOf(Parse(content));
    RoundTrip(v.defs, v.rules);
  }
}
