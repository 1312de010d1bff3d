/** What a tag-rule file means, line by line, without the parser's state. */
module TagContents {
  import opened Seqs
  import opened Text
  import opened TagParser

  predicate IsTags(l: string) { l != "" && l[0] == '@' }
  predicate IsPath(l: string) { l != "" && l[0] != '!' && l[0] != '@' && l[0] != ';' }
  predicate IsPattern(l: string) { IsPath(l) && '*' in l }
  predicate IsDir(l: string) { IsPath(l) && '*' !in l && l[|l| - 1] == '/' }
  predicate IsFile(l: string) { IsPath(l) && '*' !in l && l[|l| - 1] != '/' }

  function DropSlash(l: string): string {
    if l == "" then "" else l[..|l| - 1]
  }

  /** The words of all lines of `core` that start with `mark`. */
  function WordsOf(mark: char, core: seq<string>): set<string> {
    set i, w | 0 <= i < |core| && core[i] != "" && core[i][0] == mark && w in Split(core[i][1..]) :: w
  }

  lemma {:induction false} WordsSnoc(mark: char, core: seq<string>, l: string)
    requires l != ""
    ensures WordsOf(mark, core + [l])
         == WordsOf(mark, core) + if l[0] == mark then Elements(Split(l[1..])) else {}
  {
    var all := core + [l];
    assert all[|core|] == l && forall i :: 0 <= i < |core| ==> all[i] == core[i];
    forall w | w in WordsOf(mark, core) ensures w in WordsOf(mark, all) {
      var i :| 0 <= i < |core| && core[i] != "" && core[i][0] == mark && w in Split(core[i][1..]);
      assert all[i] == core[i];
    }
    forall w | l[0] == mark && w in Split(l[1..]) ensures w in WordsOf(mark, all) {
      assert all[|core|] == l;
    }
  }

  /** The rule that the lines of code between two semicolons make. */
  function RuleOf(core: seq<string>): Body {
    Body(WordsOf('@', core), Map(DropSlash, Filter(IsDir, core)), Filter(IsFile, core), Filter(IsPattern, core))
  }

  lemma {:induction false} FilterSnoc(p: string -> bool, core: seq<string>, l: string)
    ensures Filter(p, core + [l]) == Filter(p, core) + if p(l) then [l] else []
  {
    FilterAppend(p, core, [l]);
    assert |[l][1..]| == 0;
  }

  lemma {:induction false} DirsSnoc(core: seq<string>, l: string)
    ensures RuleOf(core + [l]).dirs == RuleOf(core).dirs + if IsDir(l) then [DropSlash(l)] else []
  {
    FilterSnoc(IsDir, core, l);
    MapAppend(DropSlash, Filter(IsDir, core), if IsDir(l) then [l] else []);
  }

  /** One more line of code adds to one part of the rule. */
  lemma {:induction false} RuleSnoc(core: seq<string>, l: string)
    requires l != ""
    ensures RuleOf(core + [l]) ==
            var b := RuleOf(core);
            Body(b.tags + (if l[0] == '@' then Elements(Split(l[1..])) else {}),
                 b.dirs + (if IsDir(l) then [DropSlash(l)] else []),
                 b.files + (if IsFile(l) then [l] else []),
                 b.patterns + (if IsPattern(l) then [l] else []))
  {
    WordsSnoc('@', core, l);
    DirsSnoc(core, l);
    FilterSnoc(IsFile, core, l);
    FilterSnoc(IsPattern, core, l);
  }

  lemma AddNothing(b: Body)
    ensures Body(b.tags + {}, b.dirs, b.files, b.patterns) == b
    ensures b.dirs + [] == b.dirs && b.files + [] == b.files && b.patterns + [] == b.patterns
  {}

  lemma {:induction false} RuleSnocTags(core: seq<string>, l: string)
    requires IsTags(l)
    ensures RuleOf(core + [l]) == RuleOf(core).(tags := RuleOf(core).tags + Elements(Split(l[1..])))
  {
    RuleSnoc(core, l);
    AddNothing(RuleOf(core));
  }

  lemma {:induction false} RuleSnocPath(core: seq<string>, l: string)
    requires IsPath(l)
    ensures RuleOf(core + [l]) == AddPath(RuleOf(core), l)
  {
    RuleSnoc(core, l);
    AddNothing(RuleOf(core));
  }

  ghost predicate RuleLines(core: seq<string>) {
    forall i :: 0 <= i < |core| ==> IsTags(core[i]) || IsPath(core[i])
  }

  lemma {:induction false} RuleBeingRead(v: View, core: seq<string>)
    requires v.View? && v.current == NOTHING && RuleLines(core)
    ensures NoneEmpty(core) && RunCore(v, core) == v.(ended := v.ended || core != [], current := RuleOf(core))
  {
    if core == [] {
      assert WordsOf('@', core) == {};
    } else {
      var init, l := core[..|core| - 1], core[|core| - 1];
      assert core == init + [l];
      RuleBeingRead(v, init);
      RunCoreAppend(v, init, [l]);
      RunCoreOne(RunCore(v, init), l);
      if IsTags(l) { RuleSnocTags(init, l); } else { RuleSnocPath(init, l); }
    }
  }

  /** The lines up to a semicolon add exactly their rule. */
  lemma {:induction false} RuleExact(v: View, core: seq<string>)
    requires v.View? && v.current == NOTHING && RuleLines(core)
    ensures NoneEmpty(core + [";"])
    ensures RunCore(v, core + [";"]) == View(v.defs, true, NOTHING, v.rules + [RuleOf(core)])
  {
    RuleBeingRead(v, core);
    RunCoreAppend(v, core, [";"]);
    RunCoreOne(RunCore(v, core), ";");
  }

  /** A parse declares exactly the words of the declaration lines. */
  lemma {:induction false} DeclaredExact(core: seq<string>)
    requires NoneEmpty(core) && RunCore(ViewOf(START), core).View?
    ensures RunCore(ViewOf(START), core).defs == WordsOf('!', core)
  {
    if core == [] {
      assert WordsOf('!', core) == {};
    } else {
      var init, l := core[..|core| - 1], core[|core| - 1];
      assert core == init + [l];
      RunCoreAppend(ViewOf(START), init, [l]);
      RunCoreOne(RunCore(ViewOf(START), init), l);
      DeclaredExact(init);
      WordsSnoc('!', init, l);
    }
  }

  // ----- A whole file -----

  function Closed(core: seq<string>): seq<string> { core + [";"] }

  ghost predicate Declarations(core: seq<string>) {
    forall i :: 0 <= i < |core| ==> core[i] != "" && core[i][0] == '!'
  }

  lemma {:induction false} DeclarationsRead(core: seq<string>)
    requires Declarations(core)
    ensures NoneEmpty(core) && RunCore(ViewOf(START), core) == View(WordsOf('!', core), false, NOTHING, [])
  {
    if core == [] {
      assert WordsOf('!', core) == {};
    } else {
      var init, l := core[..|core| - 1], core[|core| - 1];
      assert core == init + [l];
      DeclarationsRead(init);
      RunCoreAppend(ViewOf(START), init, [l]);
      RunCoreOne(RunCore(ViewOf(START), init), l);
      WordsSnoc('!', init, l);
    }
  }

  ghost predicate AllRuleLines(segments: seq<seq<string>>) {
    forall i :: 0 <= i < |segments| ==> RuleLines(segments[i])
  }

  lemma {:induction false} SegmentsSnoc(init: seq<seq<string>>, s: seq<string>)
    ensures Concat(Map(Closed, init + [s])) == Concat(Map(Closed, init)) + Closed(s)
  {
    MapAppend(Closed, init, [s]);
    ConcatSnoc(Map(Closed, init), Closed(s));
    assert Map(Closed, [s]) == [Closed(s)];
  }

  lemma {:induction false} SegmentRead(v: View, before: seq<string>, mid: View, s: seq<string>)
    requires v.View? && NoneEmpty(before) && RunCore(v, before) == mid && mid.View? && mid.current == NOTHING
    requires RuleLines(s)
    ensures NoneEmpty(before + Closed(s))
    ensures RunCore(v, before + Closed(s)) == View(mid.defs, true, NOTHING, mid.rules + [RuleOf(s)])
  {
    RuleExact(mid, s);
    RunCoreAppend(v, before, Closed(s));
  }

  lemma {:induction false} SegmentsStep(v: View, init: seq<seq<string>>, s: seq<string>)
    requires v.View? && RuleLines(s) && NoneEmpty(Concat(Map(Closed, init)))
    requires RunCore(v, Concat(Map(Closed, init))).View? && RunCore(v, Concat(Map(Closed, init))).current == NOTHING
    ensures NoneEmpty(Concat(Map(Closed, init + [s])))
    ensures var mid := RunCore(v, Concat(Map(Closed, init)));
            RunCore(v, Concat(Map(Closed, init + [s]))) == View(mid.defs, true, NOTHING, mid.rules + [RuleOf(s)])
  {
    SegmentsSnoc(init, s);
    SegmentRead(v, Concat(Map(Closed, init)), RunCore(v, Concat(Map(Closed, init))), s);
  }

  lemma {:induction false} SegmentsRead(v: View, segments: seq<seq<string>>)
    requires v.View? && v.current == NOTHING && v.rules == [] && AllRuleLines(segments)
    ensures NoneEmpty(Concat(Map(Closed, segments)))
    ensures RunCore(v, Concat(Map(Closed, segments)))
         == View(v.defs, v.ended || segments != [], NOTHING, Map(RuleOf, segments))
  {
    if segments != [] {
      var init, s := segments[..|segments| - 1], segments[|segments| - 1];
      assert segments == init + [s] && RuleLines(s);
      SegmentsRead(v, init);
      SegmentsStep(v, init, s);
      MapAppend(RuleOf, init, [s]);
      assert Map(RuleOf, [s]) == [RuleOf(s)];
    }
  }

  /**
   * A file of declaration lines and rules ended by semicolons declares exactly the declared words and has
   * exactly the rules of its segments, in order.
   */
  lemma {:induction false} FileExact(lines: seq<string>, decls: seq<string>, segments: seq<seq<string>>)
    requires Declarations(decls) && AllRuleLines(segments) && Core(lines) == decls + Concat(Map(Closed, segments))
    ensures ViewOf(ParseLines(lines)) == View(WordsOf('!', decls), segments != [], NOTHING, Map(RuleOf, segments))
  {
    DeclarationsRead(decls);
    SegmentsRead(RunCore(ViewOf(START), decls), segments);
    RunCoreAppend(ViewOf(START), decls, Concat(Map(Closed, segments)));
    ParseIsCore(lines);
  }
}
