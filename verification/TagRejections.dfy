/** Which tag-rule files are rejected and why, where rules end, and what the last semicolon is good for. */
module TagRejections {
  import opened Seqs
  import opened Text
  import opened TagParser
  import opened TagPrinter

  // ----- Errors -----

  /** A declaration after something that is not one. */
  ghost predicate IsLate(core: seq<string>, i: nat)
    requires NoneEmpty(core)
  {
    i < |core| && core[i][0] == '!' && exists j :: 0 <= j < i && core[j][0] != '!'
  }

  /** A semicolon with something behind it. */
  ghost predicate IsCluttered(core: seq<string>, i: nat)
    requires NoneEmpty(core)
  {
    i < |core| && core[i][0] == ';' && core[i] != ";"
  }

  ghost predicate IsBad(core: seq<string>, i: nat)
    requires NoneEmpty(core)
  {
    IsLate(core, i) || IsCluttered(core, i)
  }

  /** Some line is not a declaration. */
  ghost predicate HasOther(core: seq<string>)
    requires NoneEmpty(core)
  {
    exists j :: 0 <= j < |core| && core[j][0] != '!'
  }

  lemma {:induction false} BadBefore(core: seq<string>, l: string, i: nat)
    requires NoneEmpty(core) && l != "" && i < |core|
    ensures NoneEmpty(core + [l])
    ensures IsLate(core + [l], i) <==> IsLate(core, i)
    ensures IsCluttered(core + [l], i) <==> IsCluttered(core, i)
  {
    var all := core + [l];
    assert forall j :: 0 <= j < |core| ==> all[j] == core[j];
  }

  lemma {:induction false} BadLast(core: seq<string>, l: string)
    requires NoneEmpty(core) && l != ""
    ensures NoneEmpty(core + [l])
    ensures IsLate(core + [l], |core|) <==> l[0] == '!' && HasOther(core)
    ensures IsCluttered(core + [l], |core|) <==> l[0] == ';' && l != ";"
    ensures HasOther(core + [l]) <==> HasOther(core) || l[0] != '!'
  {
    var all := core + [l];
    assert all[|core|] == l && forall j :: 0 <= j < |core| ==> all[j] == core[j];
  }

  /** `i` is the first bad line. */
  ghost predicate FirstBad(core: seq<string>, i: nat)
    requires NoneEmpty(core)
  {
    IsBad(core, i) && forall j: nat :: j < i ==> !IsBad(core, j)
  }

  function ErrorOf(l: string): ParseError
    requires l != ""
  {
    if l[0] == '!' then LateTagDeclaration else TokensAfterSemicolon
  }

  /** The run is rejected exactly at the first bad line, and otherwise remembers whether declarations are over. */
  ghost predicate Judged(core: seq<string>, v: View)
    requires NoneEmpty(core)
  {
    match v
    case Rejected(error) =>
      exists i: nat :: FirstBad(core, i) && error == ErrorOf(core[i])
    case View(_, ended, _, _) =>
      (forall i: nat :: !IsBad(core, i)) && (ended <==> HasOther(core))
  }

  lemma {:induction false} JudgeRejected(core: seq<string>, l: string, error: ParseError)
    requires NoneEmpty(core) && l != "" && Judged(core, Rejected(error))
    ensures NoneEmpty(core + [l]) && Judged(core + [l], Rejected(error))
  {
    var all := core + [l];
    var i: nat :| FirstBad(core, i)
                  && error == ErrorOf(core[i]);
    forall j: nat | j <= i ensures IsBad(all, j) <==> IsBad(core, j) { BadBefore(core, l, j); }
    assert FirstBad(all, i) && all[i] == core[i];
  }

  lemma {:induction false} JudgeNext(core: seq<string>, l: string, v: View)
    requires NoneEmpty(core) && l != "" && v.View? && Judged(core, v)
    ensures NoneEmpty(core + [l]) && Judged(core + [l], HandleView(v, l))
  {
    var all := core + [l];
    BadLast(core, l);
    forall j: nat | j < |core| ensures !IsBad(all, j) {
      BadBefore(core, l, j);
      assert !IsBad(core, j);
    }
    assert all[|core|] == l;
    if IsBad(all, |core|) {
      assert FirstBad(all, |core|);
    } else {
      forall i: nat ensures !IsBad(all, i) {}
    }
  }

  lemma {:induction false} RunJudged(core: seq<string>)
    requires NoneEmpty(core)
    ensures Judged(core, RunCore(ViewOf(START), core))
  {
    if core == [] {
      forall i: nat ensures !IsBad(core, i) {}
    } else {
      var init, l := core[..|core| - 1], core[|core| - 1];
      assert core == init + [l];
      RunJudged(init);
      RunCoreAppend(ViewOf(START), init, [l]);
      var v := RunCore(ViewOf(START), init);
      RunCoreOne(v, l);
      if v.Rejected? { JudgeRejected(init, l, v.error); } else { JudgeNext(init, l, v); }
    }
  }

  /**
   * A file is rejected exactly when it declares a tag after other code or puts something after a semicolon;
   * the error is that of the first such line.
   */
  lemma {:induction false} RejectionExact(content: string)
    ensures var core := Core(SplitLines(content));
            && NoneEmpty(core)
            && (Parse(content).Failed? <==> exists i: nat :: IsBad(core, i))
            && (Parse(content).Failed? ==>
                  exists i: nat :: FirstBad(core, i) && Parse(content).error == ErrorOf(core[i]))
  {
    var lines := SplitLines(content);
    ParseIsCore(lines);
    RunJudged(Core(lines));
    if Parse(content).Failed? {
      var i: nat :| FirstBad(Core(lines), i)
                    && Parse(content).error == ErrorOf(Core(lines)[i]);
    }
  }

  // ----- The last semicolon -----

  /** One more semicolon ends the rule that is being read, and adds an empty rule where none is. */
  lemma {:induction false} FinalSemicolon(lines: seq<string>)
    requires ParseLines(lines).State?
    ensures var v, w := FinishView(ViewOf(ParseLines(lines))), FinishView(ViewOf(ParseLines(lines + [";"])));
            && w.View? && w.defs == v.defs
            && (ParseLines(lines).current != NOTHING ==> w.rules == v.rules)
            && (ParseLines(lines).current == NOTHING ==> w.rules == v.rules + [NOTHING])
  {
    assert (lines + [";"])[..|lines|] == lines;
    PlainSemicolon();
    HandleIsView(ParseLines(lines), ";", |lines| + 1);
  }

  lemma {:induction false} PlainSemicolon()
    ensures CodeLine(";") == ";"
  {
    CodeIsPlain(";");
  }

  lemma {:induction false} PrintedEnd(defs: set<string>, bs: seq<Body>)
    requires bs != []
    ensures var lines := Print(defs, bs);
            lines != [] && lines[|lines| - 1] == ";"
  {}

  /** The parses declare and rule the same. */
  ghost predicate SameRules(v: View, w: View) {
    v.View? && w.View? && v.defs == w.defs && v.rules == w.rules
  }

  lemma {:induction false} SemicolonNeeded(short: seq<string>, bs: seq<Body>)
    requires bs != [] && ParseLines(short).State?
    requires FinishView(ViewOf(ParseLines(short + [";"]))).View?
    requires FinishView(ViewOf(ParseLines(short + [";"]))).rules == bs
    ensures SameRules(FinishView(ViewOf(ParseLines(short))), FinishView(ViewOf(ParseLines(short + [";"]))))
       <==> bs[|bs| - 1] != NOTHING
  {
    FinalSemicolon(short);
    EndedBody(short, bs);
    var v := FinishView(ViewOf(ParseLines(short)));
    assert |v.rules + [NOTHING]| > |v.rules|;
  }

  lemma {:induction false} ParseJoined(lines: seq<string>)
    requires AllUnbroken(lines)
    ensures ViewOf(Parse(JoinLines(lines))) == FinishView(ViewOf(ParseLines(lines)))
  {
    SplitJoinedLines(lines);
    FinishIsView(ParseLines(lines), |lines|);
  }

  /** The printed lines without the last semicolon. */
  ghost function PrintOpen(defs: set<string>, bs: seq<Body>): seq<string>
    requires bs != []
  {
    PrintedEnd(defs, bs);
    Print(defs, bs)[..|Print(defs, bs)| - 1]
  }

  lemma {:induction false} OpenLines(defs: set<string>, bs: seq<Body>)
    requires WfTags(defs) && WfBodies(bs) && bs != []
    ensures Print(defs, bs) == PrintOpen(defs, bs) + [";"]
    ensures AllUnbroken(Print(defs, bs)) && AllUnbroken(PrintOpen(defs, bs))
  {
    PrintedEnd(defs, bs);
    PrintedPlain(defs, bs);
  }

  lemma {:induction false} OpenMatters(short: seq<string>, bs: seq<Body>, v: View, w: View)
    requires v == FinishView(ViewOf(ParseLines(short))) && w == FinishView(ViewOf(ParseLines(short + [";"])))
    requires bs != [] && w.View? && w.rules == bs
    ensures SameRules(v, w) <==> bs[|bs| - 1] != NOTHING
  {
    assert (short + [";"])[..|short|] == short;
    assert ParseLines(short).State?;
    SemicolonNeeded(short, bs);
  }

  /** A printed file needs its last semicolon exactly when its last rule is empty. */
  lemma {:induction false} LastSemicolonOptional(defs: set<string>, bs: seq<Body>)
    requires WfTags(defs) && WfBodies(bs) && bs != []
    ensures SameRules(ViewOf(Parse(JoinLines(PrintOpen(defs, bs)))), ViewOf(Parse(JoinLines(Print(defs, bs)))))
       <==> bs[|bs| - 1] != NOTHING
  {
    var short := PrintOpen(defs, bs);
    OpenLines(defs, bs);
    RoundTrip(defs, bs);
    ParseJoined(short);
    ParseJoined(short + [";"]);
    OpenMatters(short, bs, ViewOf(Parse(JoinLines(short))), ViewOf(Parse(JoinLines(short + [";"]))));
  }

  lemma {:induction false} PrintedPlain(defs: set<string>, bs: seq<Body>)
    requires WfTags(defs) && WfBodies(bs)
    ensures AllUnbroken(Print(defs, bs))
  {
    ReadDefs(defs);
    ReadBodies(RunCore(ViewOf(START), TagLines('!', defs)), bs);
    PlainCore(Print(defs, bs));
  }

  /** The semicolon turns the rule being read into the last rule. */
  lemma {:induction false} EndedBody(short: seq<string>, bs: seq<Body>)
    requires bs != [] && ParseLines(short).State?
    requires FinishView(ViewOf(ParseLines(short + [";"]))).View?
    requires FinishView(ViewOf(ParseLines(short + [";"]))).rules == bs
    ensures ParseLines(short).current == bs[|bs| - 1]
  {
    assert (short + [";"])[..|short|] == short;
    PlainSemicolon();
    HandleIsView(ParseLines(short), ";", |short| + 1);
  }

  // ----- Line numbers -----

  lemma {:induction false} StepRules(st: State, line: string, lineno: nat)
    requires st.State? && Step(st, line, lineno).State?
    ensures var next := Step(st, line, lineno);
            || next.rules == st.rules
            || (next.rules == st.rules + [TagRule(st.current, lineno)] && CodeLine(line) == ";")
  {}

  /** A rule's line number is that of the semicolon that ends it, so the numbers increase. */
  lemma {:induction false} RuleLines(lines: seq<string>, k: nat)
    requires ParseLines(lines).State? && k < |ParseLines(lines).rules|
    ensures var n := ParseLines(lines).rules[k].lineno;
            0 < n <= |lines| && CodeLine(lines[n - 1]) == ";"
  {
    var init := lines[..|lines| - 1];
    StepRules(ParseLines(init), lines[|lines| - 1], |lines|);
    if k < |ParseLines(init).rules| {
      RuleLines(init, k);
    }
  }

  lemma {:induction false} RuleLinesIncrease(lines: seq<string>, j: nat, k: nat)
    requires ParseLines(lines).State? && j < k < |ParseLines(lines).rules|
    ensures ParseLines(lines).rules[j].lineno < ParseLines(lines).rules[k].lineno
  {
    var init := lines[..|lines| - 1];
    StepRules(ParseLines(init), lines[|lines| - 1], |lines|);
    if k < |ParseLines(init).rules| {
      RuleLinesIncrease(init, j, k);
    } else {
      RuleLines(init, j);
    }
  }
}
