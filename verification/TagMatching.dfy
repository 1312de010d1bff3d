/** Matching changed files against tag rules and collecting the tags to run. */
module TagMatching {
  import opened Seqs
  import opened TagParser
  import opened Paths

  /** `fnmatch.fnmatch(file, pattern)`, left open. */
  type Glob = (string, string) -> bool

  /** A changed file is below a directory, is a file, or matches a pattern of the rule. */
  ghost predicate Matches(glob: Glob, b: Body, file: string) {
    || (exists i :: 0 <= i < |b.dirs| && InDir(b.dirs[i], file))
    || (exists i :: 0 <= i < |b.files| && b.files[i] == file)
    || (exists i :: 0 <= i < |b.patterns| && glob(file, b.patterns[i]))
  }

  // ----- Matching a rule -----

  /** What a path line of a configuration file covers. */
  ghost predicate LineCovers(glob: Glob, l: string, file: string)
    requires l != ""
  {
    if '*' in l then glob(file, l)
    else if l[|l| - 1] == '/' then Components(l[..|l| - 1]) <= Components(file)
    else file == l
  }

  /** A rule matches a file exactly when one of the lines that make it up covers the file. */
  lemma {:induction false} MatchesByLine(glob: Glob, b: Body, l: string, file: string)
    requires l != ""
    ensures Matches(glob, AddPath(b, l), file) <==> Matches(glob, b, file) || LineCovers(glob, l, file)
    ensures !Matches(glob, NOTHING, file)
  {
    if '*' in l {
      AddedPattern(glob, b, l, file);
    } else if l[|l| - 1] == '/' {
      InDirExact(l[..|l| - 1], file);
      AddedDir(glob, b, l[..|l| - 1], file);
    } else {
      AddedFile(glob, b, l, file);
    }
  }

  lemma {:induction false} AddedPattern(glob: Glob, b: Body, p: string, file: string)
    ensures Matches(glob, b.(patterns := b.patterns + [p]), file) <==> Matches(glob, b, file) || glob(file, p)
  {
    var more := b.patterns + [p];
    assert more[|b.patterns|] == p && forall i :: 0 <= i < |b.patterns| ==> more[i] == b.patterns[i];
  }

  lemma {:induction false} AddedDir(glob: Glob, b: Body, d: string, file: string)
    ensures Matches(glob, b.(dirs := b.dirs + [d]), file) <==> Matches(glob, b, file) || InDir(d, file)
  {
    var more := b.dirs + [d];
    assert more[|b.dirs|] == d && forall i :: 0 <= i < |b.dirs| ==> more[i] == b.dirs[i];
  }

  lemma {:induction false} AddedFile(glob: Glob, b: Body, f: string, file: string)
    ensures Matches(glob, b.(files := b.files + [f]), file) <==> Matches(glob, b, file) || file == f
  {
    var more := b.files + [f];
    assert more[|b.files|] == f && forall i :: 0 <= i < |b.files| ==> more[i] == b.files[i];
  }

  /** `TagRule.match`. */
  method MatchRule(glob: Glob, b: Body, file: string) returns (r: bool)
    ensures r <==> Matches(glob, b, file)
  {
    for i := 0 to |b.dirs|
      invariant forall j :: 0 <= j < i ==> !InDir(b.dirs[j], file)
    {
      if InDir(b.dirs[i], file) { return true; }
    }
    for i := 0 to |b.files|
      invariant forall j :: 0 <= j < i ==> b.files[j] != file
    {
      if b.files[i] == file { return true; }
    }
    for i := 0 to |b.patterns|
      invariant forall j :: 0 <= j < i ==> !glob(file, b.patterns[j])
    {
      if glob(file, b.patterns[i]) { return true; }
    }
    r := false;
  }

  /** The tags of the first matching rule. */
  ghost function FirstMatch(glob: Glob, rules: seq<TagRule>, file: string): Option<set<string>> {
    if rules == [] then None
    else if Matches(glob, rules[0].body, file) then Some(rules[0].body.tags)
    else FirstMatch(glob, rules[1..], file)
  }

  /** Earlier rules win; later ones are a fallback. */
  lemma {:induction false} FirstMatchAppend(glob: Glob, a: seq<TagRule>, b: seq<TagRule>, file: string)
    ensures FirstMatch(glob, a + b, file)
         == if FirstMatch(glob, a, file).Some? then FirstMatch(glob, a, file) else FirstMatch(glob, b, file)
  {
    if a == [] {
      assert a + b == b;
    } else {
      FirstMatchAppend(glob, a[1..], b, file);
      assert (a + b)[1..] == a[1..] + b;
    }
  }

  /** The result is the tag set of a rule that matches while no earlier one does. */
  lemma {:induction false} FirstMatchIsFirst(glob: Glob, rules: seq<TagRule>, file: string) returns (k: nat)
    ensures FirstMatch(glob, rules, file).Some? <==> k < |rules|
    ensures k <= |rules| && forall j :: 0 <= j < k ==> !Matches(glob, rules[j].body, file)
    ensures k < |rules| ==>
              Matches(glob, rules[k].body, file) && FirstMatch(glob, rules, file).value == rules[k].body.tags
  {
    if rules == [] || Matches(glob, rules[0].body, file) {
      k := 0;
    } else {
      var m := FirstMatchIsFirst(glob, rules[1..], file);
      k := m + 1;
    }
  }

  ghost predicate Declared(defs: set<string>, rules: seq<TagRule>) {
    forall i :: 0 <= i < |rules| ==> rules[i].body.tags <= defs
  }

  lemma {:induction false} MatchedDeclared(glob: Glob, defs: set<string>, rules: seq<TagRule>, file: string)
    requires Declared(defs, rules) && FirstMatch(glob, rules, file).Some?
    ensures FirstMatch(glob, rules, file).value <= defs
  {
    var k := FirstMatchIsFirst(glob, rules, file);
  }

  const BUILTIN: set<string> := {"always", "lint"}

  /** Emitted for a changed file that no rule handles. */
  const FALLBACK: set<string> := {
    "ml", "tune", "train", "data", "serve", "core_cpp", "cpp", "java", "python", "doc",
    "linux_wheels", "macos_wheels", "dashboard", "tools", "release_tests"}

  /** What one changed file adds. */
  ghost function TagsFor(glob: Glob, rules: seq<TagRule>, file: string): set<string> {
    var m := FirstMatch(glob, rules, file);
    if m.Some? then m.value else FALLBACK
  }

  ghost function Collected(glob: Glob, rules: seq<TagRule>, files: seq<string>): set<string> {
    if files == [] then BUILTIN
    else Collected(glob, rules, files[..|files| - 1]) + TagsFor(glob, rules, files[|files| - 1])
  }

  /** The emitted set is the built-in tags and those of each changed file: the files' order is irrelevant. */
  lemma {:induction false} CollectedMembers(glob: Glob, rules: seq<TagRule>, files: seq<string>, tag: string)
    ensures tag in Collected(glob, rules, files)
       <==> tag in BUILTIN || exists i :: 0 <= i < |files| && tag in TagsFor(glob, rules, files[i])
  {
    if files != [] {
      var init := files[..|files| - 1];
      CollectedMembers(glob, rules, init, tag);
      if i :| 0 <= i < |init| && tag in TagsFor(glob, rules, init[i]) {
        assert files[i] == init[i];
      }
    }
  }

  /** Rule `k` is the one that decides about `file`. */
  ghost predicate Decides(glob: Glob, rules: seq<TagRule>, k: nat, file: string) {
    && k < |rules| && Matches(glob, rules[k].body, file)
    && forall j :: 0 <= j < k ==> !Matches(glob, rules[j].body, file)
  }

  /** A tag is emitted for a file exactly when the deciding rule has it, or no rule matches and it is a fallback tag. */
  lemma {:induction false} TagsForExact(glob: Glob, rules: seq<TagRule>, file: string, tag: string)
    ensures tag in TagsFor(glob, rules, file)
       <==> || (exists k: nat :: Decides(glob, rules, k, file) && tag in rules[k].body.tags)
            || (tag in FALLBACK && forall k :: 0 <= k < |rules| ==> !Matches(glob, rules[k].body, file))
  {
    var k := FirstMatchIsFirst(glob, rules, file);
    if k < |rules| {
      assert Decides(glob, rules, k, file);
      forall j: nat | Decides(glob, rules, j, file) ensures j == k {}
    }
  }

  lemma {:induction false} CollectedOrder(glob: Glob, rules: seq<TagRule>, a: seq<string>, b: seq<string>)
    requires Elements(a) <= Elements(b)
    ensures Collected(glob, rules, a) <= Collected(glob, rules, b)
  {
    forall tag | tag in Collected(glob, rules, a) ensures tag in Collected(glob, rules, b) {
      CollectedMembers(glob, rules, a, tag);
      CollectedMembers(glob, rules, b, tag);
      if tag !in BUILTIN {
        var i :| 0 <= i < |a| && tag in TagsFor(glob, rules, a[i]);
        assert a[i] in Elements(b);
        var j :| 0 <= j < |b| && b[j] == a[i];
      }
    }
  }

  /** Some changed file is handled by no rule. */
  ghost predicate Unhandled(glob: Glob, rules: seq<TagRule>, files: seq<string>) {
    exists i :: 0 <= i < |files| && FirstMatch(glob, rules, files[i]).None?
  }

  /**
   * Once `check_rules` has passed, the final unknown-tag assertion holds exactly when the built-in tags
   * are declared, and the fallback tags are if some changed file is handled by no rule.
   */
  lemma {:induction false} AssertionHolds(glob: Glob, defs: set<string>, rules: seq<TagRule>, files: seq<string>)
    requires Declared(defs, rules)
    ensures Collected(glob, rules, files) <= defs
       <==> BUILTIN <= defs && (Unhandled(glob, rules, files) ==> FALLBACK <= defs)
  {
    var tags := Collected(glob, rules, files);
    if tags <= defs {
      forall t | t in BUILTIN ensures t in defs { CollectedMembers(glob, rules, files, t); }
      if Unhandled(glob, rules, files) {
        var i :| 0 <= i < |files| && FirstMatch(glob, rules, files[i]).None?;
        forall t | t in FALLBACK ensures t in defs {
          CollectedMembers(glob, rules, files, t);
          assert t in TagsFor(glob, rules, files[i]);
        }
      }
    }
    if BUILTIN <= defs && (Unhandled(glob, rules, files) ==> FALLBACK <= defs) {
      forall t | t in tags ensures t in defs {
        CollectedMembers(glob, rules, files, t);
        if t !in BUILTIN {
          var i :| 0 <= i < |files| && t in TagsFor(glob, rules, files[i]);
          if FirstMatch(glob, rules, files[i]).Some? { MatchedDeclared(glob, defs, rules, files[i]); }
        }
      }
    }
  }

  datatype Collection = Tags(tags: set<string>) | UnknownTag

  /** `TagRuleSet`: declarations and rules gathered from several files. */
  class TagRuleSet {
    var defs: set<string>
    var rules: seq<TagRule>

    constructor ()
      ensures defs == {} && rules == []
    {
      defs := {};
      rules := [];
    }

    /** A file that does not parse changes nothing. */
    method AddRules(content: string) returns (ok: bool)
      modifies this
      ensures ok <==> Parse(content).State?
      ensures ok ==> defs == old(defs) + Parse(content).defs && rules == old(rules) + Parse(content).rules
      ensures !ok ==> defs == old(defs) && rules == old(rules)
    {
      var parsed := ParseRules(content);
      if parsed.Failed? {
        return false;
      }
      defs := defs + parsed.defs;
      rules := rules + parsed.rules;
      ok := true;
    }

    /** It raises exactly when some rule uses an undeclared tag. */
    method CheckRules() returns (ok: bool)
      ensures ok <==> Declared(defs, rules)
    {
      for i := 0 to |rules|
        invariant Declared(defs, rules[..i])
      {
        if !(rules[i].body.tags <= defs) {
          return false;
        }
      }
      assert rules[..|rules|] == rules;
      ok := true;
    }

    method MatchTags(glob: Glob, file: string) returns (r: Option<set<string>>)
      ensures r == FirstMatch(glob, rules, file)
    {
      for i := 0 to |rules|
        invariant FirstMatch(glob, rules[i..], file) == FirstMatch(glob, rules, file)
      {
        var matched := MatchRule(glob, rules[i].body, file);
        assert rules[i..][1..] == rules[i + 1..];
        if matched {
          return Some(rules[i].body.tags);
        }
      }
      r := None;
    }

    /** The main block on a pull request: collect the tags and assert that all of them are declared. */
    method CollectTags(glob: Glob, files: seq<string>) returns (r: Collection)
      ensures r == if Collected(glob, rules, files) <= defs then Tags(Collected(glob, rules, files)) else UnknownTag
    {
      var tags := BUILTIN;
      for i := 0 to |files|
        invariant tags == Collected(glob, rules, files[..i])
      {
        assert files[..i + 1][..i] == files[..i];
        var m := MatchTags(glob, files[i]);
        tags := tags + if m.Some? then m.value else FALLBACK;
      }
      assert files[..|files|] == files;
      r := if tags <= defs then Tags(tags) else UnknownTag;
    }
  }
}
