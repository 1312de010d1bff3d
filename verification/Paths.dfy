/** Slash-separated paths and what it means for one to be in a directory. */
module Paths {
  /** `file == dir or file.startswith(dir + "/")`. */
  predicate InDir(dir: string, file: string) {
    file == dir || dir + "/" <= file
  }

  /** `s.split("/")`. */
  function Components(s: string): (cs: seq<string>)
    ensures cs != []
  {
    if s == "" then [""]
    else if s[0] == '/' then [""] + Components(s[1..])
    else
      var rest := Components(s[1..]);
      [[s[0]] + rest[0]] + rest[1..]
  }

  /** `"/".join(cs)`. */
  function JoinPath(cs: seq<string>): string
    requires cs != []
  {
    if |cs| == 1 then cs[0] else cs[0] + ("/" + JoinPath(cs[1..]))
  }

  lemma {:induction false} JoinCons(c: char, cs: seq<string>)
    requires cs != []
    ensures JoinPath([[c] + cs[0]] + cs[1..]) == [c] + JoinPath(cs)
  {
    var ds := [[c] + cs[0]] + cs[1..];
    assert ds[1..] == cs[1..];
  }

  lemma {:induction false} JoinComponents(s: string)
    ensures JoinPath(Components(s)) == s
  {
    if s != "" {
      JoinComponents(s[1..]);
      if s[0] == '/' {
        assert ([""] + Components(s[1..]))[1..] == Components(s[1..]);
      } else {
        JoinCons(s[0], Components(s[1..]));
      }
    }
  }

  lemma {:induction false} ComponentsSlash(s: string)
    ensures Components("/" + s) == [""] + Components(s)
  {
    assert ("/" + s)[1..] == s;
  }

  lemma {:induction false} ComponentsChar(c: char, s: string)
    requires c != '/'
    ensures Components([c] + s) == [[c] + Components(s)[0]] + Components(s)[1..]
  {
    assert ([c] + s)[1..] == s;
  }

  lemma ExtendFirst(c: char, cs: seq<string>, ds: seq<string>)
    requires cs != []
    ensures [[c] + (cs + ds)[0]] + (cs + ds)[1..] == [[c] + cs[0]] + cs[1..] + ds
  {}

  /** A slash separates the components before it from those after it. */
  lemma {:induction false} ComponentsJoin(a: string, b: string)
    ensures Components(a + ("/" + b)) == Components(a) + Components(b)
  {
    if a == "" {
      assert a + ("/" + b) == "/" + b;
      ComponentsSlash(b);
    } else {
      var c, t := a[0], a[1..];
      assert a == [c] + t && a + ("/" + b) == [c] + (t + ("/" + b));
      ComponentsJoin(t, b);
      if c == '/' {
        ComponentsSlash(t);
        ComponentsSlash(t + ("/" + b));
      } else {
        ComponentsChar(c, t);
        ComponentsChar(c, t + ("/" + b));
        ExtendFirst(c, Components(t), Components(b));
      }
    }
  }

  lemma {:induction false} JoinAppend(cs: seq<string>, ds: seq<string>)
    requires cs != [] && ds != []
    ensures JoinPath(cs + ds) == JoinPath(cs) + ("/" + JoinPath(ds))
  {
    assert (cs + ds)[1..] == cs[1..] + ds;
    if |cs| == 1 {
      assert cs[1..] + ds == ds;
    } else {
      JoinAppend(cs[1..], ds);
    }
  }

  /** A file is in a directory exactly when the directory's path components begin its own. */
  lemma {:induction false} InDirExact(dir: string, file: string)
    ensures InDir(dir, file) <==> Components(dir) <= Components(file)
  {
    if dir + "/" <= file {
      var rest := file[|dir| + 1..];
      assert file == dir + ("/" + rest);
      ComponentsJoin(dir, rest);
    }
    if Components(dir) <= Components(file) {
      var n := |Components(dir)|;
      JoinComponents(dir);
      JoinComponents(file);
      if n < |Components(file)| {
        assert Components(file) == Components(dir) + Components(file)[n..];
        JoinAppend(Components(dir), Components(file)[n..]);
      } else {
        assert Components(file) == Components(dir);
      }
    }
  }

  /** Everything below a directory matches, a sibling with a longer name does not, and being below is transitive. */
  lemma {:induction false} DirectoryFacts(dir: string, rest: string, file: string)
    ensures InDir(dir, dir) && InDir(dir, dir + ("/" + rest))
    ensures rest != "" && rest[0] != '/' ==> !InDir(dir, dir + rest)
    ensures InDir(dir, rest) && InDir(rest, file) ==> InDir(dir, file)
  {
    assert dir + "/" <= dir + ("/" + rest);
    if rest != "" && rest[0] != '/' {
      assert (dir + rest)[|dir|] == rest[0];
    }
    InDirExact(dir, rest);
    InDirExact(rest, file);
    InDirExact(dir, file);
  }
}
