/** Overriding uv flags (`_override_uv_flags` and `_flatten_flags` in ray/ci/raydepsets/cli.py). */
module UvFlags {
  import opened Seqs
  import opened Text

  /** First word of a flag such as "--index-strategy first-index". */
  function HeadWord(f: string): string
    requires StartsWith(f, "--")
  {
    assert f[0] == '-';
    Split(f)[0]
  }

  function FlagNames(flags: seq<string>): set<string> {
    set f | f in flags && StartsWith(f, "--") :: HeadWord(f)
  }

  function FlattenFlags(flags: seq<string>): seq<string> {
    Concat(Map(Split, flags))
  }

  /** Arguments that survive; with `skip` the first one is taken for the value of a dropped flag. */
  function Kept(args: seq<string>, names: set<string>, skip: bool): seq<string> {
    if args == [] then []
    else if skip then Kept(args[1..], names, false)
    else if args[0] in names then Kept(args[1..], names, true)
    else [args[0]] + Kept(args[1..], names, false)
  }

  lemma KeptStep(args: seq<string>, names: set<string>, skip: bool)
    requires args != []
    ensures Kept(args, names, skip)
         == (if skip || args[0] in names then [] else [args[0]]) + Kept(args[1..], names, !skip && args[0] in names)
  {}

  /** The loop with `skip_next`. */
  method DropOverridden(names: set<string>, args: seq<string>) returns (newArgs: seq<string>)
    ensures newArgs == Kept(args, names, false)
  {
    newArgs := [];
    var skipNext := false;
    for i := 0 to |args|
      invariant newArgs + Kept(args[i..], names, skipNext) == Kept(args, names, false)
    {
      KeptStep(args[i..], names, skipNext);
      assert args[i..][1..] == args[i + 1..];
      if skipNext {
        skipNext := false;
      } else if args[i] in names {
        skipNext := true;
      } else {
        newArgs := newArgs + [args[i]];
      }
    }
  }

  method OverrideUvFlags(flags: seq<string>, args: seq<string>) returns (r: seq<string>)
    ensures r == Kept(args, FlagNames(flags), false) + FlattenFlags(flags)
  {
    var newArgs := DropOverridden(FlagNames(flags), args);
    r := newArgs + FlattenFlags(flags);
  }

  /** No surviving argument is the name of an overridden flag, whatever the arguments were. */
  lemma {:induction false} KeptNoNames(args: seq<string>, names: set<string>, skip: bool)
    ensures forall x :: x in Kept(args, names, skip) ==> x in args && x !in names
  {
    if args != [] {
      KeptNoNames(args[1..], names, !skip && args[0] in names);
    }
  }

  // ----- Argument lists as flags -----

  /** A flag with or without a value; a positional argument has no value either. */
  datatype Item = Item(name: string, value: Option<string>)

  function Tokens(item: Item): seq<string> {
    match item.value
    case None => [item.name]
    case Some(v) => [item.name, v]
  }

  function AllTokens(items: seq<Item>): seq<string> {
    if items == [] then [] else Tokens(items[0]) + AllTokens(items[1..])
  }

  /** Which tokens `Kept` keeps. */
  function KeepMask(args: seq<string>, names: set<string>, skip: bool): seq<bool> {
    if args == [] then []
    else if skip then [false] + KeepMask(args[1..], names, false)
    else if args[0] in names then [false] + KeepMask(args[1..], names, true)
    else [true] + KeepMask(args[1..], names, false)
  }

  /** Which tokens should be kept: all of an item that is not overridden, none of one that is. */
  function IntendedMask(items: seq<Item>, names: set<string>): seq<bool> {
    if items == [] then []
    else ItemMask(items[0], names) + IntendedMask(items[1..], names)
  }

  function Select(args: seq<string>, mask: seq<bool>): seq<string>
    requires |args| == |mask|
  {
    if args == [] then [] else (if mask[0] then [args[0]] else []) + Select(args[1..], mask[1..])
  }

  lemma {:induction false} KeptIsSelected(args: seq<string>, names: set<string>, skip: bool)
    ensures |KeepMask(args, names, skip)| == |args|
    ensures Kept(args, names, skip) == Select(args, KeepMask(args, names, skip))
  {
    if args != [] {
      KeptIsSelected(args[1..], names, !skip && args[0] in names);
    }
  }

  /**
   * When the code drops the right tokens. It takes the token after an overridden flag for its value, so
   * a `lone` overridden flag must be followed by another one to drop, whose value, if any, is again taken
   * for an overridden flag. A flag that stays must not have a value that looks like an overridden flag.
   */
  predicate Aligned(items: seq<Item>, names: set<string>, lone: bool) {
    if items == [] then true
    else if lone then
      items[0].name in names && (items[0].value.Some? ==> items[0].value.value in names)
      && Aligned(items[1..], names, items[0].value.Some?)
    else if items[0].value.Some? then
      (items[0].name in names || items[0].value.value !in names) && Aligned(items[1..], names, false)
    else Aligned(items[1..], names, items[0].name in names)
  }

  /** Whether the next token is skipped after `args`. */
  function SkipsAfter(args: seq<string>, names: set<string>, skip: bool): bool {
    if args == [] then skip else SkipsAfter(args[1..], names, !skip && args[0] in names)
  }

  lemma {:induction false} MaskAppend(a: seq<string>, b: seq<string>, names: set<string>, skip: bool)
    ensures |KeepMask(a, names, skip)| == |a|
    ensures KeepMask(a + b, names, skip) == KeepMask(a, names, skip) + KeepMask(b, names, SkipsAfter(a, names, skip))
  {
    if a == [] {
      assert a + b == b;
    } else {
      assert (a + b)[1..] == a[1..] + b;
      MaskAppend(a[1..], b, names, !skip && a[0] in names);
    }
  }

  function ItemMask(x: Item, names: set<string>): seq<bool> {
    var keep := x.name !in names;
    if x.value.Some? then [keep, keep] else [keep]
  }

  /** One item: whether its tokens are treated as intended, and what that does to the next item. */
  lemma {:induction false} ItemExact(x: Item, names: set<string>, lone: bool)
    ensures KeepMask(Tokens(x), names, lone) == ItemMask(x, names) <==>
            if lone then x.name in names && (x.value.Some? ==> x.value.value in names)
            else x.value.Some? ==> x.name in names || x.value.value !in names
    ensures KeepMask(Tokens(x), names, lone) == ItemMask(x, names) ==>
              SkipsAfter(Tokens(x), names, lone) == if lone then x.value.Some? else x.value.None? && x.name in names
  {
    var tokens := Tokens(x);
    if x.value.Some? {
      var v := x.value.value;
      assert tokens[1..] == [v] && [v][1..] == [];
      var first := !lone && x.name !in names;
      var skip := !lone && x.name in names;
      assert KeepMask([v], names, skip) == [!skip && v !in names];
      assert SkipsAfter(tokens, names, lone) == SkipsAfter([v], names, skip) == (!skip && v in names);
      assert KeepMask(tokens, names, lone) == [first, !skip && v !in names];
      assert KeepMask(tokens, names, lone)[0] == first && KeepMask(tokens, names, lone)[1] == (!skip && v !in names);
    } else {
      assert tokens[1..] == [];
      assert KeepMask(tokens, names, lone) == [!lone && x.name !in names];
    }
  }

  lemma {:induction false} SplitMasks(p: seq<bool>, q: seq<bool>, a: seq<bool>, b: seq<bool>)
    requires |p| == |q|
    ensures p + a == q + b <==> p == q && a == b
  {
    if p + a == q + b {
      assert p == (p + a)[..|p|] == (q + b)[..|q|] == q;
      assert a == (p + a)[|p|..] == (q + b)[|q|..] == b;
    }
  }

  /** The code drops exactly the tokens of the overridden items if and only if the items are aligned. */
  lemma {:induction false} OverrideExact(items: seq<Item>, names: set<string>, lone: bool)
    ensures KeepMask(AllTokens(items), names, lone) == IntendedMask(items, names) <==> Aligned(items, names, lone)
  {
    if items != [] {
      var x, rest := items[0], items[1..];
      var after := SkipsAfter(Tokens(x), names, lone);
      OverrideExact(rest, names, after);
      MaskAppend(Tokens(x), AllTokens(rest), names, lone);
      ItemExact(x, names, lone);
      SplitMasks(KeepMask(Tokens(x), names, lone), ItemMask(x, names),
                 KeepMask(AllTokens(rest), names, after), IntendedMask(rest, names));
    }
  }

  // ----- What the result means -----

  function NotNamed(names: set<string>): Item -> bool {
    (x: Item) => x.name !in names
  }

  lemma {:induction false} IntendedIsFilter(items: seq<Item>, names: set<string>)
    ensures |IntendedMask(items, names)| == |AllTokens(items)|
    ensures Select(AllTokens(items), IntendedMask(items, names)) == AllTokens(Filter(NotNamed(names), items))
  {
    if items != [] {
      IntendedIsFilter(items[1..], names);
      var keep := items[0].name !in names;
      var kept := if keep then [items[0]] else [];
      AllTokensAppend(kept, Filter(NotNamed(names), items[1..]));
      SelectAppend(Tokens(items[0]), ItemMask(items[0], names), AllTokens(items[1..]), IntendedMask(items[1..], names));
      assert AllTokens([]) == [] && (keep ==> AllTokens(kept) == Tokens(items[0]));
    }
  }

  lemma {:induction false} AllTokensAppend(a: seq<Item>, b: seq<Item>)
    ensures AllTokens(a + b) == AllTokens(a) + AllTokens(b)
  {
    if a == [] {
      assert a + b == b;
    } else {
      AllTokensAppend(a[1..], b);
      assert (a + b)[1..] == a[1..] + b;
      AppendAssociates(Tokens(a[0]), AllTokens(a[1..]), AllTokens(b));
    }
  }

  lemma AppendAssociates(a: seq<string>, b: seq<string>, c: seq<string>)
    ensures a + (b + c) == (a + b) + c
  {}

  lemma {:induction false} SelectAppend(a: seq<string>, m: seq<bool>, b: seq<string>, n: seq<bool>)
    requires |a| == |m| && |b| == |n|
    ensures Select(a + b, m + n) == Select(a, m) + Select(b, n)
  {
    if a == [] {
      assert a + b == b && m + n == n;
    } else {
      assert (a + b)[1..] == a[1..] + b && (m + n)[1..] == m[1..] + n;
      SelectAppend(a[1..], m[1..], b, n);
    }
  }

  /** Flag values, the last occurrence winning. */
  function Meaning(items: seq<Item>): map<string, Option<string>> {
    if items == [] then map[] else Meaning(items[..|items| - 1])[items[|items| - 1].name := items[|items| - 1].value]
  }

  lemma {:induction false} MeaningAppend(a: seq<Item>, b: seq<Item>)
    ensures Meaning(a + b) == Meaning(a) + Meaning(b)
  {
    if b == [] {
      assert a + b == a;
    } else {
      MeaningAppend(a, b[..|b| - 1]);
      assert (a + b)[..|a + b| - 1] == a + b[..|b| - 1];
    }
  }

  lemma {:induction false} MeaningKeys(items: seq<Item>, n: string)
    ensures n in Meaning(items) <==> exists i :: 0 <= i < |items| && items[i].name == n
  {
    if items != [] {
      var init := items[..|items| - 1];
      MeaningKeys(init, n);
      if i :| 0 <= i < |init| && init[i].name == n {
        assert items[i].name == n;
      }
    }
  }

  lemma {:induction false} MeaningSnoc(items: seq<Item>, x: Item)
    ensures Meaning(items + [x]) == Meaning(items)[x.name := x.value]
  {
    assert (items + [x])[..|items|] == items;
  }

  lemma UpdateOutside(m: map<string, Option<string>>, k: string, v: Option<string>, names: set<string>)
    ensures m[k := v] - names == if k in names then m - names else (m - names)[k := v]
  {}

  lemma {:induction false} FilterSnoc(items: seq<Item>, x: Item, names: set<string>)
    ensures Filter(NotNamed(names), items + [x])
         == Filter(NotNamed(names), items) + if x.name in names then [] else [x]
  {
    FilterAppend(NotNamed(names), items, [x]);
  }

  lemma {:induction false} MeaningFilter(items: seq<Item>, names: set<string>)
    ensures Meaning(Filter(NotNamed(names), items)) == Meaning(items) - names
  {
    if items != [] {
      var init, x := items[..|items| - 1], items[|items| - 1];
      assert items == init + [x];
      MeaningFilter(init, names);
      FilterSnoc(init, x, names);
      MeaningSnoc(init, x);
      UpdateOutside(Meaning(init), x.name, x.value, names);
      var others := Filter(NotNamed(names), init);
      if x.name in names {
        assert others + [] == others;
      } else {
        MeaningSnoc(others, x);
      }
    }
  }

  function ItemName(x: Item): string { x.name }

  /** How an override is written in a configuration file: name and value separated by a space. */
  function Written(x: Item): string {
    Join(Tokens(x))
  }

  predicate IsOverride(x: Item) {
    IsWord(x.name) && StartsWith(x.name, "--") && (x.value.Some? ==> IsWord(x.value.value))
  }

  ghost predicate AllOverrides(overrides: seq<Item>) {
    forall i :: 0 <= i < |overrides| ==> IsOverride(overrides[i])
  }

  lemma {:induction false} WrittenFacts(x: Item)
    requires IsOverride(x)
    ensures Split(Written(x)) == Tokens(x) && StartsWith(Written(x), "--") && HeadWord(Written(x)) == x.name
  {
    SplitJoin(Tokens(x));
    assert x.name <= Written(x);
  }

  lemma {:induction false} WrittenAll(overrides: seq<Item>)
    requires AllOverrides(overrides)
    ensures FlattenFlags(Map(Written, overrides)) == AllTokens(overrides)
  {
    if overrides != [] {
      WrittenAll(overrides[1..]);
      WrittenFacts(overrides[0]);
      var flags := Map(Written, overrides);
      assert flags[1..] == Map(Written, overrides[1..]);
      assert Map(Split, flags)[1..] == Map(Split, flags[1..]);
    }
  }

  lemma {:induction false} WrittenNames(overrides: seq<Item>)
    requires AllOverrides(overrides)
    ensures FlagNames(Map(Written, overrides)) == Elements(Map(ItemName, overrides))
  {
    var flags := Map(Written, overrides);
    forall n | n in FlagNames(flags) ensures n in Map(ItemName, overrides) {
      var f :| f in flags && StartsWith(f, "--") && HeadWord(f) == n;
      var i :| 0 <= i < |flags| && flags[i] == f;
      WrittenFacts(overrides[i]);
      assert Map(ItemName, overrides)[i] == n;
    }
    forall n | n in Map(ItemName, overrides) ensures n in FlagNames(flags) {
      var i :| 0 <= i < |overrides| && overrides[i].name == n;
      WrittenFacts(overrides[i]);
      assert flags[i] in flags;
    }
  }

  /** The items of `items` that no override names. */
  function Others(items: seq<Item>, overrides: seq<Item>): seq<Item> {
    Filter(NotNamed(FlagNames(Map(Written, overrides))), items)
  }

  /** On aligned arguments, exactly the overridden items go, and the overrides follow the rest. */
  lemma {:induction false} OverrideTokens(items: seq<Item>, overrides: seq<Item>)
    requires AllOverrides(overrides)
    requires Aligned(items, Elements(Map(ItemName, overrides)), false)
    ensures Kept(AllTokens(items), FlagNames(Map(Written, overrides)), false) + FlattenFlags(Map(Written, overrides))
         == AllTokens(Others(items, overrides) + overrides)
  {
    WrittenNames(overrides);
    WrittenAll(overrides);
    KeptOthers(items, FlagNames(Map(Written, overrides)));
    AllTokensAppend(Others(items, overrides), overrides);
  }

  /** That argument list denotes the original flags updated with the overrides. */
  lemma {:induction false} OverrideMeaning(items: seq<Item>, overrides: seq<Item>)
    requires AllOverrides(overrides)
    ensures Meaning(Others(items, overrides) + overrides) == Meaning(items) + Meaning(overrides)
  {
    var names := FlagNames(Map(Written, overrides));
    WrittenNames(overrides);
    OverriddenKeys(overrides);
    MeaningAppend(Others(items, overrides), overrides);
    MeaningFilter(items, names);
    Overlay(Meaning(items), Meaning(overrides));
  }

  lemma Overlay(a: map<string, Option<string>>, b: map<string, Option<string>>)
    ensures a - b.Keys + b == a + b
  {}

  lemma {:induction false} KeptOthers(items: seq<Item>, names: set<string>)
    requires Aligned(items, names, false)
    ensures Kept(AllTokens(items), names, false) == AllTokens(Filter(NotNamed(names), items))
  {
    OverrideExact(items, names, false);
    KeptIsSelected(AllTokens(items), names, false);
    IntendedIsFilter(items, names);
  }

  lemma {:induction false} OverriddenKeys(overrides: seq<Item>)
    ensures Elements(Map(ItemName, overrides)) == Meaning(overrides).Keys
  {
    forall n ensures n in Map(ItemName, overrides) <==> n in Meaning(overrides) {
      MeaningKeys(overrides, n);
      if i :| 0 <= i < |overrides| && overrides[i].name == n {
        assert Map(ItemName, overrides)[i] == n;
      }
    }
  }

  lemma {:induction false} KeptWithout(args: seq<string>, n: string)
    requires n !in args
    ensures Kept(args, {n}, false) == args
  {
    if args != [] {
      assert args[0] in args;
      KeptWithout(args[1..], n);
    }
  }

  /** A dropped flag takes the argument after it along. */
  lemma {:induction false} KeptAfterFirst(args: seq<string>, n: string)
    requires |args| > 1 && args[0] == n && n !in args[2..]
    ensures Kept(args, {n}, false) == args[2..]
  {
    KeptWithout(args[2..], n);
    assert args[1..][1..] == args[2..];
  }

  lemma {:induction false} SingleSwitch(w: string)
    requires IsWord(w) && StartsWith(w, "--")
    ensures FlagNames([w]) == {w} && FlattenFlags([w]) == [w]
  {
    var x := Item(w, None);
    assert Map(Written, [x]) == [w] && Map(ItemName, [x]) == [w];
    WrittenNames([x]);
    WrittenAll([x]);
    assert Elements([w]) == {w};
    assert AllTokens([x]) == [w] by { assert [x][1..] == []; }
  }

  // ----- Which default flags can be overridden -----

  const DEFAULT_UV_FLAGS: seq<string> := [
    "--no-header", "--generate-hashes", "--index-strategy", "unsafe-best-match", "--no-strip-markers",
    "--emit-index-url", "--emit-find-links", "--quiet"]

  function DefaultArgs(includeSetuptools: bool, cacheDir: Option<string>): seq<string> {
    DEFAULT_UV_FLAGS
    + (if includeSetuptools then [] else ["--unsafe-package", "setuptools"])
    + (if cacheDir.Some? then ["--cache-dir", cacheDir.value] else [])
  }

  function Valueless(name: string): Item { Item(name, None) }

  /** The default arguments as flags. */
  function DefaultItems(includeSetuptools: bool, cacheDir: Option<string>): seq<Item> {
    Map(Valueless, DEFAULT_UV_FLAGS[..2]) + [Item("--index-strategy", Some("unsafe-best-match"))]
    + Map(Valueless, DEFAULT_UV_FLAGS[4..])
    + (if includeSetuptools then [] else [Item("--unsafe-package", Some("setuptools"))])
    + (if cacheDir.Some? then [Item("--cache-dir", cacheDir)] else [])
  }

  lemma {:induction false} ValuelessTokens(names: seq<string>)
    ensures AllTokens(Map(Valueless, names)) == names
  {
    if names != [] {
      ValuelessTokens(names[1..]);
      assert Map(Valueless, names)[1..] == Map(Valueless, names[1..]);
    }
  }

  lemma {:induction false} BaseTokens(items: seq<Item>)
    requires items == Map(Valueless, DEFAULT_UV_FLAGS[..2]) + [Item("--index-strategy", Some("unsafe-best-match"))]
                      + Map(Valueless, DEFAULT_UV_FLAGS[4..])
    ensures AllTokens(items) == DEFAULT_UV_FLAGS
  {
    var a, b := Map(Valueless, DEFAULT_UV_FLAGS[..2]), [Item("--index-strategy", Some("unsafe-best-match"))];
    var c := Map(Valueless, DEFAULT_UV_FLAGS[4..]);
    ValuelessTokens(DEFAULT_UV_FLAGS[..2]);
    ValuelessTokens(DEFAULT_UV_FLAGS[4..]);
    AllTokensAppend(a, b);
    AllTokensAppend(a + b, c);
    OneItem(b[0]);
    assert AllTokens(b) == DEFAULT_UV_FLAGS[2..4];
    assert DEFAULT_UV_FLAGS == DEFAULT_UV_FLAGS[..2] + DEFAULT_UV_FLAGS[2..4] + DEFAULT_UV_FLAGS[4..];
  }

  lemma {:induction false} OneItem(x: Item)
    ensures AllTokens([x]) == Tokens(x) && AllTokens([]) == []
  {
    assert [x][1..] == [];
    assert Tokens(x) + [] == Tokens(x);
  }

  lemma {:induction false} DefaultTokens(includeSetuptools: bool, cacheDir: Option<string>)
    ensures AllTokens(DefaultItems(includeSetuptools, cacheDir)) == DefaultArgs(includeSetuptools, cacheDir)
  {
    var items := Map(Valueless, DEFAULT_UV_FLAGS[..2]) + [Item("--index-strategy", Some("unsafe-best-match"))]
                 + Map(Valueless, DEFAULT_UV_FLAGS[4..]);
    var d := if includeSetuptools then [] else [Item("--unsafe-package", Some("setuptools"))];
    var e := if cacheDir.Some? then [Item("--cache-dir", cacheDir)] else [];
    BaseTokens(items);
    AllTokensAppend(items, d);
    AllTokensAppend(items + d, e);
    OneItem(Item("--unsafe-package", Some("setuptools")));
    OneItem(Item("--cache-dir", cacheDir));
  }

  /** Only the last flag named `n` may lack a value, and only a flag named `n` may have the value `n`. */
  predicate Overridable(items: seq<Item>, n: string) {
    forall i :: 0 <= i < |items| ==>
      && (items[i].name == n && items[i].value.None? ==> i == |items| - 1)
      && (items[i].value == Some(n) ==> items[i].name == n)
  }

  ghost predicate NeighboursDiffer(items: seq<Item>) {
    forall i :: 0 < i < |items| ==> items[i - 1].name != items[i].name
  }

  /** Overriding one flag where no flag directly follows itself. */
  lemma {:induction false} OneOverride(items: seq<Item>, n: string)
    requires NeighboursDiffer(items)
    ensures Aligned(items, {n}, false) <==> Overridable(items, n)
  {
    if items != [] {
      var rest := items[1..];
      OneOverride(rest, n);
      assert Overridable(items, n) ==> Overridable(rest, n) by {
        forall i | 0 <= i < |rest| ensures rest[i] == items[i + 1] {}
      }
      if rest != [] && items[0].name == n && items[0].value.None? {
        assert items[1 - 1].name != items[1].name;
        assert items[0].name == n && !Overridable(items, n);
      } else if Overridable(rest, n) {
        forall i | 1 <= i < |items| ensures items[i] == rest[i - 1] {}
      }
    }
  }

  /** Defaults without a value that something always follows. */
  const SWALLOWING: seq<string> := DEFAULT_UV_FLAGS[..2] + DEFAULT_UV_FLAGS[4..7]

  lemma {:induction false} DefaultItemAt(includeSetuptools: bool, cacheDir: Option<string>, i: nat)
    requires i < |DefaultItems(includeSetuptools, cacheDir)|
    ensures var items := DefaultItems(includeSetuptools, cacheDir);
            && |items| == 7 + (if includeSetuptools then 0 else 1) + (if cacheDir.Some? then 1 else 0)
            && items[i] == if i < 2 then Valueless(SWALLOWING[i])
                           else if i == 2 then Item("--index-strategy", Some("unsafe-best-match"))
                           else if i < 6 then Valueless(SWALLOWING[i - 1])
                           else if i == 6 then Valueless("--quiet")
                           else if i == 7 && !includeSetuptools then Item("--unsafe-package", Some("setuptools"))
                           else Item("--cache-dir", cacheDir)
  {}

  lemma {:induction false} SwallowingDistinct(k: nat)
    requires k < 4
    ensures |SWALLOWING| == 5 && SWALLOWING[k] != SWALLOWING[k + 1]
    ensures SWALLOWING[k] !in ["--index-strategy", "--quiet"] && SWALLOWING[4] != "--quiet"
  {
    assert SWALLOWING == ["--no-header", "--generate-hashes", "--no-strip-markers", "--emit-index-url",
                          "--emit-find-links"];
    assert "--no-header"[5] != "--generate-hashes"[5] && "--generate-hashes"[2] != "--no-strip-markers"[2];
  }

  lemma {:induction false} DefaultNeighbours(includeSetuptools: bool, cacheDir: Option<string>)
    ensures NeighboursDiffer(DefaultItems(includeSetuptools, cacheDir))
  {
    var items := DefaultItems(includeSetuptools, cacheDir);
    forall i | 0 < i < |items| ensures items[i - 1].name != items[i].name {
      DefaultItemAt(includeSetuptools, cacheDir, i - 1);
      DefaultItemAt(includeSetuptools, cacheDir, i);
      SwallowingDistinct(if i < 3 then i - 1 else if i < 6 then i - 2 else 0);
    }
  }

  /** The exact condition for overriding the flag `n` of the default arguments. */
  predicate SafeDefault(n: string, includeSetuptools: bool, cacheDir: Option<string>) {
    && n !in SWALLOWING
    && (n == "--quiet" ==> includeSetuptools && cacheDir.None?)
    && (cacheDir == Some(n) ==> n == "--cache-dir")
  }

  lemma {:induction false} SafeIsOverridable(n: string, includeSetuptools: bool, cacheDir: Option<string>)
    requires StartsWith(n, "--") && SafeDefault(n, includeSetuptools, cacheDir)
    ensures Overridable(DefaultItems(includeSetuptools, cacheDir), n)
  {
    var items := DefaultItems(includeSetuptools, cacheDir);
    assert n[0] == '-' && n != "unsafe-best-match" && n != "setuptools" by { assert "--"[0] == '-'; }
    forall i | 0 <= i < |items|
      ensures items[i].name == n && items[i].value.None? ==> i == |items| - 1
      ensures items[i].value == Some(n) ==> items[i].name == n
    {
      DefaultItemAt(includeSetuptools, cacheDir, i);
      if i < 6 && i != 2 { assert SWALLOWING[if i < 2 then i else i - 1] != n; }
    }
  }

  lemma {:induction false} OverridableIsSafe(n: string, includeSetuptools: bool, cacheDir: Option<string>)
    requires Overridable(DefaultItems(includeSetuptools, cacheDir), n)
    ensures SafeDefault(n, includeSetuptools, cacheDir)
  {
    var items := DefaultItems(includeSetuptools, cacheDir);
    DefaultItemAt(includeSetuptools, cacheDir, 6);
    DefaultItemAt(includeSetuptools, cacheDir, |items| - 1);
    forall k | 0 <= k < |SWALLOWING| ensures SWALLOWING[k] != n {
      DefaultItemAt(includeSetuptools, cacheDir, if k < 2 then k else k + 1);
    }
  }

  /**
   * Overriding one flag of the default arguments drops the right tokens if and only if it is not one of
   * the defaults without a value, except a final `--quiet`, and not the name of the cache directory.
   */
  lemma {:induction false} DefaultOverride(n: string, includeSetuptools: bool, cacheDir: Option<string>)
    requires StartsWith(n, "--")
    ensures KeepMask(DefaultArgs(includeSetuptools, cacheDir), {n}, false)
            == IntendedMask(DefaultItems(includeSetuptools, cacheDir), {n})
       <==> SafeDefault(n, includeSetuptools, cacheDir)
  {
    var items := DefaultItems(includeSetuptools, cacheDir);
    DefaultTokens(includeSetuptools, cacheDir);
    OverrideExact(items, {n}, false);
    DefaultNeighbours(includeSetuptools, cacheDir);
    OneOverride(items, n);
    if SafeDefault(n, includeSetuptools, cacheDir) {
      SafeIsOverridable(n, includeSetuptools, cacheDir);
    } else if Overridable(items, n) {
      OverridableIsSafe(n, includeSetuptools, cacheDir);
    }
  }

  lemma {:induction false} NoHeaderOnce(includeSetuptools: bool, cacheDir: Option<string>)
    requires cacheDir != Some("--no-header")
    ensures |DefaultArgs(includeSetuptools, cacheDir)| > 1
    ensures DefaultArgs(includeSetuptools, cacheDir)[..2] == ["--no-header", "--generate-hashes"]
    ensures "--no-header" !in DefaultArgs(includeSetuptools, cacheDir)[2..]
  {
    var more := (if includeSetuptools then [] else ["--unsafe-package", "setuptools"])
                + if cacheDir.Some? then ["--cache-dir", cacheDir.value] else [];
    assert DefaultArgs(includeSetuptools, cacheDir)[2..] == DEFAULT_UV_FLAGS[2..] + more;
    assert "--no-header" !in more;
    assert "--no-header" !in DEFAULT_UV_FLAGS[2..];
  }

  /** An overridden switch at the head of the arguments takes the next one along. */
  lemma {:induction false} SwitchSwallows(args: seq<string>, w: string)
    requires IsWord(w) && StartsWith(w, "--") && |args| > 1 && args[0] == w && w !in args[2..]
    ensures Kept(args, FlagNames([w]), false) + FlattenFlags([w]) == args[2..] + [w]
  {
    SingleSwitch(w);
    KeptAfterFirst(args, w);
  }

  /** Overrides that are no long options drop nothing. */
  lemma {:induction false} OthersDropNothing(args: seq<string>, flags: seq<string>)
    requires forall i :: 0 <= i < |flags| ==> !StartsWith(flags[i], "--")
    ensures Kept(args, FlagNames(flags), false) == args
  {
    assert FlagNames(flags) == {};
    KeptAll(args);
  }

  lemma {:induction false} KeptAll(args: seq<string>)
    ensures Kept(args, {}, false) == args
  {
    if args != [] {
      KeptAll(args[1..]);
      assert args == [args[0]] + args[1..];
    }
  }
}
