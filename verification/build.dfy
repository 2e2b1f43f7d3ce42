/** Tree construction (`Region.from_parse_results`,
    `_parse_params_from_results`, `_parse_mods_from_results`), over an
    abstract view of the parse results: for each top-level mod, the code reads
    its identifier and parameter groups, and, for each of the three nesting
    levels, the list of inner mod groups and the identifier list, always from
    the OUTER mod's dict. Levels past the third are never read. */
module Build {
  import opened Wrappers
  import opened Errors
  import opened Text
  import opened Params
  import opened Mods
  import opened Regions

  /** A `*_params` / `*_params_additional` pair; either group may be absent. */
  datatype Groups = Groups(params: Option<seq<Token>>, extra: Option<seq<Token>>)

  /** What the outer mod dict says about one nesting level: the
      `inner_mod_N` list (absent or a list of groups) and the
      `inner_mod_N_identifier` list (empty when absent). */
  datatype Level = Level(mods: Option<seq<Groups>>, identifiers: seq<string>)

  /** One top-level `mod` entry: `mod_identifier`, its own groups, and the
      nesting levels 1, 2, 3, ... as seen from this dict. */
  datatype ModDict = ModDict(identifiers: seq<string>, own: Groups, levels: seq<Level>)

  /** The parse results: the region's parameter tokens and the mod entries. */
  datatype ParseResults = ParseResults(regionParams: seq<Token>, mods: seq<ModDict>)

  /** The deepest nesting level the code reads. */
  const MaxDepth := 3

  /** `{}.update(_parse_params(tokens))` when the group is present, else `{}`. */
  function ParseGroup(tokens: Option<seq<Token>>): Table {
    match tokens
    case Some(ts) => ParseParams(ts)
    case None => []
  }

  /** The inner groups the code iterates at level `depth` (none past the
      third level or when the list is absent). */
  function LevelGroups(node: ModDict, depth: nat): seq<Groups> {
    if depth < 1 || depth > MaxDepth || depth > |node.levels| || node.levels[depth - 1].mods.None? then []
    else node.levels[depth - 1].mods.value
  }

  /** Every level the construction reaches with a non-empty list has an
      identifier to read. */
  predicate IdentifiersAvailable(node: ModDict, depth: nat)
    requires 1 <= depth <= MaxDepth + 1
    decreases MaxDepth + 1 - depth
  {
    || LevelGroups(node, depth) == []
    || (|node.levels[depth - 1].identifiers| > 0 && IdentifiersAvailable(node, depth + 1))
  }

  /** Number of mods the construction creates from level `depth` down, counting
      nested ones: each group at this level gives one mod plus a full copy of
      the next level. */
  function LevelSize(node: ModDict, depth: nat): nat
    requires 1 <= depth <= MaxDepth + 1
    decreases MaxDepth + 1 - depth
  {
    if depth > MaxDepth then 0
    else Copies(|LevelGroups(node, depth)|, 1 + LevelSize(node, depth + 1))
  }

  /** `k * n`, spelled as repeated addition so the verifier need not reason
      about products (see `CopiesIsProduct`). */
  function Copies(k: nat, n: nat): nat {
    if k == 0 then 0 else n + Copies(k - 1, n)
  }

  lemma {:induction false} CopiesIsProduct(k: nat, n: nat)
    ensures Copies(k, n) == k * n
  {
    if k > 0 {
      CopiesIsProduct(k - 1, n);
    }
  }

  /** The shape the construction gives the mods of level `depth`: one per inner
      group, in order. */
  ghost predicate Shaped(node: ModDict, depth: nat, ms: seq<Mod>)
    requires 1 <= depth <= MaxDepth + 1
    decreases MaxDepth + 1 - depth, 2, 0
  {
    ShapedFrom(node, depth, 0, ms)
  }

  /** `ms` are the mods of the level's inner groups from the `start`-th on. */
  ghost predicate ShapedFrom(node: ModDict, depth: nat, start: nat, ms: seq<Mod>)
    requires 1 <= depth <= MaxDepth + 1
    decreases MaxDepth + 1 - depth, 1, |ms|
  {
    var groups := LevelGroups(node, depth);
    if ms == [] then start == |groups|
    else start < |groups| && GroupMod(node, depth, groups[start], ms[0]) && ShapedFrom(node, depth, start + 1, ms[1..])
  }

  /** The mod built from inner group `g` of level `depth`: named by the outer
      dict's first identifier for that level, holding its own group's
      parameters, and containing the whole next level of the outer dict. */
  ghost predicate GroupMod(node: ModDict, depth: nat, g: Groups, m: Mod)
    requires 1 <= depth <= MaxDepth + 1
    decreases MaxDepth + 1 - depth, 0, 0
  {
    && 1 <= depth <= MaxDepth
    && depth <= |node.levels|
    && |node.levels[depth - 1].identifiers| > 0
    && m.identifier == node.levels[depth - 1].identifiers[0]
    && m.params == ParseGroup(g.params)
    && m.extra == ParseGroup(g.extra)
    && Shaped(node, depth + 1, m.contained)
  }

  /** The mods of level `depth`, built from its inner groups; `next` counts the
      mods constructed so far and `ids(k)` is the random tag of the k-th. */
  function BuildContents(node: ModDict, depth: nat, next: nat, ids: nat -> string): (r: Result<(seq<Mod>, nat), Error>)
    requires 1 <= depth <= MaxDepth + 1
    ensures r.Success? <==> IdentifiersAvailable(node, depth)
    ensures r.Success? ==> r.value.1 == next + SizeAll(r.value.0)
    ensures r.Success? ==> SizeAll(r.value.0) == LevelSize(node, depth)
    decreases MaxDepth + 1 - depth, 2, 0
  {
    if LevelGroups(node, depth) == [] then Success(([], next))
    else BuildLevel(node, depth, 0, next, ids)
  }

  /** The loop over one level's inner groups, from the `start`-th on. */
  function BuildLevel(node: ModDict, depth: nat, start: nat, next: nat, ids: nat -> string)
    : (r: Result<(seq<Mod>, nat), Error>)
    requires 1 <= depth <= MaxDepth && depth <= |node.levels|
    requires start <= |LevelGroups(node, depth)|
    ensures r.Success? <==>
      || start == |LevelGroups(node, depth)|
      || (|node.levels[depth - 1].identifiers| > 0 && IdentifiersAvailable(node, depth + 1))
    ensures r.Success? ==> r.value.1 == next + SizeAll(r.value.0)
    ensures r.Success? ==> |r.value.0| == |LevelGroups(node, depth)| - start
    ensures r.Success? ==>
      SizeAll(r.value.0) == Copies(|LevelGroups(node, depth)| - start, 1 + LevelSize(node, depth + 1))
    decreases MaxDepth + 1 - depth, 1, |LevelGroups(node, depth)| - start
  {
    var groups := LevelGroups(node, depth);
    if start == |groups| then Success(([], next))
    else
      var first := BuildGroup(node, depth, groups[start], next, ids);
      if first.Failure? then Failure(first.error)
      else
        var (m, next1) := first.value;
        var others := BuildLevel(node, depth, start + 1, next1, ids);
        // Every iteration reads the same identifiers from the outer dict, so
        // once the first has succeeded the others do too.
        assert others.Success?;
        var (rest, next2) := others.value;
        var built := [m] + rest;
        assert built[0] == m && built[1..] == rest;
        Success((built, next2))
  }

  /** One iteration: read the level's identifier from the outer dict, parse
      the group's parameters, build the next level, then construct the mod
      (drawing its random tag last, after its contents). */
  function BuildGroup(node: ModDict, depth: nat, g: Groups, next: nat, ids: nat -> string)
    : (r: Result<(Mod, nat), Error>)
    requires 1 <= depth <= MaxDepth && depth <= |node.levels|
    ensures r.Success? <==>
      |node.levels[depth - 1].identifiers| > 0 && IdentifiersAvailable(node, depth + 1)
    ensures r.Success? ==> r.value.1 == next + Size(r.value.0)
    ensures r.Success? ==> Size(r.value.0) == 1 + LevelSize(node, depth + 1)
    decreases MaxDepth + 1 - depth, 0, 0
  {
    var identifiers := node.levels[depth - 1].identifiers;
    if |identifiers| == 0 then Failure(MissingIdentifier("inner_mod_" + ShowNat(depth)))
    else
      var params := ParseGroup(g.params);
      var extra := ParseGroup(g.extra);
      var (contents, next1) :- BuildContents(node, depth + 1, next, ids);
      Success((Mod(identifiers[0], ids(next1), params, extra, contents), next1 + 1))
  }

  /** The mods built from level `depth` down have the shape `Shaped` describes. */
  lemma {:induction false} ContentsShape(node: ModDict, depth: nat, next: nat, ids: nat -> string)
    requires 1 <= depth <= MaxDepth + 1
    requires BuildContents(node, depth, next, ids).Success?
    ensures Shaped(node, depth, BuildContents(node, depth, next, ids).value.0)
    decreases MaxDepth + 1 - depth, 2, 0
  {
    if LevelGroups(node, depth) != [] {
      LevelShape(node, depth, 0, next, ids);
    }
  }

  lemma {:induction false} LevelShape(node: ModDict, depth: nat, start: nat, next: nat, ids: nat -> string)
    requires 1 <= depth <= MaxDepth && depth <= |node.levels|
    requires start <= |LevelGroups(node, depth)|
    requires BuildLevel(node, depth, start, next, ids).Success?
    ensures ShapedFrom(node, depth, start, BuildLevel(node, depth, start, next, ids).value.0)
    decreases MaxDepth + 1 - depth, 1, |LevelGroups(node, depth)| - start
  {
    var groups := LevelGroups(node, depth);
    if start < |groups| {
      var ms := BuildLevel(node, depth, start, next, ids).value.0;
      var (m, next1) := BuildGroup(node, depth, groups[start], next, ids).value;
      GroupShape(node, depth, groups[start], next, ids);
      LevelShape(node, depth, start + 1, next1, ids);
      var rest := BuildLevel(node, depth, start + 1, next1, ids).value.0;
      assert ms == [m] + rest;
      assert ms[0] == m && ms[1..] == rest;
    }
  }

  lemma {:induction false} GroupShape(node: ModDict, depth: nat, g: Groups, next: nat, ids: nat -> string)
    requires 1 <= depth <= MaxDepth && depth <= |node.levels|
    requires BuildGroup(node, depth, g, next, ids).Success?
    ensures GroupMod(node, depth, g, BuildGroup(node, depth, g, next, ids).value.0)
    decreases MaxDepth + 1 - depth, 0, 0
  {
    ContentsShape(node, depth + 1, next, ids);
  }

  /** With n1, n2, n3 inner groups on the three levels, a top-level mod
      contains n1 * (1 + n2 * (1 + n3)) mods: every level-1 mod gets all n2
      level-2 mods, each of which gets all n3 level-3 mods. */
  lemma ContentsSizeFormula(node: ModDict)
    ensures var n1 := |LevelGroups(node, 1)|;
      var n2 := |LevelGroups(node, 2)|;
      var n3 := |LevelGroups(node, 3)|;
      LevelSize(node, 1) == n1 * (1 + n2 * (1 + n3))
  {
    var n1 := |LevelGroups(node, 1)|;
    var n2 := |LevelGroups(node, 2)|;
    var n3 := |LevelGroups(node, 3)|;
    assert LevelSize(node, 4) == 0;
    CopiesIsProduct(n3, 1);
    assert LevelSize(node, 3) == n3;
    CopiesIsProduct(n2, 1 + n3);
    assert LevelSize(node, 2) == n2 * (1 + n3);
    CopiesIsProduct(n1, 1 + n2 * (1 + n3));
  }

  /** Height of a mod tree: 1 for a mod that contains nothing. */
  function Height(m: Mod): nat
    decreases m
  {
    1 + HeightAll(m.contained)
  }

  function HeightAll(ms: seq<Mod>): nat
    decreases ms
  {
    if ms == [] then 0
    else
      var h := Height(ms[0]);
      var rest := HeightAll(ms[1..]);
      if h < rest then rest else h
  }

  /** Nesting is bounded: the mods of level `depth` are at most
      `MaxDepth + 1 - depth` levels high, so deeper levels are never built. */
  lemma {:induction false} ShapedHeight(node: ModDict, depth: nat, start: nat, ms: seq<Mod>)
    requires 1 <= depth <= MaxDepth + 1
    requires ShapedFrom(node, depth, start, ms)
    ensures HeightAll(ms) <= MaxDepth + 1 - depth
    decreases MaxDepth + 1 - depth, |ms|
  {
    if ms != [] {
      assert GroupMod(node, depth, LevelGroups(node, depth)[start], ms[0]);
      assert Shaped(node, depth + 1, ms[0].contained);
      ShapedHeight(node, depth + 1, 0, ms[0].contained);
      ShapedHeight(node, depth, start + 1, ms[1..]);
    }
  }

  // ---------------------------------------------------------------------------
  // Top level

  /** One top-level mod: its identifier, its groups, then levels 1 to 3. */
  function BuildTop(node: ModDict, next: nat, ids: nat -> string): (r: Result<(Mod, nat), Error>)
    ensures r.Success? <==> |node.identifiers| > 0 && IdentifiersAvailable(node, 1)
    ensures r.Success? ==> r.value.1 == next + Size(r.value.0)
    ensures r.Success? ==> Size(r.value.0) == 1 + LevelSize(node, 1)
  {
    if |node.identifiers| == 0 then Failure(MissingIdentifier("mod"))
    else
      var params := ParseGroup(node.own.params);
      var extra := ParseGroup(node.own.extra);
      var (contents, next1) :- BuildContents(node, 1, next, ids);
      Success((Mod(node.identifiers[0], ids(next1), params, extra, contents), next1 + 1))
  }

  /** The mod built from top-level entry `node`: named by the entry's own
      identifier, holding its own groups, and containing level 1 of the
      entry. */
  ghost predicate TopMod(node: ModDict, m: Mod) {
    && |node.identifiers| > 0
    && m.identifier == node.identifiers[0]
    && m.params == ParseGroup(node.own.params)
    && m.extra == ParseGroup(node.own.extra)
    && Shaped(node, 1, m.contained)
  }

  /** A top-level mod as built: shaped by its entry, at most four levels high. */
  ghost predicate TopTree(node: ModDict, m: Mod) {
    TopMod(node, m) && Height(m) <= MaxDepth + 1
  }

  lemma TopShape(node: ModDict, next: nat, ids: nat -> string)
    requires BuildTop(node, next, ids).Success?
    ensures TopTree(node, BuildTop(node, next, ids).value.0)
  {
    ContentsShape(node, 1, next, ids);
    ShapedHeight(node, 1, 0, BuildTop(node, next, ids).value.0.contained);
  }

  predicate TopBuildable(node: ModDict) {
    |node.identifiers| > 0 && IdentifiersAvailable(node, 1)
  }

  /** The loop over the top-level mod entries, from the `start`-th on. */
  function BuildAll(nodes: seq<ModDict>, start: nat, next: nat, ids: nat -> string): (r: Result<(seq<Mod>, nat), Error>)
    requires start <= |nodes|
    ensures r.Success? <==> forall i :: start <= i < |nodes| ==> TopBuildable(nodes[i])
    ensures r.Success? ==> r.value.1 == next + SizeAll(r.value.0)
    ensures r.Success? ==> |r.value.0| == |nodes| - start
    decreases |nodes| - start
  {
    if start == |nodes| then Success(([], next))
    else
      var (m, next1) :- BuildTop(nodes[start], next, ids);
      var (rest, next2) :- BuildAll(nodes, start + 1, next1, ids);
      Success(([m] + rest, next2))
  }

  /** `Region.from_parse_results(name, results)`: the region's parameters, then
      its mods. `ids(k)` is the random tag the k-th constructed mod draws. */
  function FromParseResults(name: string, results: ParseResults, ids: nat -> string): (r: Result<Region, Error>)
    ensures r.Success? <==> forall i :: 0 <= i < |results.mods| ==> TopBuildable(results.mods[i])
    ensures r.Success? ==>
      && r.value.name == name
      && r.value.params == ParseParams(results.regionParams)
      && |r.value.mods| == |results.mods|
  {
    var params := ParseParams(results.regionParams);
    var (mods, _) :- BuildAll(results.mods, 0, 0, ids);
    Success(Region(name, params, mods))
  }

  /** `ms` are the mods of the entries from the `start`-th on, one each. */
  ghost predicate TopTrees(nodes: seq<ModDict>, start: nat, ms: seq<Mod>)
    decreases ms
  {
    if ms == [] then true
    else start < |nodes| && TopTree(nodes[start], ms[0]) && TopTrees(nodes, start + 1, ms[1..])
  }

  lemma {:induction false} TopTreesAt(nodes: seq<ModDict>, start: nat, ms: seq<Mod>, k: nat)
    requires TopTrees(nodes, start, ms)
    requires k < |ms|
    ensures start + k < |nodes| && TopTree(nodes[start + k], ms[k])
    decreases k
  {
    if k > 0 {
      TopTreesAt(nodes, start + 1, ms[1..], k - 1);
    }
  }

  /** Every mod of a built region has the shape of its entry, and no tree is
      more than four levels high. */
  lemma {:induction false} AllShape(nodes: seq<ModDict>, start: nat, next: nat, ids: nat -> string)
    requires start <= |nodes|
    requires BuildAll(nodes, start, next, ids).Success?
    ensures TopTrees(nodes, start, BuildAll(nodes, start, next, ids).value.0)
    decreases |nodes| - start
  {
    if start < |nodes| {
      var (m, next1) := BuildTop(nodes[start], next, ids).value;
      TopShape(nodes[start], next, ids);
      AllShape(nodes, start + 1, next1, ids);
      var rest := BuildAll(nodes, start + 1, next1, ids).value.0;
      var ms := BuildAll(nodes, start, next, ids).value.0;
      assert ms == [m] + rest;
      assert ms[0] == m && ms[1..] == rest;
    }
  }

  // ---------------------------------------------------------------------------
  // Random tags are drawn in output order

  /** The k-th placed mod of `f` carries the tag `ids(next + k)`. */
  ghost predicate IdsFrom(f: seq<Placed>, next: nat, ids: nat -> string)
    decreases |f|
  {
    if f == [] then true
    else f[0].mod.id == ids(next) && IdsFrom(f[1..], next + 1, ids)
  }

  lemma {:induction false} IdsAt(f: seq<Placed>, next: nat, ids: nat -> string, k: nat)
    requires IdsFrom(f, next, ids)
    requires k < |f|
    ensures f[k].mod.id == ids(next + k)
    decreases k
  {
    if k > 0 {
      IdsAt(f[1..], next + 1, ids, k - 1);
    }
  }

  lemma FlattenCons(m: Mod, rest: seq<Mod>, parent: Option<Mod>)
    ensures FlattenAll([m] + rest, parent) == FlattenMod(m, parent) + FlattenAll(rest, parent)
  {
    assert ([m] + rest)[0] == m && ([m] + rest)[1..] == rest;
  }

  lemma {:induction false} ContentsIds(node: ModDict, depth: nat, next: nat, ids: nat -> string, parent: Option<Mod>)
    requires 1 <= depth <= MaxDepth + 1
    requires BuildContents(node, depth, next, ids).Success?
    ensures IdsFrom(FlattenAll(BuildContents(node, depth, next, ids).value.0, parent), next, ids)
    decreases MaxDepth + 1 - depth, 2, 0
  {
    if LevelGroups(node, depth) != [] {
      LevelIds(node, depth, 0, next, ids, parent);
    }
  }

  lemma {:induction false} LevelIds(node: ModDict, depth: nat, start: nat, next: nat, ids: nat -> string, parent: Option<Mod>)
    requires 1 <= depth <= MaxDepth && depth <= |node.levels|
    requires start <= |LevelGroups(node, depth)|
    requires BuildLevel(node, depth, start, next, ids).Success?
    ensures IdsFrom(FlattenAll(BuildLevel(node, depth, start, next, ids).value.0, parent), next, ids)
    decreases MaxDepth + 1 - depth, 1, |LevelGroups(node, depth)| - start
  {
    var groups := LevelGroups(node, depth);
    if start < |groups| {
      var ms := BuildLevel(node, depth, start, next, ids).value.0;
      var first := BuildGroup(node, depth, groups[start], next, ids).value;
      var m := first.0;
      var next1 := first.1;
      LevelCons(node, depth, start, next, ids);
      GroupIds(node, depth, groups[start], next, ids, parent);
      LevelIds(node, depth, start + 1, next1, ids, parent);
      ConsIds(m, BuildLevel(node, depth, start + 1, next1, ids).value.0, parent, next, next1, ids);
    }
  }

  /** One step of the level loop: the first group's mod, then the rest. */
  lemma LevelCons(node: ModDict, depth: nat, start: nat, next: nat, ids: nat -> string)
    requires 1 <= depth <= MaxDepth && depth <= |node.levels|
    requires start < |LevelGroups(node, depth)|
    requires BuildLevel(node, depth, start, next, ids).Success?
    ensures var first := BuildGroup(node, depth, LevelGroups(node, depth)[start], next, ids);
      && first.Success?
      && BuildLevel(node, depth, start + 1, first.value.1, ids).Success?
      && BuildLevel(node, depth, start, next, ids).value.0
         == [first.value.0] + BuildLevel(node, depth, start + 1, first.value.1, ids).value.0
  {
  }

  lemma {:induction false} GroupIds(node: ModDict, depth: nat, g: Groups, next: nat, ids: nat -> string, parent: Option<Mod>)
    requires 1 <= depth <= MaxDepth && depth <= |node.levels|
    requires BuildGroup(node, depth, g, next, ids).Success?
    ensures IdsFrom(FlattenMod(BuildGroup(node, depth, g, next, ids).value.0, parent), next, ids)
    decreases MaxDepth + 1 - depth, 0, 0
  {
    var m := BuildGroup(node, depth, g, next, ids).value.0;
    var contents := BuildContents(node, depth + 1, next, ids).value;
    assert m.contained == contents.0 && m.id == ids(contents.1);
    ContentsIds(node, depth + 1, next, ids, Some(m));
    ModIds(m, parent, next, contents.1, ids);
  }

  lemma TopIds(node: ModDict, next: nat, ids: nat -> string, parent: Option<Mod>)
    requires BuildTop(node, next, ids).Success?
    ensures IdsFrom(FlattenMod(BuildTop(node, next, ids).value.0, parent), next, ids)
  {
    var m := BuildTop(node, next, ids).value.0;
    var contents := BuildContents(node, 1, next, ids).value;
    assert m.contained == contents.0 && m.id == ids(contents.1);
    ContentsIds(node, 1, next, ids, Some(m));
    ModIds(m, parent, next, contents.1, ids);
  }

  /** One step of the loop over the top-level entries. */
  lemma AllCons(nodes: seq<ModDict>, start: nat, next: nat, ids: nat -> string)
    requires start < |nodes|
    requires BuildAll(nodes, start, next, ids).Success?
    ensures var first := BuildTop(nodes[start], next, ids);
      && first.Success?
      && BuildAll(nodes, start + 1, first.value.1, ids).Success?
      && BuildAll(nodes, start, next, ids).value.0
         == [first.value.0] + BuildAll(nodes, start + 1, first.value.1, ids).value.0
  {
  }

  lemma {:induction false} AllIds(nodes: seq<ModDict>, start: nat, next: nat, ids: nat -> string)
    requires start <= |nodes|
    requires BuildAll(nodes, start, next, ids).Success?
    ensures IdsFrom(FlattenAll(BuildAll(nodes, start, next, ids).value.0, None), next, ids)
    decreases |nodes| - start
  {
    if start < |nodes| {
      var first := BuildTop(nodes[start], next, ids).value;
      AllCons(nodes, start, next, ids);
      TopIds(nodes[start], next, ids, None);
      AllIds(nodes, start + 1, first.1, ids);
      ConsIds(first.0, BuildAll(nodes, start + 1, first.1, ids).value.0, None, next, first.1, ids);
    }
  }

  /** The k-th mod written after the region's context is the k-th mod
      constructed (`IdsAt` reads this off pointwise): the random tags are drawn
      in exactly the order the records are written, children before their
      container. */
  lemma RegionIds(name: string, results: ParseResults, ids: nat -> string)
    requires FromParseResults(name, results, ids).Success?
    ensures IdsFrom(FlattenAll(FromParseResults(name, results, ids).value.mods, None), 0, ids)
  {
    AllIds(results.mods, 0, 0, ids);
  }

  /** The region's k-th mod comes from its k-th top-level entry. */
  lemma RegionShape(name: string, results: ParseResults, ids: nat -> string)
    requires FromParseResults(name, results, ids).Success?
    ensures var ms := FromParseResults(name, results, ids).value.mods;
      forall k :: 0 <= k < |ms| ==> TopTree(results.mods[k], ms[k])
  {
    var ms := FromParseResults(name, results, ids).value.mods;
    AllShape(results.mods, 0, 0, ids);
    forall k | 0 <= k < |ms|
      ensures TopTree(results.mods[k], ms[k])
    {
      TopTreesAt(results.mods, 0, ms, k);
    }
  }

  /** A mod's contents tagged from `next` on, then the mod itself. */
  lemma ModIds(m: Mod, parent: Option<Mod>, next: nat, last: nat, ids: nat -> string)
    requires IdsFrom(FlattenAll(m.contained, Some(m)), next, ids)
    requires last == next + SizeAll(m.contained)
    requires m.id == ids(last)
    ensures IdsFrom(FlattenMod(m, parent), next, ids)
  {
    assert IdsFrom([Placed(m, parent)], last, ids);
    ConcatIds(FlattenAll(m.contained, Some(m)), [Placed(m, parent)], next, ids);
  }

  /** A mod's run of tags followed by the run of the mods after it. */
  lemma ConsIds(m: Mod, rest: seq<Mod>, parent: Option<Mod>, next: nat, next1: nat, ids: nat -> string)
    requires next1 == next + Size(m)
    requires IdsFrom(FlattenMod(m, parent), next, ids)
    requires IdsFrom(FlattenAll(rest, parent), next1, ids)
    ensures IdsFrom(FlattenAll([m] + rest, parent), next, ids)
  {
    FlattenCons(m, rest, parent);
    ConcatIds(FlattenMod(m, parent), FlattenAll(rest, parent), next, ids);
  }

  /** Joining two runs of consecutively tagged mods. */
  lemma {:induction false} ConcatIds(a: seq<Placed>, b: seq<Placed>, next: nat, ids: nat -> string)
    requires IdsFrom(a, next, ids)
    requires IdsFrom(b, next + |a|, ids)
    ensures IdsFrom(a + b, next, ids)
    decreases |a|
  {
    if a == [] {
      assert a + b == b;
    } else {
      ConcatIds(a[1..], b, next + 1, ids);
      assert (a + b)[0] == a[0];
      assert (a + b)[1..] == a[1..] + b;
    }
  }
}
