/** The Region model and its serialization (`Region.to_json` with
    `_dfs_mods`): one context record, then every mod after all the mods it
    contains. */
module Regions {
  import opened Wrappers
  import opened Errors
  import opened Dict
  import opened Text
  import opened Params
  import opened Json
  import opened Translate
  import opened Mods

  datatype Region = Region(name: string, params: Table, mods: seq<Mod>)

  /** `ORIENTATION_TO_ID`. */
  const OrientationIds: map<string, int> :=
    map["FACE_WEST" := 0, "FACE_NORTH" := 1, "FACE_EAST" := 2, "FACE_SOUTH" := 3]

  const ContextCapacity := 6
  const RegionNittyBits := 3

  /** `DEFAULT_REGIONATOR_NAME.format(name)`. */
  function DisplayName(name: string): string {
    name + " - Generated by Regionator"
  }

  /** One neighbor slot: empty when the direction is absent, otherwise the
      context reference of the region named before the first `.`. A `None`
      value has no `split`, which raises. */
  function Neighbor(t: Table, direction: string): (r: Result<string, Error>)
    ensures Get(t, Some(direction)).None? ==> r == Success("")
    ensures Get(t, Some(direction)) == Some(None) ==> r.Failure?
    ensures Get(t, Some(direction)).Some? && Get(t, Some(direction)).value.Some? ==>
      var target := Get(t, Some(direction)).value.value;
      && r.Success?
      && |r.value| >= 8
      && r.value[..8] == "context-"
      && r.value[8..] <= target
      && '.' !in r.value[8..]
      && (|r.value| - 8 < |target| ==> target[|r.value| - 8] == '.')
  {
    var entry := Get(t, Some(direction));
    if entry.None? then Success("")
    else if entry.value.None? then Failure(NoneValue(direction))
    else Success(ContextRef(BeforeFirst(entry.value.value, '.')))
  }

  /** The `orientation` of the region detail: present only for one of the four
      known facings. */
  function Orientation(t: Table): (r: Option<int>)
    ensures r.Some? <==>
      && Get(t, Some("region_orientation")).Some?
      && Get(t, Some("region_orientation")).value.Some?
      && Get(t, Some("region_orientation")).value.value in OrientationIds
    ensures r.Some? ==> 0 <= r.value <= 3
    ensures Get(t, Some("region_orientation")) == Some(Some("FACE_WEST")) ==> r == Some(0)
    ensures Get(t, Some("region_orientation")) == Some(Some("FACE_NORTH")) ==> r == Some(1)
    ensures Get(t, Some("region_orientation")) == Some(Some("FACE_EAST")) ==> r == Some(2)
    ensures Get(t, Some("region_orientation")) == Some(Some("FACE_SOUTH")) ==> r == Some(3)
  {
    var entry := Get(t, Some("region_orientation"));
    if entry.Some? && entry.value.Some? && entry.value.value in OrientationIds then
      Some(OrientationIds[entry.value.value])
    else None
  }

  /** The region detail object, neighbors read north, east, south, west. */
  function RegionDetailOf(t: Table): (r: Result<RegionDetail, Error>)
    ensures r.Success? <==>
      && Neighbor(t, "north").Success? && Neighbor(t, "east").Success?
      && Neighbor(t, "south").Success? && Neighbor(t, "west").Success?
    ensures r.Success? ==>
      r.value.neighbors == [Neighbor(t, "north").value, Neighbor(t, "east").value,
                            Neighbor(t, "south").value, Neighbor(t, "west").value]
    ensures r.Success? ==>
      && |r.value.neighbors| == 4
      && r.value.townDir == "" && r.value.portDir == ""
      && r.value.kind == "Region"
      && r.value.nittyBits == RegionNittyBits
      && r.value.orientation == Orientation(t)
  {
    var north :- Neighbor(t, "north");
    var east :- Neighbor(t, "east");
    var south :- Neighbor(t, "south");
    var west :- Neighbor(t, "west");
    Success(RegionDetail("", "", "Region", RegionNittyBits, [north, east, south, west], Orientation(t)))
  }

  /** The context record that opens the output. */
  function ContextRecord(region: Region): (r: Result<Record, Error>)
    ensures r.Success? <==> RegionDetailOf(region.params).Success?
    ensures r.Success? ==>
      && r.value.Context?
      && r.value.ref == "context-" + region.name
      && r.value.capacity == 6
      && r.value.name == region.name + " - Generated by Regionator"
      && r.value.region == RegionDetailOf(region.params).value
  {
    var detail :- RegionDetailOf(region.params);
    Success(Context(ContextRef(region.name), ContextCapacity, DisplayName(region.name), detail))
  }

  // ---------------------------------------------------------------------------
  // Flattening

  /** A mod with the container its `parent` link points to. */
  datatype Placed = Placed(mod: Mod, parent: Option<Mod>)

  /** Number of mods in a tree, counting nested ones. */
  function Size(m: Mod): nat
    decreases m
  {
    1 + SizeAll(m.contained)
  }

  function SizeAll(ms: seq<Mod>): nat
    decreases ms
  {
    if ms == [] then 0 else Size(ms[0]) + SizeAll(ms[1..])
  }

  /** `_dfs_mods([m])` with `m`'s parent link: its contents first, then `m`. */
  function FlattenMod(m: Mod, parent: Option<Mod>): (r: seq<Placed>)
    ensures |r| == Size(m)
    ensures r[|r| - 1] == Placed(m, parent)
    decreases m
  {
    FlattenAll(m.contained, Some(m)) + [Placed(m, parent)]
  }

  /** `_dfs_mods(ms)`, where each of `ms` has the parent link `parent`. */
  function FlattenAll(ms: seq<Mod>, parent: Option<Mod>): (r: seq<Placed>)
    ensures |r| == SizeAll(ms)
    decreases ms
  {
    if ms == [] then [] else FlattenMod(ms[0], parent) + FlattenAll(ms[1..], parent)
  }

  /** Siblings are flattened in list order (`for mod in cur_mods`): a forest
      split in two flattens to the first part's flattening followed by the
      second's. */
  lemma {:induction false} FlattenAppend(a: seq<Mod>, b: seq<Mod>, parent: Option<Mod>)
    ensures FlattenAll(a + b, parent) == FlattenAll(a, parent) + FlattenAll(b, parent)
    decreases a
  {
    if a == [] {
      assert a + b == b;
    } else {
      var ab := a + b;
      assert ab[0] == a[0];
      assert ab[1..] == a[1..] + b;
      FlattenAppend(a[1..], b, parent);
      var head := FlattenMod(a[0], parent);
      var restA := FlattenAll(a[1..], parent);
      var fb := FlattenAll(b, parent);
      assert FlattenAll(ab, parent) == head + (restA + fb);
      assert FlattenAll(a, parent) == head + restA;
      assert head + (restA + fb) == (head + restA) + fb;
    }
  }

  /** Every mod of the forest, each once, listed in pre-order. */
  function PreOrder(ms: seq<Mod>): seq<Mod>
    decreases ms
  {
    if ms == [] then [] else [ms[0]] + PreOrder(ms[0].contained) + PreOrder(ms[1..])
  }

  function ModsOf(ps: seq<Placed>): seq<Mod> {
    if ps == [] then [] else [ps[0].mod] + ModsOf(ps[1..])
  }

  lemma {:induction false} ModsOfAppend(a: seq<Placed>, b: seq<Placed>)
    ensures ModsOf(a + b) == ModsOf(a) + ModsOf(b)
  {
    if a != [] {
      assert (a + b)[1..] == a[1..] + b;
      ModsOfAppend(a[1..], b);
    } else {
      assert a + b == b;
    }
  }

  /** Flattening lists every mod of the forest exactly as often as it occurs
      in the forest: it is a permutation of the pre-order listing. */
  lemma {:induction false} FlattenIsPermutation(ms: seq<Mod>, parent: Option<Mod>)
    ensures multiset(ModsOf(FlattenAll(ms, parent))) == multiset(PreOrder(ms))
    decreases ms
  {
    if ms != [] {
      var m := ms[0];
      FlattenIsPermutation(m.contained, Some(m));
      FlattenIsPermutation(ms[1..], parent);
      ModsOfAppend(FlattenAll(m.contained, Some(m)), [Placed(m, parent)]);
      ModsOfAppend(FlattenMod(m, parent), FlattenAll(ms[1..], parent));
    }
  }

  /** In the flattened list, the mods a mod contains come immediately before
      it, as their own flattening with the mod as parent: every mod is emitted
      after all of its descendants. */
  lemma {:induction false} ContentsPrecede(ms: seq<Mod>, parent: Option<Mod>, i: int)
    requires 0 <= i < |FlattenAll(ms, parent)|
    ensures var f := FlattenAll(ms, parent);
      var m := f[i].mod;
      && i >= SizeAll(m.contained)
      && f[i - SizeAll(m.contained)..i] == FlattenAll(m.contained, Some(m))
    decreases ms
  {
    var m := ms[0];
    var head := FlattenMod(m, parent);
    var inner := FlattenAll(m.contained, Some(m));
    var rest := FlattenAll(ms[1..], parent);
    assert FlattenAll(ms, parent) == head + rest;
    assert head == inner + [Placed(m, parent)];
    if i < |inner| {
      ContentsPrecede(m.contained, Some(m), i);
      var c := SizeAll(inner[i].mod.contained);
      BlockLeft(inner, [Placed(m, parent)], i, c);
      BlockLeft(head, rest, i, c);
    } else if i == |inner| {
      BlockLeft(head, rest, i, i);
      assert head[0..i] == inner;
    } else {
      var j := i - |head|;
      ContentsPrecede(ms[1..], parent, j);
      BlockRight(head, rest, j, SizeAll(rest[j].mod.contained));
    }
  }

  /** The block ending at `a[i]` survives appending `b`. */
  lemma BlockLeft<T>(a: seq<T>, b: seq<T>, i: int, c: int)
    requires 0 <= c <= i < |a|
    ensures (a + b)[i] == a[i] && (a + b)[i - c..i] == a[i - c..i]
  {
  }

  /** The block ending at `b[j]` survives prepending `a`. */
  lemma BlockRight<T>(a: seq<T>, b: seq<T>, j: int, c: int)
    requires 0 <= c <= j < |b|
    ensures (a + b)[|a| + j] == b[j] && (a + b)[|a| + j - c..|a| + j] == b[j - c..j]
  {
  }

  /** Parent links: a mod with no parent link is one of the forest's own mods;
      a mod with a parent link is one of its parent's contents, and the parent
      is emitted later in the list. */
  lemma {:induction false} ParentsFollow(ms: seq<Mod>, parent: Option<Mod>, i: int)
    requires 0 <= i < |FlattenAll(ms, parent)|
    ensures var f := FlattenAll(ms, parent);
      || (f[i].parent == parent && f[i].mod in ms)
      || (&& f[i].parent.Some?
          && f[i].mod in f[i].parent.value.contained
          && exists j :: i < j < |f| && f[j].mod == f[i].parent.value)
    decreases ms
  {
    var f := FlattenAll(ms, parent);
    var m := ms[0];
    var head := FlattenMod(m, parent);
    var inner := FlattenAll(m.contained, Some(m));
    var rest := FlattenAll(ms[1..], parent);
    assert f == inner + [Placed(m, parent)] + rest;
    if i < |inner| {
      ParentsFollow(m.contained, Some(m), i);
      assert f[i] == inner[i];
      assert f[|inner|].mod == m;
      if inner[i].parent == Some(m) && inner[i].mod in m.contained {
      } else {
        var j :| i < j < |inner| && inner[j].mod == inner[i].parent.value;
        assert f[j] == inner[j];
      }
    } else if i == |inner| {
      assert f[i] == Placed(m, parent);
    } else {
      var k := i - |head|;
      ParentsFollow(ms[1..], parent, k);
      assert f[i] == rest[k];
      if rest[k].parent == parent && rest[k].mod in ms[1..] {
      } else {
        var j :| k < j < |rest| && rest[j].mod == rest[k].parent.value;
        assert f[j + |head|] == rest[j];
      }
    }
  }

  // ---------------------------------------------------------------------------
  // The output array

  /** `f` applied to each element in order; the first failure aborts. */
  function MapResult<A, B, E>(xs: seq<A>, f: A -> Result<B, E>): (r: Result<seq<B>, E>)
    ensures r.Success? <==> forall i :: 0 <= i < |xs| ==> f(xs[i]).Success?
    ensures r.Success? ==> |r.value| == |xs|
    ensures r.Success? ==> forall i :: 0 <= i < |xs| ==> f(xs[i]) == Success(r.value[i])
  {
    if xs == [] then Success([])
    else
      var head := f(xs[0]);
      var rest := MapResult(xs[1..], f);
      if head.Failure? then Failure(head.error)
      else if rest.Failure? then Failure(rest.error)
      else
        var all := [head.value] + rest.value;
        assert forall i :: 0 < i < |xs| ==> xs[i] == xs[1..][i - 1] && all[i] == rest.value[i - 1];
        Success(all)
  }

  /** The record of one placed mod. */
  function RecordOf(regionName: string, index: ModIndex): Placed -> Result<Record, Error> {
    (p: Placed) => ItemRecord(p.mod, p.parent, regionName, index)
  }

  /** The records of the flattened mods: all made exactly when every mod has
      a detail, each the record of its mod and container. */
  lemma MapRecords(placed: seq<Placed>, regionName: string, index: ModIndex)
    ensures var items := MapResult(placed, RecordOf(regionName, index));
      && (items.Success? <==> AllDetailed(placed, index))
      && (items.Success? ==> forall i :: 0 <= i < |placed| ==>
            ItemRecord(placed[i].mod, placed[i].parent, regionName, index) == Success(items.value[i]))
  {
    forall i | 0 <= i < |placed|
      ensures RecordOf(regionName, index)(placed[i]) == ItemRecord(placed[i].mod, placed[i].parent, regionName, index)
    {
    }
  }

  /** The records of the region's mods, in `_dfs_mods` order. */
  function ItemsOf(region: Region, index: ModIndex): (r: Result<seq<Record>, Error>)
    ensures r.Success? <==> forall m :: m in PreOrder(region.mods) ==> Detail(m, index).Success?
    ensures r.Success? ==> var placed := FlattenAll(region.mods, None);
      && |r.value| == |placed|
      && forall i :: 0 <= i < |placed| ==>
        ItemRecord(placed[i].mod, placed[i].parent, region.name, index) == Success(r.value[i])
  {
    var placed := FlattenAll(region.mods, None);
    FlattenDetails(region.mods, None, index);
    MapRecords(placed, region.name, index);
    MapResult(placed, RecordOf(region.name, index))
  }

  /** `Region.to_json`, with each mod then turned into its record as the JSON
      encoder does: the context record, then the flattened mods. */
  function RegionRecords(region: Region, index: ModIndex): (r: Result<seq<Record>, Error>)
    ensures r.Success? <==>
      && ContextRecord(region).Success?
      && forall m :: m in PreOrder(region.mods) ==> Detail(m, index).Success?
    ensures r.Success? ==> |r.value| == 1 + SizeAll(region.mods)
    ensures r.Success? ==> r.value[0] == ContextRecord(region).value
    ensures r.Success? ==> r.value[1..] == ItemsOf(region, index).value
  {
    var context :- ContextRecord(region);
    var items :- ItemsOf(region, index);
    var all := [context] + items;
    assert all[1..] == items;
    Success(all)
  }

  /** Every placed mod has a detail object. */
  predicate AllDetailed(ps: seq<Placed>, index: ModIndex) {
    forall i :: 0 <= i < |ps| ==> Detail(ps[i].mod, index).Success?
  }

  /** Every mod of the flattened list has a detail exactly when every mod of
      the forest has. */
  lemma FlattenDetails(ms: seq<Mod>, parent: Option<Mod>, index: ModIndex)
    ensures AllDetailed(FlattenAll(ms, parent), index) <==>
      (forall m :: m in PreOrder(ms) ==> Detail(m, index).Success?)
  {
    var f := FlattenAll(ms, parent);
    FlattenMembers(ms, parent);
    if forall i :: 0 <= i < |f| ==> Detail(f[i].mod, index).Success? {
      forall m | m in PreOrder(ms)
        ensures Detail(m, index).Success?
      {
        var i :| 0 <= i < |f| && f[i].mod == m;
      }
    }
  }

  /** The record written for the k-th flattened mod. */
  lemma RecordAt(region: Region, index: ModIndex, k: nat)
    requires ItemsOf(region, index).Success?
    requires k < SizeAll(region.mods)
    ensures var items := ItemsOf(region, index).value;
      var p := FlattenAll(region.mods, None)[k];
      && items[k].Item?
      && items[k].ref == Ref(p.mod, region.name)
      && items[k].container == (if p.parent.Some? then Ref(p.parent.value, region.name) else ContextRef(region.name))
  {
    var placed := FlattenAll(region.mods, None);
    assert ItemRecord(placed[k].mod, placed[k].parent, region.name, index)
      == Success(ItemsOf(region, index).value[k]);
  }

  /** Record `i` is an item whose `in` names the region's context or the ref
      of a record written after it. */
  ghost predicate ContainerLater(r: seq<Record>, i: nat, regionName: string)
    requires i < |r|
  {
    && r[i].Item?
    && (|| r[i].container == ContextRef(regionName)
        || exists j :: i < j < |r| && r[j].Item? && r[j].ref == r[i].container)
  }

  lemma ContainerFollows(region: Region, index: ModIndex, k: nat)
    requires ItemsOf(region, index).Success?
    requires k < |ItemsOf(region, index).value|
    ensures ContainerLater(ItemsOf(region, index).value, k, region.name)
  {
    var placed := FlattenAll(region.mods, None);
    RecordAt(region, index, k);
    ParentsFollow(region.mods, None, k);
    if placed[k].parent.Some? {
      var j :| k < j < |placed| && placed[j].mod == placed[k].parent.value;
      RecordAt(region, index, j);
    }
  }

  /** Every item record's `in` names either the region's context or the ref
      of an item written LATER (`RegionRecords` writes these items, in this
      order, right after the context record): a container is always emitted
      after what it contains. */
  lemma ContainersFollow(region: Region, index: ModIndex)
    requires ItemsOf(region, index).Success?
    ensures var items := ItemsOf(region, index).value;
      forall k :: 0 <= k < |items| ==> ContainerLater(items, k, region.name)
  {
    var items := ItemsOf(region, index).value;
    forall k | 0 <= k < |items|
      ensures ContainerLater(items, k, region.name)
    {
      ContainerFollows(region, index, k);
    }
  }

  /** The flattened list holds exactly the mods of the forest. */
  lemma FlattenMembers(ms: seq<Mod>, parent: Option<Mod>)
    ensures var f := FlattenAll(ms, parent);
      forall m :: m in PreOrder(ms) <==> exists i :: 0 <= i < |f| && f[i].mod == m
  {
    var f := FlattenAll(ms, parent);
    FlattenIsPermutation(ms, parent);
    ModsOfIndex(f);
    forall m
      ensures m in PreOrder(ms) <==> exists i :: 0 <= i < |f| && f[i].mod == m
    {
      assert m in PreOrder(ms) <==> m in multiset(PreOrder(ms));
      assert m in ModsOf(f) <==> m in multiset(ModsOf(f));
      if m in ModsOf(f) {
        var i :| 0 <= i < |f| && ModsOf(f)[i] == m;
      }
      if exists i :: 0 <= i < |f| && f[i].mod == m {
        var i :| 0 <= i < |f| && f[i].mod == m;
        assert ModsOf(f)[i] == m;
      }
    }
  }

  lemma {:induction false} ModsOfIndex(ps: seq<Placed>)
    ensures |ModsOf(ps)| == |ps|
    ensures forall i :: 0 <= i < |ps| ==> ModsOf(ps)[i] == ps[i].mod
  {
    if ps != [] {
      ModsOfIndex(ps[1..]);
    }
  }
}
