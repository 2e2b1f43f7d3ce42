/** The Mod node (`class Mod`): one placed object, its output detail object
    (`neohabitat_mod`), its name and reference, and its output record
    (`to_json`). The parent link is not stored: it is the container the mod
    sits in, passed in when the record is made. */
module Mods {
  import opened Wrappers
  import opened Errors
  import opened Dict
  import opened Text
  import opened Params
  import opened Json
  import opened Translate

  /** A mod as built from the region file. `id` is the 4-character random tag
      drawn at construction; `contained` are the mods it contains. */
  datatype Mod = Mod(
    identifier: string,
    id: string,
    params: Table,
    extra: Table,
    contained: seq<Mod>)

  /** `Region.neohabitat_context`: the reference of a region's context record.
      Unlike an item reference it keeps the region name's dashes. */
  function ContextRef(regionName: string): (r: string)
    ensures |r| == 8 + |regionName|
    ensures r[..8] == "context-" && r[8..] == regionName
  {
    "context-" + regionName
  }

  /** Different regions have different context references. */
  lemma ContextRefInjective(a: string, b: string)
    requires ContextRef(a) == ContextRef(b)
    ensures a == b
  {
    assert a == ContextRef(a)[8..];
  }

  /** `neohabitat_name`: the capitalized kind. */
  function Name(m: Mod): string {
    Capitalize(m.identifier)
  }

  /** `neohabitat_ref`: `item-<identifier>.<id>.<region name, '-' as '.'>`. */
  function Ref(m: Mod, regionName: string): (r: string)
    ensures |r| == 7 + |m.identifier| + |m.id| + |regionName|
    ensures r[..5] == "item-"
    ensures r[5..5 + |m.identifier|] == m.identifier && r[5 + |m.identifier|] == '.'
    ensures r[6 + |m.identifier|..6 + |m.identifier| + |m.id|] == m.id
    ensures r[6 + |m.identifier| + |m.id|] == '.'
    ensures r[|r| - |regionName|..] == ReplaceChar(regionName, '-', '.')
  {
    "item-" + m.identifier + "." + m.id + "." + ReplaceChar(regionName, '-', '.')
  }

  /** An item reference is never a context reference, so an `in` names either
      a container or the region's context, never both. */
  lemma RefNotContext(m: Mod, regionName: string, otherRegion: string)
    ensures Ref(m, regionName) != ContextRef(otherRegion)
  {
    assert Ref(m, regionName)[0] == 'i';
    assert ContextRef(otherRegion)[0] == 'c';
  }

  /** A reference names its mod: when neither the identifier nor the id holds a
      `.` (the random tag is hexadecimal), two mods of one region with the same
      reference have the same identifier and the same id. */
  lemma RefInjective(a: Mod, b: Mod, regionName: string)
    requires '.' !in a.identifier && '.' !in a.id
    requires '.' !in b.identifier && '.' !in b.id
    requires Ref(a, regionName) == Ref(b, regionName)
    ensures a.identifier == b.identifier && a.id == b.id
  {
    RefParts(a.identifier, a.id, b.identifier, b.id, ReplaceChar(regionName, '-', '.'));
  }

  /** The string form of `RefInjective`: the two dot-free fields of an item
      reference with a common tail are recovered from it. */
  lemma RefParts(p: string, i: string, q: string, j: string, tail: string)
    requires '.' !in p && '.' !in i && '.' !in q && '.' !in j
    requires "item-" + p + "." + i + "." + tail == "item-" + q + "." + j + "." + tail
    ensures p == q && i == j
  {
    var sa := p + "." + i + "." + tail;
    var sb := q + "." + j + "." + tail;
    assert sa == ("item-" + p + "." + i + "." + tail)[5..];
    assert sb == ("item-" + q + "." + j + "." + tail)[5..];
    assert sa == p + ['.'] + (i + "." + tail);
    assert sb == q + ['.'] + (j + "." + tail);
    SplitAtFirst(p, q, i + "." + tail, j + "." + tail, '.');
    assert i + "." + tail == i + ['.'] + tail;
    assert j + "." + tail == j + ['.'] + tail;
    SplitAtFirst(i, j, tail, tail, '.');
  }

  /** Cutting at the first separator recovers both sides. */
  lemma SplitAtFirst(p: string, q: string, restP: string, restQ: string, sep: char)
    requires sep !in p && sep !in q
    requires p + [sep] + restP == q + [sep] + restQ
    ensures p == q && restP == restQ
  {
    var s := p + [sep] + restP;
    assert s[|p|] == sep;
    BeforeFirstUnique(s, sep, p);
    assert s[|q|] == sep;
    BeforeFirstUnique(s, sep, q);
    assert restP == s[|p| + 1..];
    assert restQ == (q + [sep] + restQ)[|q| + 1..];
  }

  /** `int(params[key])` as the code reads it: absent, `None` and non-decimal
      values give no integer. */
  function ParamInt(t: Table, key: string): Option<int> {
    match Get(t, Some(key))
    case Some(v) => KeyInt(v)
    case None => None
  }

  predicate HasParam(t: Table, key: string) {
    Get(t, Some(key)).Some?
  }

  /** `int(params[key])`, raising KeyError, TypeError or ValueError. */
  function RequiredInt(t: Table, key: string): (r: Result<int, Error>)
    ensures r.Success? <==> ParamInt(t, key).Some?
    ensures r.Success? ==> ParamInt(t, key) == Some(r.value)
  {
    match Get(t, Some(key))
    case None => Failure(MissingKey(key))
    case Some(v) => IntValue(v, key)
  }

  /** `if key in params: obj[key] = int(params[key])`. */
  function OptionalInt(obj: Object, t: Table, key: string): Result<Object, Error> {
    if HasParam(t, key) then
      var n :- RequiredInt(t, key);
      Success(obj[key := Int(n)])
    else Success(obj)
  }

  /** Lines 51-60 of `neohabitat_mod`: type, geometry, and the optional style
      and graphic state. `x`, `y` and `or` are required integers; `style` and
      `gr_state` appear exactly when the parameter is present. */
  function BaseDetail(m: Mod): (r: Result<Object, Error>)
    ensures r.Success? <==>
      && ParamInt(m.params, "x").Some?
      && ParamInt(m.params, "y").Some?
      && ParamInt(m.params, "or").Some?
      && (HasParam(m.params, "style") ==> ParamInt(m.params, "style").Some?)
      && (HasParam(m.params, "gr_state") ==> ParamInt(m.params, "gr_state").Some?)
    ensures r.Success? ==>
      r.value.Keys == {"type", "x", "y", "orientation"}
        + (if HasParam(m.params, "style") then {"style"} else {})
        + (if HasParam(m.params, "gr_state") then {"gr_state"} else {})
    ensures r.Success? ==>
      && r.value["type"] == Str(Capitalize(m.identifier))
      && r.value["x"] == Int(ParamInt(m.params, "x").value)
      && r.value["y"] == Int(ParamInt(m.params, "y").value)
      && r.value["orientation"] == Int(ParamInt(m.params, "or").value)
      && (HasParam(m.params, "style") ==> r.value["style"] == Int(ParamInt(m.params, "style").value))
      && (HasParam(m.params, "gr_state") ==> r.value["gr_state"] == Int(ParamInt(m.params, "gr_state").value))
  {
    var x :- RequiredInt(m.params, "x");
    var y :- RequiredInt(m.params, "y");
    var orientation :- RequiredInt(m.params, "or");
    var obj := map["type" := Str(Name(m)), "x" := Int(x), "y" := Int(y), "orientation" := Int(orientation)];
    var obj :- OptionalInt(obj, m.params, "style");
    OptionalInt(obj, m.params, "gr_state")
  }

  /** Whether the translator applies: the mod has additional parameters and
      its capitalized kind has a translator. */
  predicate Translated(m: Mod, index: ModIndex) {
    |m.extra| > 0 && Name(m) in index
  }

  /** The chomp cursor after the translator loop. */
  function ChompStart(m: Mod, index: ModIndex): int
    requires Name(m) in index
  {
    FirstChompIndex + IndexEntryCount(index[Name(m)])
  }

  /** `neohabitat_mod`: the base detail, then the translated fields, then the
      chomp field. */
  function Detail(m: Mod, index: ModIndex): (r: Result<Object, Error>)
    ensures !Translated(m, index) ==> r == BaseDetail(m)
    ensures r.Success? <==>
      && BaseDetail(m).Success?
      && ((Translated(m, index) && ChompField(index[Name(m)]).Some?) ==>
            ChompedParams(m.extra, ChompStart(m, index)).Success?)
  {
    var base :- BaseDetail(m);
    if Translated(m, index) then
      var entries := index[Name(m)];
      var (obj, cursor) := ApplyEntries(entries, m.extra, base, FirstChompIndex);
      match ChompField(entries)
      case None => Success(obj)
      case Some(f) =>
        var chomped :- ChompedParams(m.extra, cursor);
        Success(obj[f := IntList(chomped)])
    else Success(base)
  }

  /** A translated detail whose translator has a `CHOMP` entry holds, in that
      entry's field, the integer list `_chomped_params` collects from the
      cursor the translator loop left behind. */
  lemma DetailChompField(m: Mod, index: ModIndex)
    requires Translated(m, index) && ChompField(index[Name(m)]).Some?
    ensures Detail(m, index).Success? ==>
      var f := ChompField(index[Name(m)]).value;
      && ChompedParams(m.extra, ChompStart(m, index)).Success?
      && f in Detail(m, index).value
      && Detail(m, index).value[f] == IntList(ChompedParams(m.extra, ChompStart(m, index)).value)
  {
    if BaseDetail(m).Success? {
      var entries := index[Name(m)];
      var (obj, cursor) := ApplyEntries(entries, m.extra, BaseDetail(m).value, FirstChompIndex);
      assert cursor == ChompStart(m, index);
    }
  }

  /** Apart from the chomp field, a translated detail holds in every field the
      raw value of the last translator entry that hits it, and the base detail's
      value where no entry hits. */
  lemma DetailTranslatedFields(m: Mod, index: ModIndex, field: string)
    requires Translated(m, index) && ChompField(index[Name(m)]) != Some(field)
    ensures Detail(m, index).Success? ==>
      var out := Detail(m, index).value;
      var base := BaseDetail(m).value;
      match LastWrite(index[Name(m)], m.extra, field)
      case Some(v) => field in out && out[field] == v
      case None => (field in out <==> field in base) && (field in base ==> out[field] == base[field])
  {
    if BaseDetail(m).Success? {
      ApplyEntriesFields(index[Name(m)], m.extra, BaseDetail(m).value, FirstChompIndex, field);
    }
  }

  /** `Mod.to_json`: the item record, whose `in` is the container's reference,
      or the region's context reference for a mod with no container. */
  function ItemRecord(m: Mod, parent: Option<Mod>, regionName: string, index: ModIndex): (r: Result<Record, Error>)
    ensures r.Success? <==> Detail(m, index).Success?
    ensures r.Success? ==>
      && r.value.Item?
      && r.value.ref == Ref(m, regionName)
      && r.value.name == Capitalize(m.identifier)
      && r.value.detail == Detail(m, index).value
      && r.value.container == (if parent.Some? then Ref(parent.value, regionName) else ContextRef(regionName))
  {
    var detail :- Detail(m, index);
    var container := match parent
      case Some(p) => Ref(p, regionName)
      case None => ContextRef(regionName);
    Success(Item(Ref(m, regionName), Name(m), detail, container))
  }
}
