/** The JSON values and records the converter emits, as data rather than text. */
module Json {
  import opened Wrappers

  /** A JSON value as it occurs in a mod's detail object. */
  datatype Value =
    | Int(n: int)
    | Str(s: string)
    | Null
    | IntList(items: seq<int>)

  /** A JSON object; key order carries no meaning. */
  type Object = map<string, Value>

  /** The one object in a context record's `mods` list. `type` is always
      `"Region"` and `town_dir`/`port_dir` are always empty. */
  datatype RegionDetail = RegionDetail(
    townDir: string,
    portDir: string,
    kind: string,
    nittyBits: int,
    neighbors: seq<string>,
    orientation: Option<int>)

  /** One element of the output array. A context record has `type: "context"`,
      an item record `type: "item"`; `mods` holds the single detail object. */
  datatype Record =
    | Context(ref: string, capacity: int, name: string, region: RegionDetail)
    | Item(ref: string, name: string, detail: Object, container: string)
}
