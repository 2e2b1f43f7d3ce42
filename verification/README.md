# Regionator core, modelled in Dafny

This project models the core of the Neohabitat *regionator* (`regionator/region.py`).
The regionator turns a parsed region description into the JSON object array the
Neohabitat server loads. The modelled parts are:

- **Parameter tables** (`Region._parse_params`). A two-mode scan over the tokens of one
  parameter group builds an insertion-ordered dict. Only `;` commits a pair. The pending
  value is never reset, so a name committed without a value of its own reuses the last one.
  Because the pending name and value start as `None`, keys and values are optional here.
- **Mods**:
  - `neohabitat_name`, `neohabitat_ref` and `Mod.to_json`.
  - The detail object `neohabitat_mod`. Its base fields come from `x`, `y`, `or`, `style`
    and `gr_state`. A translator from the mod-index table copies positional additional
    parameters into named fields. The `CHOMP` field collects every remaining parameter as a
    list of integers (`_chomped_params`).
- **Regions** (`Region.to_json` with `_dfs_mods`). The output starts with one context
  record, which carries the neighbors and the orientation. It continues with every mod in
  post-order: each mod comes after all the mods it contains.
- **Tree construction** (`Region.from_parse_results`, `_parse_mods_from_results`). Nesting
  is bounded at three inner levels. The code reads every level's mod list and identifier
  list from the OUTER mod's dict (lines 201, 214, 217, 230 and 233). So every mod of a level
  shares one identifier, and every mod of a level contains a full copy of the next level.

Python errors are modelled as an `Error` value in a `Result`:

- a `KeyError` on a missing parameter;
- a `TypeError` from `int(None)`;
- a `ValueError` from `int` on a non-decimal string;
- an `AttributeError` from `None.split`;
- the `KeyError`/`IndexError` of a missing identifier list.

Dicts are association lists with distinct keys (module `Dict`), so insertion order is kept.

The model is purely functional:

- A mod's parent link is not a mutable field. It is the container the mod is placed in when
  the forest is flattened (`Regions.Placed`).
- The random 4-character tag `str(uuid.uuid4())[:4]` is a parameter `ids: nat -> string`.
  The k-th mod constructed gets `ids(k)`.

Files:

- `wrappers.dfy`: `Option`, `Result`, errors.
- `dict.dfy`: ordered dicts.
- `text.dfy`: `capitalize`, `replace`, `split(...)[0]`, `int`, `str`.
- `params.dfy`: `_parse_params`.
- `json.dfy`: output values and records.
- `translate.dfy`: translator and chomp.
- `mods.dfy`: the `Mod` class.
- `regions.dfy`: `Region.to_json`.
- `build.dfy`: construction from parse results.

Two facts about the code's output are easy to misread:

- **Containers come after their contents.** `_dfs_mods` (lines 299-302) appends a mod after
  the mods it contains. So a contained mod's `in` names a record written LATER in the array.
  `Regions.ContainersFollow` proves this order: every item's `in` is either the region's
  context or the ref of a later item.
- **Translated fields keep the raw string.** Line 70 copies a translated parameter's value
  as the string it was parsed as (`"1"`, not `1`). Only the values collected into the `CHOMP`
  field are converted to integers (line 96). `Translate.ApplyEntriesFields` states the raw copy.

## Model

| member | source | states |
|---|---|---|
| Dict.Put | regionator/region.py:173 | dict assignment: the key then maps to the new value and every other key keeps its value; a new key is appended; an existing key keeps its position and only its value changes; keys stay distinct |
| Text.Capitalize | regionator/region.py:80-82 | same length; first character upper-cased, every later one lower-cased (ASCII) |
| Text.CapitalizeIdempotent | regionator/region.py:80-82 | capitalizing a capitalized name changes nothing |
| Text.ReplaceChar | regionator/region.py:86-87 | same length; exactly the `from` characters become `to`, all others kept |
| Text.ReplaceCharRemoves | regionator/region.py:86-87 | after the replacement no `-` is left, and every character came from the input or is the replacement |
| Text.BeforeFirst | regionator/region.py:274-275 | `split(sep)[0]`: a prefix of the input containing no separator, ending exactly at the first separator or at the end |
| Text.ParseInt | regionator/region.py:53 | `int(s)` is defined exactly for an optional sign followed by at least one ASCII decimal digit |
| Text.ParseShowInt | regionator/region.py:53 | parsing the decimal spelling of any integer gives that integer back |
| Text.ParseLeadingZero | regionator/region.py:53 | `int("0" + d) == int(d)` for a digit string `d`: leading zeros do not change the value |
| Text.ParseSigned | regionator/region.py:53 | `int("+" + d) == int(d)` and `int("-" + d) == -int(d)` for a digit string `d` |
| Params.Run | regionator/region.py:162-179 | the table the scan builds never has a key twice |
| Params.RunPending | regionator/region.py:164-178 | the scan's pending name, pending value and mode equal independent backwards definitions (last name-mode word, last value-mode word, last mode switch) |
| Params.CommitOverwrites | regionator/region.py:172-174 | a `;` puts the pending name with the pending value, overwriting an earlier value of that name |
| Params.TableSnoc | regionator/region.py:167-178 | one more token changes the table only when it is `;` |
| Params.TrailingPairDropped | regionator/region.py:167-179 | tokens after the last `;` (an unterminated pair) never reach the table |
| Params.ValueReused | regionator/region.py:172-178 | the pending value survives a commit: `name ;` alone stores the previous pair's value |
| Params.NewlinesIgnored | regionator/region.py:168-169 | deleting every newline token changes neither the table nor the pending state |
| Params.CommitsSound | regionator/region.py:162-179 | every pair in the table was committed by the last `;` that committed its name |
| Params.CommitsComplete | regionator/region.py:162-179 | the last `;` committing a name puts that pair in the table |
| Params.ParseParamsCommits | regionator/region.py:162-179 | a name maps to a value exactly when the last `;` committing that name committed that value |
| Params.ParseTwoPairs | regionator/region.py:162-179 | `x : 5 ; y : 10 ;` parses to the two pairs in order |
| Translate.ApplyEntries | regionator/region.py:64-71 | the chomp cursor advances once per non-`CHOMP` translator entry, whether or not the entry's index is present |
| Translate.ApplyEntriesFields | regionator/region.py:67-70 | each field holds the raw value of the last entry for it whose index is an additional key; a field no entry hits keeps its base value or stays absent |
| Translate.ChompField | regionator/region.py:74-75 | a chomp field exists exactly when the translator has a `CHOMP` entry, and it is that entry's field |
| Translate.IntValue | regionator/region.py:96 | `int(v)` succeeds exactly for a non-`None` decimal string, with its value |
| Translate.NumericKeys | regionator/region.py:90-92 | the key conversion succeeds exactly when every additional key is an integer, keeping each key's value in order |
| Translate.SortDistinct | regionator/region.py:94 | `sorted(...)` of the comprehension's keys: strictly ascending, with exactly the members of the input |
| Translate.AtLeast | regionator/region.py:94-95 | keeps exactly the keys at or above the start, still ascending |
| Translate.ChompValues | regionator/region.py:94-96 | converts every selected key's value, succeeding exactly when all are integers, pointwise |
| Translate.ChompedParams | regionator/region.py:89-97 | fails exactly when a key is not an integer or a collected value is not; otherwise lists, in ascending key order, the integer values of exactly the keys at or above the start, each taken from the last item denoting that key |
| Mods.RequiredInt | regionator/region.py:53-55 | `int(params[key])` succeeds exactly when the key is present with a decimal value |
| Mods.BaseDetail | regionator/region.py:51-60 | succeeds exactly when `x`, `y`, `or` are integers and `style`/`gr_state` are integers if present; the key set is exactly type, x, y, orientation plus the present optional keys, each with its parameter's value |
| Mods.Detail | regionator/region.py:49-78 | without additional parameters or translator it is the base detail; it succeeds exactly when the base does and, with a chomp field, the chomp does |
| Mods.DetailChompField | regionator/region.py:73-76 | in a successful translated detail, the `CHOMP` entry's field holds the integer list chomped from the cursor the translator loop left (8 plus one per index entry) |
| Mods.DetailTranslatedFields | regionator/region.py:64-71 | in a translated detail, every field other than the chomp field holds the last hitting entry's raw value, or the base value where no entry hits |
| Mods.ContextRef | regionator/region.py:155-157 | a context reference is `context-` followed by the region name, dashes kept |
| Mods.ContextRefInjective | regionator/region.py:155-157 | different regions have different context references |
| Mods.Ref | regionator/region.py:84-87 | an item reference is `item-`, the identifier, `.`, the id, `.`, and then the region name with every `-` read as `.`, each part at its position |
| Mods.RefNotContext | regionator/region.py:84-87 | an item reference never equals a context reference, so `in` names a container or the context unambiguously |
| Mods.RefInjective | regionator/region.py:84-87 | for dot-free identifiers and ids, equal refs in one region mean equal identifier and id |
| Mods.ItemRecord | regionator/region.py:99-111 | the item record has the mod's ref, its capitalized name and detail, and `in` naming the container's ref, or the region's context when there is no container |
| Regions.Neighbor | regionator/region.py:273-284 | an absent direction gives `""`; a `None` value fails; otherwise `context-` followed by the target's part before its first `.` |
| Regions.Orientation | regionator/region.py:13-18 | the orientation is present exactly for one of the four known facings: `FACE_WEST` gives 0, `FACE_NORTH` 1, `FACE_EAST` 2, `FACE_SOUTH` 3 |
| Regions.RegionDetailOf | regionator/region.py:265-286 | succeeds exactly when all four neighbors do; neighbors in north, east, south, west order; fixed empty dirs, type and nitty bits; the orientation |
| Regions.ContextRecord | regionator/region.py:288-294 | the context record has ref `context-<name>`, capacity 6, the generated display name and the region detail |
| Regions.FlattenMod | regionator/region.py:299-302 | a mod's flattening has one entry per mod of its tree and ends with the mod itself |
| Regions.FlattenAll | regionator/region.py:299-302 | the flattening has one entry per mod of the forest |
| Regions.FlattenAppend | regionator/region.py:300-302 | siblings are flattened in list order: flattening `a + b` is flattening `a` followed by flattening `b` |
| Regions.FlattenIsPermutation | regionator/region.py:298-304 | the flattened list is a permutation of the forest's pre-order list: every mod exactly once |
| Regions.FlattenMembers | regionator/region.py:298-304 | a mod is in the flattened list exactly when it is in the forest |
| Regions.ContentsPrecede | regionator/region.py:299-302 | the entries right before a mod are exactly its contents' own flattening, with the mod as their container |
| Regions.ParentsFollow | regionator/region.py:299-302 | every entry is a top-level mod with no container, or one of its container's contents, and that container appears later in the list |
| Regions.ItemsOf | regionator/region.py:296-306 | the item records succeed exactly when every mod of the forest has a detail, one record per flattened mod, in order |
| Regions.RegionRecords | regionator/region.py:265-306 | succeeds exactly when the context and every mod's detail do; one context record first, then one item per mod, in `_dfs_mods` order |
| Regions.RecordAt | regionator/region.py:99-111 | the item record for the k-th flattened mod has that mod's ref, and its container's ref (or the context) as `in` |
| Regions.ContainerFollows | regionator/region.py:106-109 | one item record's `in` names the region's context or an item written after it |
| Regions.ContainersFollow | regionator/region.py:296-306 | every item record's `in` names the region's context or the ref of a LATER item; the output array is the context record followed by these items |
| Build.BuildContents | regionator/region.py:197-199 | a level builds exactly when every reached non-empty level has an identifier list; the mod counter advances by the number of mods built, which is the level's size |
| Build.BuildLevel | regionator/region.py:199-260 | the loop over a level's groups yields one mod per group, and the size is groups times one plus the next level's size |
| Build.BuildGroup | regionator/region.py:200-260 | one group builds exactly when the level's identifier list is non-empty and the deeper levels build; the mod's subtree has one plus the next level's size mods |
| Build.ContentsShape | regionator/region.py:213-217 | the built contents are one mod per group of the level, each shaped as below |
| Build.LevelShape | regionator/region.py:199-201 | the loop's mods are, in order, the mods of the level's groups from the start index on |
| Build.GroupShape | regionator/region.py:229-233 | a group's mod takes the OUTER dict's first identifier for its level, its own group's parameters, and the next level of the outer dict as contents |
| Build.ContentsSizeFormula | regionator/region.py:196-260 | with n1, n2, n3 groups on the three levels a top-level mod contains n1*(1+n2*(1+n3)) mods |
| Build.ShapedHeight | regionator/region.py:196-260 | no nesting deeper than three inner levels is built |
| Build.BuildTop | regionator/region.py:183-263 | a top-level entry builds exactly when it has an identifier and its levels build; the counter advances by the tree's size |
| Build.TopShape | regionator/region.py:184-194 | a top-level mod has the entry's identifier and parameter groups, its contents are shaped by the entry's levels, and it is at most four levels high |
| Build.BuildAll | regionator/region.py:183-263 | the region's mods build exactly when every entry builds, one mod per entry |
| Build.AllShape | regionator/region.py:183-263 | each built mod is shaped by its own entry |
| Build.FromParseResults | regionator/region.py:148-160 | succeeds exactly when every entry builds; the region keeps its name, parses its own parameter tokens, and has one mod per entry |
| Build.RegionShape | regionator/region.py:148-153 | the region's k-th mod comes from the k-th entry and is at most four levels high |
| Build.RegionIds | regionator/region.py:41 | the random tags are drawn in output order: the k-th mod written after the context is the k-th mod constructed |

## Left out

- Loading `mod_index.yml` at import time (lines 28-30): the mod-index table is a parameter `index` of type `map<string, seq<(string, string)>>`. Each translator's items keep their order, with keys already `str()`-ed.
- The `JSONEncoder.default` patch (lines 21-25) and JSON text: records are a small structured datatype (`Json.Record`). No serialization to text is modelled.
- `uuid.uuid4()` (line 41): randomness is the parameter `ids`. That the tag is hexadecimal is a precondition of `Mods.RefInjective`, not a modelled fact.
- `from_rdl_file` (lines 138-146), the pyparsing grammar, and the `exec`-of-`repr` conversion (lines 128-132): the parse results are given as an abstract `Build.ParseResults`. That value holds only what `_parse_mods_from_results` reads: identifier lists, parameter groups, and the per-level lists of the outer dict. How pyparsing produces those lists is not part of this model.
- `Text.ParseInt`: Python's `int` also accepts surrounding whitespace, `_` digit separators and non-ASCII decimal digits (for example Arabic-Indic digits). The model accepts only an optional sign and the ASCII digits `0`-`9`, so such values are modelled as errors.
- `Text.Capitalize`: ASCII letters only. Python's `str.capitalize` also maps other Unicode letters.
- `__repr__` methods and the `Region` constructor's `params`/`mods` defaults: not behaviour of the output.
- Shared mutable defaults (`params={}`, `contained_mods=[]`): never mutated by the modelled code, so they have no effect.
- Exceptions are modelled as `Error` values. Which Python exception class is raised is kept only as the `Error` constructor.
