/** The field translator (`Mod.neohabitat_mod`, lines 64-76, and
    `Mod._chomped_params`): re-keys a mod's positionally indexed additional
    parameters into named output fields using the mod-index table. */
module Translate {
  import opened Wrappers
  import opened Errors
  import opened Dict
  import opened Text
  import opened Params
  import opened Json

  /** The sentinel index whose field collects every remaining parameter. */
  const Chomp := "CHOMP"

  /** The chomp cursor's starting value. */
  const FirstChompIndex := 8

  /** One translator entry: `str(index)` and the output field it feeds. */
  type Entry = (string, string)

  /** The mod-index table: capitalized kind to its translator, in the order the
      translator's items are iterated. */
  type ModIndex = map<string, seq<Entry>>

  /** A parameter value copied as is: a string, or `null` for a `None` value. */
  function RawValue(v: Option<string>): Value {
    match v
    case Some(s) => Str(s)
    case None => Null
  }

  /** How many entries name a positional index rather than the sentinel. */
  function IndexEntryCount(entries: seq<Entry>): nat {
    if entries == [] then 0
    else (if entries[0].0 != Chomp then 1 else 0) + IndexEntryCount(entries[1..])
  }

  /** The loop over `translator.items()`: every index entry whose index is an
      additional key copies that key's raw value to its field, and the cursor
      advances once per index entry, hit or miss. */
  function ApplyEntries(entries: seq<Entry>, extra: Table, obj: Object, cursor: int): (r: (Object, int))
    ensures r.1 == cursor + IndexEntryCount(entries)
  {
    if entries == [] then (obj, cursor)
    else
      var (index, field) := entries[0];
      if index != Chomp then
        var obj' := match Get(extra, Some(index))
          case Some(v) => obj[field := RawValue(v)]
          case None => obj;
        ApplyEntries(entries[1..], extra, obj', cursor + 1)
      else
        ApplyEntries(entries[1..], extra, obj, cursor)
  }

  /** Reference description of what `ApplyEntries` writes to `field`: the value
      of the LAST index entry for that field whose index is present. */
  function LastWrite(entries: seq<Entry>, extra: Table, field: string): Option<Value> {
    if entries == [] then None
    else
      match LastWrite(entries[1..], extra, field)
      case Some(v) => Some(v)
      case None =>
        if entries[0].0 != Chomp && entries[0].1 == field && Get(extra, Some(entries[0].0)).Some? then
          Some(RawValue(Get(extra, Some(entries[0].0)).value))
        else None
  }

  /** Each field gets the raw (unconverted) value of the last hitting entry for
      it; a field no entry hits keeps whatever it had. */
  lemma {:induction false} ApplyEntriesFields(entries: seq<Entry>, extra: Table, obj: Object, cursor: int, field: string)
    ensures var out := ApplyEntries(entries, extra, obj, cursor).0;
      match LastWrite(entries, extra, field)
      case Some(v) => field in out && out[field] == v
      case None => (field in out <==> field in obj) && (field in obj ==> out[field] == obj[field])
  {
    if entries != [] {
      var (index, f) := entries[0];
      if index != Chomp {
        var obj' := match Get(extra, Some(index))
          case Some(v) => obj[f := RawValue(v)]
          case None => obj;
        ApplyEntriesFields(entries[1..], extra, obj', cursor + 1, field);
      } else {
        ApplyEntriesFields(entries[1..], extra, obj, cursor, field);
      }
    }
  }

  /** `translator['CHOMP']`, when the translator has that key. */
  function ChompField(entries: seq<Entry>): (r: Option<string>)
    ensures r.Some? <==> exists i :: 0 <= i < |entries| && entries[i].0 == Chomp
    ensures r.Some? ==> exists i :: 0 <= i < |entries| && entries[i] == (Chomp, r.value)
  {
    if entries == [] then None
    else if entries[0].0 == Chomp then Some(entries[0].1)
    else
      var r := ChompField(entries[1..]);
      assert forall i :: 0 < i < |entries| ==> entries[i] == entries[1..][i - 1];
      r
  }

  // ---------------------------------------------------------------------------
  // `_chomped_params(start)`

  /** `int(key)` for a parameter name, which may be `None`. */
  function KeyInt(k: Option<string>): Option<int> {
    match k
    case Some(s) => ParseInt(s)
    case None => None
  }

  /** `int(value)`, failing as Python does on `None` or on a non-decimal string. */
  function IntValue(v: Option<string>, key: string): (r: Result<int, Error>)
    ensures r.Success? <==> KeyInt(v).Some?
    ensures r.Success? ==> KeyInt(v) == Some(r.value)
  {
    match v
    case None => Failure(NoneValue(key))
    case Some(s) =>
      match ParseInt(s)
      case Some(n) => Success(n)
      case None => Failure(NotAnInteger(key, s))
  }

  predicate AllKeysNumeric(extra: Table) {
    forall i :: 0 <= i < |extra| ==> KeyInt(extra[i].0).Some?
  }

  /** The integers the additional parameters' keys denote. */
  function NumericKeySet(extra: Table): set<int> {
    set i | 0 <= i < |extra| && KeyInt(extra[i].0).Some? :: KeyInt(extra[i].0).value
  }

  /** The key comprehension `{int(k): v for k, v in items}`: converts every key,
      in insertion order, stopping at the first that is not an integer. */
  function NumericKeys(extra: Table): (r: Result<seq<int>, Error>)
    ensures r.Success? <==> AllKeysNumeric(extra)
    ensures r.Success? ==> |r.value| == |extra|
    ensures r.Success? ==> forall i :: 0 <= i < |extra| ==> KeyInt(extra[i].0) == Some(r.value[i])
  {
    if extra == [] then Success([])
    else
      var n :- IntValue(extra[0].0, "additional parameter name");
      var rest :- NumericKeys(extra[1..]);
      assert forall i :: 0 < i < |extra| ==> extra[i] == extra[1..][i - 1];
      Success([n] + rest)
  }

  /** The value the key comprehension keeps for `n`: that of the last item
      whose key denotes `n`. */
  function ValueFor(extra: Table, n: int): Option<string> {
    if extra == [] then None
    else if KeyInt(extra[|extra| - 1].0) == Some(n) then extra[|extra| - 1].1
    else ValueFor(extra[..|extra| - 1], n)
  }

  predicate Ascending(s: seq<int>) {
    forall i, j :: 0 <= i < j < |s| ==> s[i] < s[j]
  }

  lemma ConsAscending(x: int, s: seq<int>)
    requires Ascending(s)
    requires forall n :: n in s ==> x < n
    ensures Ascending([x] + s)
  {
    var r := [x] + s;
    forall i, j | 0 <= i < j < |r|
      ensures r[i] < r[j]
    {
      assert r[j] == s[j - 1];
      if i > 0 {
        assert r[i] == s[i - 1];
      } else {
        assert s[j - 1] in s;
      }
    }
  }

  function Insert(x: int, s: seq<int>): (r: seq<int>)
    requires Ascending(s)
    ensures Ascending(r)
    ensures forall n :: n in r <==> n == x || n in s
  {
    if s == [] then [x]
    else if x < s[0] then [x] + s
    else if x == s[0] then s
    else
      var rest := Insert(x, s[1..]);
      assert forall n :: n in s[1..] ==> s[0] < n;
      ConsAscending(s[0], rest);
      [s[0]] + rest
  }

  /** `sorted(set(xs))`. */
  function SortDistinct(xs: seq<int>): (r: seq<int>)
    ensures Ascending(r)
    ensures forall n :: n in r <==> n in xs
  {
    if xs == [] then [] else Insert(xs[0], SortDistinct(xs[1..]))
  }

  /** The members of `s` that are at least `start`, in their order. */
  function AtLeast(s: seq<int>, start: int): (r: seq<int>)
    requires Ascending(s)
    ensures Ascending(r)
    ensures forall n :: n in r <==> n in s && n >= start
  {
    if s == [] then []
    else if s[0] >= start then
      var rest := AtLeast(s[1..], start);
      assert forall n :: n in rest ==> s[0] < n;
      ConsAscending(s[0], rest);
      [s[0]] + rest
    else AtLeast(s[1..], start)
  }

  /** `int(value)` for each key of `ks`, in that order. */
  function ChompValues(extra: Table, ks: seq<int>): (r: Result<seq<int>, Error>)
    ensures r.Success? <==> forall i :: 0 <= i < |ks| ==> KeyInt(ValueFor(extra, ks[i])).Some?
    ensures r.Success? ==> |r.value| == |ks|
    ensures r.Success? ==> forall i :: 0 <= i < |ks| ==> KeyInt(ValueFor(extra, ks[i])) == Some(r.value[i])
  {
    if ks == [] then Success([])
    else
      var v :- IntValue(ValueFor(extra, ks[0]), "additional parameter value");
      var rest :- ChompValues(extra, ks[1..]);
      assert forall i :: 0 < i < |ks| ==> ks[i] == ks[1..][i - 1];
      Success([v] + rest)
  }

  /** `_chomped_params(start)`: the integer values of exactly the additional
      keys at or above `start`, in ascending key order. Fails if any key is not
      an integer, or if any value it collects is not. */
  function ChompedParams(extra: Table, start: int): (r: Result<seq<int>, Error>)
    ensures r.Success? <==>
      AllKeysNumeric(extra)
      && forall n :: n in NumericKeySet(extra) && n >= start ==> KeyInt(ValueFor(extra, n)).Some?
    ensures r.Success? ==>
      exists ks: seq<int> ::
        && Ascending(ks)
        && (forall n :: n in ks <==> n in NumericKeySet(extra) && n >= start)
        && |ks| == |r.value|
        && (forall i :: 0 <= i < |ks| ==> KeyInt(ValueFor(extra, ks[i])) == Some(r.value[i]))
  {
    var keys :- NumericKeys(extra);
    var ks := AtLeast(SortDistinct(keys), start);
    assert forall n :: n in keys <==> n in NumericKeySet(extra) by {
      forall n ensures n in keys <==> n in NumericKeySet(extra) {
        if n in keys {
          var i :| 0 <= i < |keys| && keys[i] == n;
          assert KeyInt(extra[i].0) == Some(n);
        }
      }
    }
    assert forall n :: n in ks <==> n in NumericKeySet(extra) && n >= start;
    var out := ChompValues(extra, ks);
    if out.Failure? then
      assert exists n :: n in NumericKeySet(extra) && n >= start && KeyInt(ValueFor(extra, n)).None? by {
        var i :| 0 <= i < |ks| && KeyInt(ValueFor(extra, ks[i])).None?;
        assert ks[i] in ks;
      }
      out
    else
      out
  }
}
