/** The parameter-table parser (`Region._parse_params`): a two-mode scan over
    the tokens of one parameter group, producing an insertion-ordered table.
    Keys and values are optional because the pending name and value start out
    as `None` and a `;` commits whatever is pending. */
module Params {
  import opened Wrappers
  import opened Dict

  type Token = string

  /** A parsed parameter table: pending name to pending value. */
  type Table = Dict<Option<string>, Option<string>>

  const Newline: Token := "\n"
  const Terminator: Token := ";"

  /** A token containing `:` only switches to value mode. */
  predicate IsSeparator(t: Token) { ':' in t }

  /** A token that becomes a pending name or value. */
  predicate IsWord(t: Token) {
    t != Newline && !IsSeparator(t) && t != Terminator
  }

  /** The loop state: the table so far, the pending name and value, and the mode. */
  datatype Scan = Scan(table: Table, name: Option<string>, value: Option<string>, onName: bool)

  const Start := Scan([], None, None, true)

  /** One loop iteration, branch for branch. */
  function Step(s: Scan, t: Token): Scan {
    if t == Newline then s
    else if IsSeparator(t) then s.(onName := false)
    else if t == Terminator then s.(table := Put(s.table, s.name, s.value), onName := true)
    else if s.onName then s.(name := Some(t))
    else s.(value := Some(t))
  }

  /** The state after scanning `ts` from left to right. */
  function Run(ts: seq<Token>): (s: Scan)
    ensures DistinctKeys(s.table)
  {
    if ts == [] then Start else Step(Run(ts[..|ts| - 1]), ts[|ts| - 1])
  }

  lemma RunSnoc(ts: seq<Token>, t: Token)
    ensures Run(ts + [t]) == Step(Run(ts), t)
  {
    assert (ts + [t])[..|ts|] == ts;
  }

  /** `_parse_params(tokens)`. */
  function ParseParams(ts: seq<Token>): Table {
    Run(ts).table
  }

  // ---------------------------------------------------------------------------
  // Reference description of the pending state, one component at a time,
  // read backwards from the end of the token sequence.

  /** Name mode holds unless the last mode-switching token was a separator. */
  function OnNameAfter(ts: seq<Token>): bool {
    if ts == [] then true
    else if IsSeparator(ts[|ts| - 1]) then false
    else if ts[|ts| - 1] == Terminator then true
    else OnNameAfter(ts[..|ts| - 1])
  }

  /** The last word read in name mode, if any. */
  function PendingName(ts: seq<Token>): Option<string> {
    if ts == [] then None
    else if IsWord(ts[|ts| - 1]) && OnNameAfter(ts[..|ts| - 1]) then Some(ts[|ts| - 1])
    else PendingName(ts[..|ts| - 1])
  }

  /** The last word read in value mode, if any; a commit never clears it. */
  function PendingValue(ts: seq<Token>): Option<string> {
    if ts == [] then None
    else if IsWord(ts[|ts| - 1]) && !OnNameAfter(ts[..|ts| - 1]) then Some(ts[|ts| - 1])
    else PendingValue(ts[..|ts| - 1])
  }

  /** The scan's pending name, value and mode are the reference ones. */
  lemma {:induction false} RunPending(ts: seq<Token>)
    ensures Run(ts).name == PendingName(ts)
    ensures Run(ts).value == PendingValue(ts)
    ensures Run(ts).onName == OnNameAfter(ts)
  {
    if ts != [] {
      RunPending(ts[..|ts| - 1]);
    }
  }

  /** A `;` commits the pending name to the pending value, overwriting any
      earlier value of that name in place. */
  lemma CommitOverwrites(ts: seq<Token>)
    ensures ParseParams(ts + [Terminator])
         == Put(ParseParams(ts), PendingName(ts), PendingValue(ts))
  {
    assert (ts + [Terminator])[..|ts|] == ts;
    RunPending(ts);
  }

  /** Only `;` changes the table: anything after the last `;` (a trailing pair
      without terminator) is absent from the result. */
  lemma {:induction false} TrailingPairDropped(ts: seq<Token>, rest: seq<Token>)
    requires Terminator !in rest
    ensures ParseParams(ts + rest) == ParseParams(ts)
  {
    if rest != [] {
      var last := rest[|rest| - 1];
      var init := rest[..|rest| - 1];
      assert (ts + rest)[..|ts + rest| - 1] == ts + init;
      assert Terminator !in init by {
        forall i | 0 <= i < |init| ensures init[i] != Terminator {
          assert init[i] == rest[i];
        }
      }
      TrailingPairDropped(ts, init);
      assert last != Terminator;
      RunSnoc(ts + init, last);
      assert ts + init + [last] == ts + rest;
    } else {
      assert ts + rest == ts;
    }
  }

  /** The pending value is not reset by a commit: a name committed with no value
      token of its own takes the previously pending value. */
  lemma ValueReused(ts: seq<Token>, name: Token)
    requires IsWord(name)
    ensures Get(ParseParams(ts + [Terminator, name, Terminator]), Some(name))
         == Some(PendingValue(ts))
  {
    var a := ts + [Terminator];
    var b := a + [name];
    var c := b + [Terminator];
    assert ts + [Terminator, name, Terminator] == c;
    assert c[..|c| - 1] == b;
    assert b[..|b| - 1] == a;
    assert a[..|a| - 1] == ts;
    RunPending(ts);
    assert Run(a) == Step(Run(ts), Terminator);
    assert Run(a).onName && Run(a).value == PendingValue(ts);
    assert Run(b) == Step(Run(a), name);
    assert Run(b).name == Some(name) && Run(b).value == PendingValue(ts);
    assert Run(c) == Step(Run(b), Terminator);
  }

  /** `tokens` with every newline token removed. */
  function WithoutNewlines(ts: seq<Token>): (r: seq<Token>)
    ensures Newline !in r
    ensures |r| <= |ts|
  {
    if ts == [] then []
    else if ts[|ts| - 1] == Newline then WithoutNewlines(ts[..|ts| - 1])
    else WithoutNewlines(ts[..|ts| - 1]) + [ts[|ts| - 1]]
  }

  /** Newline tokens are skipped: removing them changes nothing, not even the
      pending state. */
  lemma {:induction false} NewlinesIgnored(ts: seq<Token>)
    ensures Run(WithoutNewlines(ts)) == Run(ts)
    ensures ParseParams(WithoutNewlines(ts)) == ParseParams(ts)
  {
    if ts != [] {
      var init := ts[..|ts| - 1];
      NewlinesIgnored(init);
      if ts[|ts| - 1] != Newline {
        var w := WithoutNewlines(init) + [ts[|ts| - 1]];
        assert w[..|w| - 1] == WithoutNewlines(init);
      }
    }
  }

  // ---------------------------------------------------------------------------
  // Which pairs end up in the table.

  /** Position `i` is a `;` that commits `name` to `value`. */
  predicate CommitAt(ts: seq<Token>, i: int, name: Option<string>, value: Option<string>)
    requires 0 <= i < |ts|
  {
    ts[i] == Terminator && PendingName(ts[..i]) == name && PendingValue(ts[..i]) == value
  }

  /** Position `i` commits `name`, and no later `;` commits the same name. */
  predicate LastCommitAt(ts: seq<Token>, i: int, name: Option<string>, value: Option<string>)
    requires 0 <= i < |ts|
  {
    CommitAt(ts, i, name, value)
    && forall j :: i < j < |ts| && ts[j] == Terminator ==> PendingName(ts[..j]) != name
  }

  /** Appending one token keeps an earlier last commit of `name` the last one
      unless the token is a `;` that commits `name` again. */
  lemma LastCommitExtend(ts: seq<Token>, t: Token, i: int, name: Option<string>, value: Option<string>)
    requires 0 <= i < |ts|
    ensures LastCommitAt(ts + [t], i, name, value)
        <==> LastCommitAt(ts, i, name, value) && (t == Terminator ==> PendingName(ts) != name)
  {
    var u := ts + [t];
    assert u[..i] == ts[..i];
    assert u[..|ts|] == ts;
    forall j | i < j < |ts|
      ensures u[j] == ts[j] && u[..j] == ts[..j]
    {
    }
  }

  /** The table after one more token: a `;` commits, anything else leaves
      the table as it was. */
  lemma TableSnoc(ts: seq<Token>, t: Token)
    ensures ParseParams(ts + [t])
         == if t == Terminator then Put(ParseParams(ts), PendingName(ts), PendingValue(ts))
            else ParseParams(ts)
  {
    RunSnoc(ts, t);
    RunPending(ts);
  }

  /** Every pair in the table was put there by the last `;` committing its name. */
  lemma {:induction false} CommitsSound(ts: seq<Token>, name: Option<string>, value: Option<string>)
    requires Get(ParseParams(ts), name) == Some(value)
    ensures exists i :: 0 <= i < |ts| && LastCommitAt(ts, i, name, value)
  {
    var n := |ts| - 1;
    var init := ts[..n];
    var t := ts[n];
    assert init + [t] == ts;
    TableSnoc(init, t);
    if t == Terminator && PendingName(init) == name {
      assert ts[..n] == init;
      assert LastCommitAt(ts, n, name, value);
    } else {
      assert Get(ParseParams(init), name) == Some(value);
      CommitsSound(init, name, value);
      var i :| 0 <= i < |init| && LastCommitAt(init, i, name, value);
      LastCommitExtend(init, t, i, name, value);
    }
  }

  /** The last `;` committing a name puts its pair in the table. */
  lemma {:induction false} CommitsComplete(ts: seq<Token>, i: int, name: Option<string>, value: Option<string>)
    requires 0 <= i < |ts| && LastCommitAt(ts, i, name, value)
    ensures Get(ParseParams(ts), name) == Some(value)
  {
    var n := |ts| - 1;
    var init := ts[..n];
    var t := ts[n];
    assert init + [t] == ts;
    TableSnoc(init, t);
    if i == n {
      assert ts[..i] == init;
    } else {
      LastCommitExtend(init, t, i, name, value);
      CommitsComplete(init, i, name, value);
    }
  }

  /** The table maps a name to a value exactly when the last `;` that commits
      that name commits it to that value: only `;` commits, and the last commit
      of a name wins. */
  lemma ParseParamsCommits(ts: seq<Token>, name: Option<string>, value: Option<string>)
    ensures Get(ParseParams(ts), name) == Some(value)
        <==> exists i :: 0 <= i < |ts| && LastCommitAt(ts, i, name, value)
  {
    if Get(ParseParams(ts), name) == Some(value) {
      CommitsSound(ts, name, value);
    }
    if exists i :: 0 <= i < |ts| && LastCommitAt(ts, i, name, value) {
      var i :| 0 <= i < |ts| && LastCommitAt(ts, i, name, value);
      CommitsComplete(ts, i, name, value);
    }
  }

  /** The documented example: two terminated pairs, in order. */
  lemma ParseTwoPairs()
    ensures ParseParams(["x", ":", "5", ";", "y", ":", "10", ";"])
         == [(Some("x"), Some("5")), (Some("y"), Some("10"))]
  {
    var t0: seq<Token> := [];
    var t1 := t0 + ["x"];
    var t2 := t1 + [":"];
    var t3 := t2 + ["5"];
    var t4 := t3 + [";"];
    var t5 := t4 + ["y"];
    var t6 := t5 + [":"];
    var t7 := t6 + ["10"];
    var t8 := t7 + [";"];
    RunSnoc(t0, "x");
    assert Run(t1) == Scan([], Some("x"), None, true);
    RunSnoc(t1, ":");
    assert Run(t2) == Scan([], Some("x"), None, false);
    RunSnoc(t2, "5");
    assert Run(t3) == Scan([], Some("x"), Some("5"), false);
    RunSnoc(t3, ";");
    assert Run(t4) == Scan([(Some("x"), Some("5"))], Some("x"), Some("5"), true);
    RunSnoc(t4, "y");
    assert Run(t5) == Scan([(Some("x"), Some("5"))], Some("y"), Some("5"), true);
    RunSnoc(t5, ":");
    assert Run(t6) == Scan([(Some("x"), Some("5"))], Some("y"), Some("5"), false);
    RunSnoc(t6, "10");
    assert Run(t7) == Scan([(Some("x"), Some("5"))], Some("y"), Some("10"), false);
    RunSnoc(t7, ";");
    assert t8 == ["x", ":", "5", ";", "y", ":", "10", ";"];
  }
}
