/** Decoded request parameters: `parse_query`/`parse_form` and `single` of
    crates/oidc-core/src/authorize.rs and token.rs. */
module Params {
  import opened Basics
  import opened Form

  /** All values given for `name`, in order. */
  function Values(pairs: Pairs, name: string): seq<string> {
    if pairs == [] then []
    else
      var n := |pairs| - 1;
      Values(pairs[..n], name) + (if pairs[n].0 == name then [pairs[n].1] else [])
  }

  datatype Lookup = Absent | Exactly(value: string) | Repeated

  /** `single`. */
  function Single(pairs: Pairs, name: string): Lookup {
    var vs := Values(pairs, name);
    if |vs| == 0 then Absent else if |vs| == 1 then Exactly(vs[0]) else Repeated
  }

  /** `single(..).ok().flatten()`. */
  function SingleOrNone(pairs: Pairs, name: string): Option<string> {
    match Single(pairs, name)
    case Exactly(v) => Some(v)
    case _ => None
  }

  predicate HasRepeated(pairs: Pairs) {
    exists i, j :: 0 <= i < j < |pairs| && pairs[i].0 == pairs[j].0
  }

  type ParamMap = map<string, seq<string>>

  ghost predicate Collects(params: ParamMap, pairs: Pairs) {
    forall name ::
      && (name in params <==> Values(pairs, name) != [])
      && (name in params ==> params[name] == Values(pairs, name))
  }

  /** The map-filling loop of `parse_query` and `parse_form`. */
  method Collect(pairs: Pairs) returns (params: ParamMap)
    ensures Collects(params, pairs)
  {
    params := map[];
    for i := 0 to |pairs|
      invariant Collects(params, pairs[..i])
    {
      var (name, value) := pairs[i];
      assert pairs[..i + 1][..i] == pairs[..i];
      var before := if name in params then params[name] else [];
      params := params[name := before + [value]];
    }
    assert pairs[..|pairs|] == pairs;
  }

  function SingleIn(params: ParamMap, name: string): Lookup {
    if name !in params then Absent
    else if |params[name]| == 1 then Exactly(params[name][0])
    else Repeated
  }

  lemma {:induction false} ValuesCount(pairs: Pairs, name: string)
    ensures |Values(pairs, name)| >= 1 <==> exists i :: 0 <= i < |pairs| && pairs[i].0 == name
    ensures |Values(pairs, name)| >= 2 <==>
        exists i, j :: 0 <= i < j < |pairs| && pairs[i].0 == name && pairs[j].0 == name
  {
    if pairs != [] {
      var n := |pairs| - 1;
      var front := pairs[..n];
      ValuesCount(front, name);
      if |Values(pairs, name)| >= 2 {
        if |Values(front, name)| >= 2 {
          var i, j :| 0 <= i < j < |front| && front[i].0 == name && front[j].0 == name;
          assert pairs[i].0 == name && pairs[j].0 == name;
        } else {
          var i :| 0 <= i < |front| && front[i].0 == name;
          assert pairs[i].0 == name && pairs[n].0 == name;
        }
      }
      if i, j :| 0 <= i < j < |pairs| && pairs[i].0 == name && pairs[j].0 == name {
        assert front[i].0 == name;
        if j < n { assert front[j].0 == name; }
      }
      if i :| 0 <= i < |pairs| && pairs[i].0 == name {
        if i < n { assert front[i].0 == name; }
      }
    }
  }

  /** Without repetition a pair's value is what `single` finds under its name. */
  lemma {:induction false} SingleAt(pairs: Pairs, i: nat)
    requires i < |pairs| && !HasRepeated(pairs)
    ensures Single(pairs, pairs[i].0) == Exactly(pairs[i].1)
  {
    var n := |pairs| - 1;
    ValuesCount(pairs[..n], pairs[i].0);
    if i < n {
      assert !HasRepeated(pairs[..n]);
      SingleAt(pairs[..n], i);
      assert pairs[n].0 != pairs[i].0;
    } else {
      assert forall j :: 0 <= j < n ==> pairs[..n][j].0 != pairs[i].0;
    }
  }

  lemma NoSuchName(pairs: Pairs, name: string)
    requires forall i :: 0 <= i < |pairs| ==> pairs[i].0 != name
    ensures Single(pairs, name) == Absent
  {
    ValuesCount(pairs, name);
  }
}
