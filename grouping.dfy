/**
 * The two dictionary-building loops both source files use: appending rows
 * to a per-key list, and assigning keys so that the last write wins.
 */
module Grouping {
  import opened Lengths

  /** The values paired with `k`, in input order. */
  function GroupOf<V>(pairs: seq<(Key, V)>, k: Key): seq<V>
    decreases |pairs|
  {
    if pairs == [] then []
    else
      var p := pairs[|pairs| - 1];
      GroupOf(pairs[..|pairs| - 1], k) + (if p.0 == k then [p.1] else [])
  }

  /** GroupOf keeps exactly the values paired with `k`, each where it was. */
  lemma {:induction false} GroupOfIsFilter<V>(pairs: seq<(Key, V)>, k: Key)
    ensures |GroupOf(pairs, k)| <= |pairs|
    ensures forall v :: v in GroupOf(pairs, k) <==> (k, v) in pairs
    decreases |pairs|
  {
    if pairs != [] {
      var pre := pairs[..|pairs| - 1];
      GroupOfIsFilter(pre, k);
      assert pairs == pre + [pairs[|pairs| - 1]];
    }
  }

  /** `if not d.has_key(k): d[k] = []` then `d[k].append(v)`, for every
      pair: one list per key present, in input order. */
  method GroupByKey<V>(pairs: seq<(Key, V)>) returns (groups: map<Key, seq<V>>)
    ensures forall k :: k in groups <==> GroupOf(pairs, k) != []
    ensures forall k :: k in groups ==> groups[k] == GroupOf(pairs, k)
  {
    groups := map[];
    for i := 0 to |pairs|
      invariant forall k :: k in groups <==> GroupOf(pairs[..i], k) != []
      invariant forall k :: k in groups ==> groups[k] == GroupOf(pairs[..i], k)
    {
      var (key, value) := pairs[i];
      assert pairs[..i + 1][..i] == pairs[..i];
      if key !in groups {
        groups := groups[key := []];
      }
      groups := groups[key := groups[key] + [value]];
    }
    assert pairs[..|pairs|] == pairs;
  }

  /** `d[k] = v` for every pair in order. */
  function LastWins<K, V>(pairs: seq<(K, V)>): map<K, V>
    decreases |pairs|
  {
    if pairs == [] then map[]
    else
      var p := pairs[|pairs| - 1];
      LastWins(pairs[..|pairs| - 1])[p.0 := p.1]
  }

  /** LastWins has every key written, and for each the value of its last
      write. */
  lemma {:induction false} LastWinsKeepsLastWrite<K, V>(pairs: seq<(K, V)>)
    ensures forall k :: k in LastWins(pairs) <==> exists i :: 0 <= i < |pairs| && pairs[i].0 == k
    ensures forall i :: 0 <= i < |pairs| && (forall j :: i < j < |pairs| ==> pairs[j].0 != pairs[i].0) ==>
              LastWins(pairs)[pairs[i].0] == pairs[i].1
    decreases |pairs|
  {
    if pairs != [] {
      var pre := pairs[..|pairs| - 1];
      LastWinsKeepsLastWrite(pre);
      assert forall i :: 0 <= i < |pre| ==> pre[i] == pairs[i];
    }
  }

  method BuildDict<K, V>(pairs: seq<(K, V)>) returns (d: map<K, V>)
    ensures d == LastWins(pairs)
  {
    d := map[];
    for i := 0 to |pairs|
      invariant d == LastWins(pairs[..i])
    {
      assert pairs[..i + 1][..i] == pairs[..i];
      d := d[pairs[i].0 := pairs[i].1];
    }
    assert pairs[..|pairs|] == pairs;
  }
}
