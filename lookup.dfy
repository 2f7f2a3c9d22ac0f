/**
  Python dictionaries filled by a loop over rows, `d[key(row)] = value(row)`:
  every key seen gets an entry, and a key seen more than once keeps the value
  of its last row.
*/
module Lookup {
  import opened Wrappers

  /** Row `i` is the last row whose key is `k`. */
  predicate IsLast<K(==)>(keys: seq<K>, k: K, i: int) {
    0 <= i < |keys| && keys[i] == k && forall j | i < j < |keys| :: keys[j] != k
  }

  /** The value of the last row whose key is `k`, or `None` when no row has it. */
  function LastValue<K(==), V>(keys: seq<K>, vals: seq<V>, k: K): (r: Option<V>)
    requires |keys| == |vals|
    ensures r.None? <==> forall i | 0 <= i < |keys| :: keys[i] != k
    ensures r.Some? ==> exists i :: IsLast(keys, k, i) && vals[i] == r.value
  {
    if |keys| == 0 then None
    else if keys[|keys| - 1] == k then Some(vals[|vals| - 1])
    else LastValue(keys[..|keys| - 1], vals[..|vals| - 1], k)
  }

  /** A key that only one row has gets that row's value. */
  lemma LastValueOfUnique<K, V>(keys: seq<K>, vals: seq<V>, i: nat)
    requires |keys| == |vals| && i < |keys|
    requires forall j | 0 <= j < |keys| && j != i :: keys[j] != keys[i]
    ensures LastValue(keys, vals, keys[i]) == Some(vals[i])
  {
    var r := LastValue(keys, vals, keys[i]);
    var j :| IsLast(keys, keys[i], j) && vals[j] == r.value;
  }

  /** The dictionary of the rows: each row in turn sets its key to its value. */
  function IndexMap<K(==), V>(keys: seq<K>, vals: seq<V>): map<K, V>
    requires |keys| == |vals|
  {
    if |keys| == 0 then map[]
    else
      var n := |keys| - 1;
      IndexMap(keys[..n], vals[..n])[keys[n] := vals[n]]
  }

  /** The dictionary has exactly the keys seen, each with the value of its last row. */
  lemma {:induction false} IndexMapSpec<K, V>(keys: seq<K>, vals: seq<V>)
    requires |keys| == |vals|
    ensures forall k :: k in IndexMap(keys, vals) <==> LastValue(keys, vals, k).Some?
    ensures forall k | k in IndexMap(keys, vals) :: IndexMap(keys, vals)[k] == LastValue(keys, vals, k).value
  {
    if |keys| > 0 {
      var n := |keys| - 1;
      IndexMapSpec(keys[..n], vals[..n]);
    }
  }

  /** The loop `for row in rows: d[key(row)] = value(row)`, starting from an empty dictionary. */
  method BuildIndex<K(==), V>(keys: seq<K>, vals: seq<V>) returns (m: map<K, V>)
    requires |keys| == |vals|
    ensures m == IndexMap(keys, vals)
  {
    m := map[];
    for i := 0 to |keys|
      invariant m == IndexMap(keys[..i], vals[..i])
    {
      assert keys[..i + 1][..i] == keys[..i] && vals[..i + 1][..i] == vals[..i];
      m := m[keys[i] := vals[i]];
    }
    assert keys[..|keys|] == keys && vals[..|vals|] == vals;
  }
}
