/**
  The pandas group-by operations the simulators rely on:
  `groupby(key)[col].transform(lambda x: x / x.sum())` (a row's share of its
  group), `col.unique()` (distinct keys in order of first appearance) and
  `groupby(key)[col].sum()` (one total per distinct key).
*/
module GroupBy {
  import opened Sums

  /** `x / total`, with a zero total giving a zero share where pandas would give NaN. */
  function Ratio(x: real, total: real): real {
    if total == 0.0 then 0.0 else x / total
  }

  /** Each row's value divided by the total of its group. */
  function GroupShares<K(==)>(keys: seq<K>, xs: seq<real>): (sh: seq<real>)
    requires |keys| == |xs|
    ensures |sh| == |xs|
    ensures forall i | 0 <= i < |xs| :: sh[i] == Ratio(xs[i], SumIf(keys, xs, keys[i]))
  {
    seq(|xs|, i requires 0 <= i < |xs| => Ratio(xs[i], SumIf(keys, xs, keys[i])))
  }

  /** The shares of a group with a non-zero total add up to one. */
  lemma SharesSumToOne<K>(keys: seq<K>, xs: seq<real>, k: K)
    requires |keys| == |xs| && SumIf(keys, xs, k) != 0.0
    ensures SumIf(keys, GroupShares(keys, xs), k) == 1.0
  {
    var sh := GroupShares(keys, xs);
    forall i | 0 <= i < |keys| && keys[i] == k ensures sh[i] == xs[i] / SumIf(keys, xs, k) {
    }
    SumIfDivided(keys, xs, sh, k, SumIf(keys, xs, k));
    DivSelf(SumIf(keys, xs, k));
  }

  lemma DivSelf(t: real)
    requires t != 0.0
    ensures t / t == 1.0
  {
  }

  /** A row's value is at most the total of its group when no value is negative. */
  lemma {:induction false} SumIfAtLeast<K>(keys: seq<K>, xs: seq<real>, i: nat)
    requires |keys| == |xs| && i < |xs|
    requires forall j | 0 <= j < |xs| :: xs[j] >= 0.0
    ensures 0.0 <= xs[i] <= SumIf(keys, xs, keys[i])
    decreases |xs|
  {
    var n := |xs| - 1;
    SumIfNonNegative(keys[..n], xs[..n], keys[i]);
    if i < n {
      SumIfAtLeast(keys[..n], xs[..n], i);
    }
  }

  lemma {:induction false} SumIfNonNegative<K>(keys: seq<K>, xs: seq<real>, k: K)
    requires |keys| == |xs|
    requires forall j | 0 <= j < |xs| :: xs[j] >= 0.0
    ensures SumIf(keys, xs, k) >= 0.0
    decreases |xs|
  {
    if |xs| > 0 {
      SumIfNonNegative(keys[..|xs| - 1], xs[..|xs| - 1], k);
    }
  }

  /** With no negative values every share lies between zero and one. */
  lemma SharesBounded<K>(keys: seq<K>, xs: seq<real>)
    requires |keys| == |xs|
    requires forall j | 0 <= j < |xs| :: xs[j] >= 0.0
    ensures forall i | 0 <= i < |xs| :: 0.0 <= GroupShares(keys, xs)[i] <= 1.0
  {
    var sh := GroupShares(keys, xs);
    forall i | 0 <= i < |xs| ensures 0.0 <= sh[i] <= 1.0 {
      SumIfAtLeast(keys, xs, i);
      RatioBounded(xs[i], SumIf(keys, xs, keys[i]));
    }
  }

  lemma RatioBounded(x: real, t: real)
    requires 0.0 <= x <= t
    ensures 0.0 <= Ratio(x, t) <= 1.0
  {
    if t != 0.0 {
      var q := x / t;
      assert q * t == x;
    }
  }

  /** `pd.Series(ks).unique()`: each key once, in order of first appearance. */
  function Unique<K(==)>(ks: seq<K>): (u: seq<K>)
    ensures Distinct(u)
    ensures forall i | 0 <= i < |ks| :: ks[i] in u
    ensures forall j | 0 <= j < |u| :: u[j] in ks
    ensures |u| <= |ks|
  {
    if |ks| == 0 then []
    else
      var n := |ks| - 1;
      var u := Unique(ks[..n]);
      assert forall i | 0 <= i < n :: ks[..n][i] == ks[i];
      if ks[n] in u then u else u + [ks[n]]
  }

  /** Unique keeps a key list that has no repetitions as it is. */
  lemma {:induction false} UniqueOfDistinct<K>(ks: seq<K>)
    requires Distinct(ks)
    ensures Unique(ks) == ks
    decreases |ks|
  {
    if |ks| > 0 {
      var n := |ks| - 1;
      UniqueOfDistinct(ks[..n]);
      assert ks[n] !in ks[..n];
      assert ks[..n] + [ks[n]] == ks;
    }
  }

  /** `groupby(key)[col].sum()` for the keys `ks`, one total per key. */
  function GroupSums<K(==)>(ks: seq<K>, keys: seq<K>, xs: seq<real>): (g: seq<real>)
    requires |keys| == |xs|
    ensures |g| == |ks| && forall j | 0 <= j < |ks| :: g[j] == SumIf(keys, xs, ks[j])
  {
    seq(|ks|, j requires 0 <= j < |ks| => SumIf(keys, xs, ks[j]))
  }

  /** Grouping over the distinct keys of the rows loses nothing: the group totals add up to the column total. */
  lemma GroupSumsPreserveTotal<K>(keys: seq<K>, xs: seq<real>)
    requires |keys| == |xs|
    ensures Sum(GroupSums(Unique(keys), keys, xs)) == Sum(xs)
  {
    var u := Unique(keys);
    SumByKeysPartition(u, keys, xs);
    GroupSumsAreSumByKeys(u, keys, xs);
  }

  lemma {:induction false} GroupSumsAreSumByKeys<K>(ks: seq<K>, keys: seq<K>, xs: seq<real>)
    requires |keys| == |xs|
    ensures Sum(GroupSums(ks, keys, xs)) == SumByKeys(ks, keys, xs)
    decreases |ks|
  {
    if |ks| > 0 {
      var n := |ks| - 1;
      GroupSumsAreSumByKeys(ks[..n], keys, xs);
      assert GroupSums(ks, keys, xs)[..n] == GroupSums(ks[..n], keys, xs);
    }
  }
}
