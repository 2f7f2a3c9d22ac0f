/**
  Column sums as pandas computes them: the sum of a column, the sum of a
  column over the rows whose key equals a given key (`groupby(key)[col].sum()`
  for one group), and the laws that relate them.
*/
module Sums {

  /** `col.sum()`. */
  function Sum(xs: seq<real>): real {
    if |xs| == 0 then 0.0 else Sum(xs[..|xs| - 1]) + xs[|xs| - 1]
  }

  /** The sum of `xs` over the rows whose key is `k`. */
  function SumIf<K(==)>(keys: seq<K>, xs: seq<real>, k: K): real
    requires |keys| == |xs|
  {
    if |xs| == 0 then 0.0
    else
      var n := |xs| - 1;
      SumIf(keys[..n], xs[..n], k) + (if keys[n] == k then xs[n] else 0.0)
  }

  /** The group sums for the keys `ks`, added up. */
  function SumByKeys<K(==)>(ks: seq<K>, keys: seq<K>, xs: seq<real>): real
    requires |keys| == |xs|
  {
    if |ks| == 0 then 0.0 else SumByKeys(ks[..|ks| - 1], keys, xs) + SumIf(keys, xs, ks[|ks| - 1])
  }

  predicate Distinct<K(==)>(ks: seq<K>) {
    forall i, j | 0 <= i < j < |ks| :: ks[i] != ks[j]
  }

  lemma {:induction false} SumAppend(a: seq<real>, b: seq<real>)
    ensures Sum(a + b) == Sum(a) + Sum(b)
    decreases |b|
  {
    if |b| > 0 {
      var n := |b| - 1;
      assert (a + b)[..|a + b| - 1] == a + b[..n];
      SumAppend(a, b[..n]);
    } else {
      assert a + b == a;
    }
  }

  lemma {:induction false} SumIfAppend<K>(k1: seq<K>, x1: seq<real>, k2: seq<K>, x2: seq<real>, k: K)
    requires |k1| == |x1| && |k2| == |x2|
    ensures SumIf(k1 + k2, x1 + x2, k) == SumIf(k1, x1, k) + SumIf(k2, x2, k)
    decreases |x2|
  {
    if |x2| > 0 {
      var n := |x2| - 1;
      assert (k1 + k2)[..|x1| + n] == k1 + k2[..n];
      assert (x1 + x2)[..|x1| + n] == x1 + x2[..n];
      SumIfAppend(k1, x1, k2[..n], x2[..n], k);
    } else {
      assert k1 + k2 == k1 && x1 + x2 == x1;
    }
  }

  /** Over the rows of key `k`, `ys` is `c` times `xs`, so the group sums are in the same ratio. */
  lemma {:induction false} SumIfScaled<K>(keys: seq<K>, xs: seq<real>, ys: seq<real>, k: K, c: real)
    requires |keys| == |xs| == |ys|
    requires forall i | 0 <= i < |keys| && keys[i] == k :: ys[i] == c * xs[i]
    ensures SumIf(keys, ys, k) == c * SumIf(keys, xs, k)
    decreases |xs|
  {
    if |xs| > 0 {
      var n := |xs| - 1;
      SumIfScaled(keys[..n], xs[..n], ys[..n], k, c);
    }
  }

  /** Over a column whose rows all have key `k`, the group sum is the column sum. */
  lemma {:induction false} SumIfDivided<K>(keys: seq<K>, xs: seq<real>, ys: seq<real>, k: K, t: real)
    requires |keys| == |xs| == |ys| && t != 0.0
    requires forall i | 0 <= i < |keys| && keys[i] == k :: ys[i] == xs[i] / t
    ensures SumIf(keys, ys, k) == SumIf(keys, xs, k) / t
    decreases |keys|
  {
    if |keys| > 0 {
      var n := |keys| - 1;
      SumIfDivided(keys[..n], xs[..n], ys[..n], k, t);
      var a, b := SumIf(keys[..n], xs[..n], k), if keys[n] == k then xs[n] else 0.0;
      assert SumIf(keys, xs, k) == a + b;
      assert SumIf(keys, ys, k) == a / t + b / t;
      DivAdd(a, b, t);
    }
  }

  lemma DivAdd(a: real, b: real, t: real)
    requires t != 0.0
    ensures (a + b) / t == a / t + b / t
  {
  }

  lemma {:induction false} SumIfAll<K>(keys: seq<K>, xs: seq<real>, k: K)
    requires |keys| == |xs|
    requires forall i | 0 <= i < |keys| :: keys[i] == k
    ensures SumIf(keys, xs, k) == Sum(xs)
    decreases |xs|
  {
    if |xs| > 0 {
      SumIfAll(keys[..|xs| - 1], xs[..|xs| - 1], k);
    }
  }

  /** A key that no row carries has an empty group. */
  lemma {:induction false} SumIfNone<K>(keys: seq<K>, xs: seq<real>, k: K)
    requires |keys| == |xs|
    requires forall i | 0 <= i < |keys| :: keys[i] != k
    ensures SumIf(keys, xs, k) == 0.0
    decreases |xs|
  {
    if |xs| > 0 {
      SumIfNone(keys[..|xs| - 1], xs[..|xs| - 1], k);
    }
  }

  lemma {:induction false} SumByKeysAppend<K>(ks: seq<K>, k1: seq<K>, x1: seq<real>, k2: seq<K>, x2: seq<real>)
    requires |k1| == |x1| && |k2| == |x2|
    ensures SumByKeys(ks, k1 + k2, x1 + x2) == SumByKeys(ks, k1, x1) + SumByKeys(ks, k2, x2)
    decreases |ks|
  {
    if |ks| > 0 {
      SumByKeysAppend(ks[..|ks| - 1], k1, x1, k2, x2);
      SumIfAppend(k1, x1, k2, x2, ks[|ks| - 1]);
    }
  }

  /** A single row is counted once when the keys are distinct and include its key. */
  lemma {:induction false} SumByKeysSingle<K>(ks: seq<K>, k: K, x: real)
    requires Distinct(ks)
    ensures SumByKeys(ks, [k], [x]) == if k in ks then x else 0.0
    decreases |ks|
  {
    if |ks| > 0 {
      var n := |ks| - 1;
      assert Distinct(ks[..n]);
      SumByKeysSingle(ks[..n], k, x);
      assert [k][..0] == [] && [x][..0] == [];
      assert SumIf([k], [x], ks[n]) == if k == ks[n] then x else 0.0;
      assert k in ks <==> k in ks[..n] || k == ks[n];
      assert k == ks[n] ==> k !in ks[..n];
    }
  }

  /**
    The groups of a column partition it: summing the group sums over distinct
    keys that include every row's key gives the column sum.
  */
  lemma {:induction false} SumByKeysPartition<K>(ks: seq<K>, keys: seq<K>, xs: seq<real>)
    requires |keys| == |xs| && Distinct(ks)
    requires forall i | 0 <= i < |keys| :: keys[i] in ks
    ensures SumByKeys(ks, keys, xs) == Sum(xs)
    decreases |xs|
  {
    if |xs| == 0 {
      SumByKeysEmpty(ks, keys, xs);
    } else {
      var n := |xs| - 1;
      assert keys == keys[..n] + [keys[n]];
      assert xs == xs[..n] + [xs[n]];
      SumByKeysPartition(ks, keys[..n], xs[..n]);
      SumByKeysAppend(ks, keys[..n], xs[..n], [keys[n]], [xs[n]]);
      SumByKeysSingle(ks, keys[n], xs[n]);
    }
  }

  lemma {:induction false} SumByKeysEmpty<K>(ks: seq<K>, keys: seq<K>, xs: seq<real>)
    requires |keys| == |xs| == 0
    ensures SumByKeys(ks, keys, xs) == 0.0
    decreases |ks|
  {
    if |ks| > 0 {
      SumByKeysEmpty(ks[..|ks| - 1], keys, xs);
    }
  }

  /** `Sum` is linear: multiplying every entry by `c` multiplies the sum by `c`. */
  lemma {:induction false} SumTimes(xs: seq<real>, ys: seq<real>, c: real)
    requires |xs| == |ys| && forall i | 0 <= i < |xs| :: ys[i] == xs[i] * c
    ensures Sum(ys) == Sum(xs) * c
    decreases |xs|
  {
    if |xs| > 0 {
      SumTimes(xs[..|xs| - 1], ys[..|ys| - 1], c);
    }
  }

  /** `Sum` is linear: scaling every entry scales the sum. */
  lemma {:induction false} SumScaled(xs: seq<real>, ys: seq<real>, c: real)
    requires |xs| == |ys| && forall i | 0 <= i < |xs| :: ys[i] == c * xs[i]
    ensures Sum(ys) == c * Sum(xs)
    decreases |xs|
  {
    if |xs| > 0 {
      SumScaled(xs[..|xs| - 1], ys[..|ys| - 1], c);
    }
  }

  /** `Sum` is additive: the sum of a column that adds two columns is the sum of their sums. */
  lemma {:induction false} SumAdd(xs: seq<real>, ys: seq<real>, zs: seq<real>)
    requires |xs| == |ys| == |zs| && forall i | 0 <= i < |zs| :: zs[i] == xs[i] + ys[i]
    ensures Sum(zs) == Sum(xs) + Sum(ys)
    decreases |zs|
  {
    if |zs| > 0 {
      SumAdd(xs[..|xs| - 1], ys[..|ys| - 1], zs[..|zs| - 1]);
    }
  }

  /** When the group of the `j`-th key adds up to `ys[j]`, the group sums over `ks` add up to `Sum(ys)`. */
  lemma {:induction false} SumByKeysMatch<K>(ks: seq<K>, keys: seq<K>, xs: seq<real>, ys: seq<real>)
    requires |keys| == |xs| && |ys| == |ks|
    requires forall j | 0 <= j < |ks| :: SumIf(keys, xs, ks[j]) == ys[j]
    ensures SumByKeys(ks, keys, xs) == Sum(ys)
    decreases |ks|
  {
    if |ks| > 0 {
      SumByKeysMatch(ks[..|ks| - 1], keys, xs, ys[..|ys| - 1]);
    }
  }
}
