/**
  The square-matrix algebra of the Leontief model over exact reals: products,
  the identity, column sums, one-hot vectors, and the facts that make
  `L = (I - A)^-1` usable without computing it.
*/
module LinAlg {
  import opened Sums

  type Vector = seq<real>
  type Matrix = seq<seq<real>>

  /** `M` has `p` rows of `q` entries each. */
  predicate IsRect(M: Matrix, p: nat, q: nat) {
    |M| == p && forall i | 0 <= i < p :: |M[i]| == q
  }

  predicate IsSquare(M: Matrix, n: nat) {
    IsRect(M, n, n)
  }

  function Dot(u: Vector, v: Vector): real
    requires |u| == |v|
  {
    if |u| == 0 then 0.0 else Dot(u[..|u| - 1], v[..|v| - 1]) + u[|u| - 1] * v[|v| - 1]
  }

  /** Column `j` of a matrix with rows of length greater than `j`. */
  function Column(M: Matrix, j: nat): (c: Vector)
    requires forall i | 0 <= i < |M| :: j < |M[i]|
    ensures |c| == |M| && forall i | 0 <= i < |M| :: c[i] == M[i][j]
  {
    seq(|M|, i requires 0 <= i < |M| => M[i][j])
  }

  /** `M @ v`. */
  function MatVec(M: Matrix, v: Vector): (r: Vector)
    requires IsRect(M, |M|, |v|)
    ensures |r| == |M| && forall i | 0 <= i < |M| :: r[i] == Dot(M[i], v)
  {
    seq(|M|, i requires 0 <= i < |M| => Dot(M[i], v))
  }

  /** `M @ P` for square matrices of the same size. */
  function MatMul(M: Matrix, P: Matrix): (R: Matrix)
    requires IsSquare(M, |M|) && IsSquare(P, |M|)
    ensures IsSquare(R, |M|)
    ensures forall i, j | 0 <= i < |M| && 0 <= j < |M| :: R[i][j] == Dot(M[i], Column(P, j))
  {
    seq(|M|, i requires 0 <= i < |M| => seq(|M|, j requires 0 <= j < |M| => Dot(M[i], Column(P, j))))
  }

  /** `np.identity(n)`. */
  function Identity(n: nat): (I: Matrix)
    ensures IsSquare(I, n)
    ensures forall i, j | 0 <= i < n && 0 <= j < n :: I[i][j] == if i == j then 1.0 else 0.0
  {
    seq(n, i => seq(n, j => if i == j then 1.0 else 0.0))
  }

  /** `M - P`, entry by entry. */
  function Minus(M: Matrix, P: Matrix): (R: Matrix)
    requires IsSquare(M, |M|) && IsSquare(P, |M|)
    ensures IsSquare(R, |M|)
    ensures forall i, j | 0 <= i < |M| && 0 <= j < |M| :: R[i][j] == M[i][j] - P[i][j]
  {
    seq(|M|, i requires 0 <= i < |M| => seq(|M|, j requires 0 <= j < |M| => M[i][j] - P[i][j]))
  }

  /** `L` is the Leontief inverse of `A`: `(I - A) @ L == I`. */
  predicate IsLeontiefInverse(A: Matrix, L: Matrix) {
    IsSquare(A, |A|) && IsSquare(L, |A|) && MatMul(Minus(Identity(|A|), A), L) == Identity(|A|)
  }

  /** The sum of column `j`: `M.sum(axis=0)[j]`. */
  function ColSum(M: Matrix, j: nat): real
    requires forall i | 0 <= i < |M| :: j < |M[i]|
  {
    Sum(Column(M, j))
  }

  /** A vector of `n` zeros except `v` at position `k`. */
  function OneHot(n: nat, k: nat, v: real): (d: Vector)
    ensures |d| == n && forall i | 0 <= i < n :: d[i] == if i == k then v else 0.0
  {
    seq(n, i => if i == k then v else 0.0)
  }

  function Scale(u: Vector, c: real): (r: Vector)
    ensures |r| == |u| && forall i | 0 <= i < |u| :: r[i] == c * u[i]
  {
    seq(|u|, i requires 0 <= i < |u| => c * u[i])
  }

  // ---------------------------------------------------------------------------
  // Dot products
  // ---------------------------------------------------------------------------

  lemma {:induction false} DotOneHot(u: Vector, k: nat, v: real)
    requires k < |u|
    ensures Dot(u, OneHot(|u|, k, v)) == v * u[k]
    decreases |u|
  {
    var n := |u| - 1;
    var d := OneHot(|u|, k, v);
    assert Dot(u, d) == Dot(u[..n], d[..n]) + u[n] * d[n];
    if k < n {
      assert d[..n] == OneHot(n, k, v);
      DotOneHot(u[..n], k, v);
      assert u[..n][k] == u[k] && d[n] == 0.0;
    } else {
      assert d[..n] == OneHot(n, n, 0.0);
      DotZero(u[..n]);
      assert d[n] == v && u[n] * v == v * u[k];
    }
  }

  lemma {:induction false} DotZero(u: Vector)
    ensures Dot(u, OneHot(|u|, |u|, 0.0)) == 0.0
    decreases |u|
  {
    if |u| > 0 {
      var n := |u| - 1;
      assert OneHot(|u|, |u|, 0.0)[..n] == OneHot(n, n, 0.0);
      DotZero(u[..n]);
    }
  }

  lemma {:induction false} DotScaleRight(u: Vector, w: Vector, c: real)
    requires |u| == |w|
    ensures Dot(u, Scale(w, c)) == c * Dot(u, w)
    decreases |u|
  {
    if |u| > 0 {
      var n := |u| - 1;
      ScalePrefix(w, c, n);
      DotScaleRight(u[..n], w[..n], c);
      Commutes(u[n], c, w[n], Dot(u[..n], w[..n]));
    }
  }

  /** A prefix of a scaled vector is the scaled prefix. */
  lemma ScalePrefix(w: Vector, c: real, n: nat)
    requires n <= |w|
    ensures Scale(w, c)[..n] == Scale(w[..n], c)
  {
    assert forall i | 0 <= i < n :: Scale(w, c)[..n][i] == Scale(w[..n], c)[i];
  }

  lemma Commutes(x: real, c: real, y: real, d: real)
    ensures c * d + x * (c * y) == c * (d + x * y)
  {
  }

  /** `a + b`, entry by entry. */
  function Add(a: Vector, b: Vector): (r: Vector)
    requires |a| == |b|
    ensures |r| == |a| && forall m | 0 <= m < |a| :: r[m] == a[m] + b[m]
  {
    seq(|a|, m requires 0 <= m < |a| => a[m] + b[m])
  }

  /** `d` with every entry from `k` on replaced by zero. */
  function Prefix(d: Vector, k: nat): (t: Vector)
    requires k <= |d|
    ensures |t| == |d| && forall i | 0 <= i < |d| :: t[i] == if i < k then d[i] else 0.0
  {
    seq(|d|, i requires 0 <= i < |d| => if i < k then d[i] else 0.0)
  }

  lemma {:induction false} DotAddRight(u: Vector, a: Vector, b: Vector)
    requires |u| == |a| == |b|
    ensures Dot(u, Add(a, b)) == Dot(u, a) + Dot(u, b)
    decreases |u|
  {
    if |u| > 0 {
      var n := |u| - 1;
      AddPrefix(a, b, n);
      DotAddRight(u[..n], a[..n], b[..n]);
      Distributes(u[n], a[n], b[n]);
    }
  }

  /** A prefix of a sum is the sum of the prefixes. */
  lemma AddPrefix(a: Vector, b: Vector, n: nat)
    requires |a| == |b| && n <= |a|
    ensures Add(a, b)[..n] == Add(a[..n], b[..n])
  {
    assert forall i | 0 <= i < n :: Add(a, b)[..n][i] == Add(a[..n], b[..n])[i];
  }

  lemma Distributes(x: real, y: real, z: real)
    ensures x * (y + z) == x * y + x * z
  {
  }

  /** `M @ (a + b) == M @ a + M @ b`. */
  lemma MatVecAdd(M: Matrix, a: Vector, b: Vector)
    requires IsRect(M, |M|, |a|) && |a| == |b|
    ensures MatVec(M, Add(a, b)) == Add(MatVec(M, a), MatVec(M, b))
  {
    forall i | 0 <= i < |M| ensures MatVec(M, Add(a, b))[i] == Add(MatVec(M, a), MatVec(M, b))[i] {
      DotAddRight(M[i], a, b);
    }
  }

  /** `M @ 0 == 0`. */
  lemma MatVecZero(M: Matrix, q: nat)
    requires IsRect(M, |M|, q)
    ensures MatVec(M, OneHot(q, q, 0.0)) == OneHot(|M|, |M|, 0.0)
  {
    forall i | 0 <= i < |M| ensures MatVec(M, OneHot(q, q, 0.0))[i] == 0.0 {
      DotZero(M[i]);
    }
  }

  /** `M @ (v c) == v (M @ c)`. */
  lemma MatVecScale(M: Matrix, c: Vector, v: real)
    requires IsRect(M, |M|, |c|)
    ensures MatVec(M, Scale(c, v)) == Scale(MatVec(M, c), v)
  {
    forall i | 0 <= i < |M| ensures MatVec(M, Scale(c, v))[i] == Scale(MatVec(M, c), v)[i] {
      DotScaleRight(M[i], c, v);
    }
  }

  // ---------------------------------------------------------------------------
  // The Leontief system
  // ---------------------------------------------------------------------------

  /** A one-hot demand `v` at `k` moves every sector by `v` times column `k` of `L`. */
  lemma MatVecOneHot(L: Matrix, k: nat, v: real)
    requires IsSquare(L, |L|) && k < |L|
    ensures MatVec(L, OneHot(|L|, k, v)) == Scale(Column(L, k), v)
  {
    forall i | 0 <= i < |L| ensures MatVec(L, OneHot(|L|, k, v))[i] == Scale(Column(L, k), v)[i] {
      DotOneHot(L[i], k, v);
    }
  }

  /** The total impact of a one-hot demand is `v` times the column sum of `L`. */
  lemma TotalOfOneHot(L: Matrix, k: nat, v: real)
    requires IsSquare(L, |L|) && k < |L|
    ensures Sum(MatVec(L, OneHot(|L|, k, v))) == v * ColSum(L, k)
  {
    MatVecOneHot(L, k, v);
    SumScaled(Column(L, k), Scale(Column(L, k), v), v);
  }

  /** Column `k` of `L` is the demand that `(I - A)` maps to the unit vector `e_k`. */
  lemma LeontiefColumn(A: Matrix, L: Matrix, k: nat)
    requires IsLeontiefInverse(A, L) && k < |A|
    ensures MatVec(Minus(Identity(|A|), A), Column(L, k)) == OneHot(|A|, k, 1.0)
  {
    var B := Minus(Identity(|A|), A);
    forall i | 0 <= i < |A| ensures MatVec(B, Column(L, k))[i] == OneHot(|A|, k, 1.0)[i] {
      assert MatMul(B, L)[i][k] == Dot(B[i], Column(L, k));
    }
  }

  /** A one-hot demand is reproduced exactly: `(I - A) @ (L @ (v e_k)) == v e_k`. */
  lemma LeontiefSolvesOneHot(A: Matrix, L: Matrix, k: nat, v: real)
    requires IsLeontiefInverse(A, L) && k < |A|
    ensures MatVec(Minus(Identity(|A|), A), MatVec(L, OneHot(|A|, k, v))) == OneHot(|A|, k, v)
  {
    var n := |A|;
    var B := Minus(Identity(n), A);
    MatVecOneHot(L, k, v);
    MatVecScale(B, Column(L, k), v);
    LeontiefColumn(A, L, k);
    assert Scale(OneHot(n, k, 1.0), v) == OneHot(n, k, v);
  }

  /** `L @ d` solves the Leontief system: `(I - A) @ (L @ d) == d` for every demand vector `d`. */
  lemma LeontiefSolves(A: Matrix, L: Matrix, d: Vector)
    requires IsLeontiefInverse(A, L) && |d| == |A|
    ensures MatVec(Minus(Identity(|A|), A), MatVec(L, d)) == d
  {
    var n := |A|;
    LeontiefSolvesPrefix(A, L, d, n);
    assert Prefix(d, n) == d;
  }

  lemma {:induction false} LeontiefSolvesPrefix(A: Matrix, L: Matrix, d: Vector, k: nat)
    requires IsLeontiefInverse(A, L) && |d| == |A| && k <= |d|
    ensures MatVec(Minus(Identity(|A|), A), MatVec(L, Prefix(d, k))) == Prefix(d, k)
    decreases k
  {
    var n := |A|;
    var B := Minus(Identity(n), A);
    if k == 0 {
      assert Prefix(d, 0) == OneHot(n, n, 0.0);
      MatVecZero(L, n);
      MatVecZero(B, n);
    } else {
      var e := OneHot(n, k - 1, d[k - 1]);
      assert Prefix(d, k) == Add(Prefix(d, k - 1), e);
      LeontiefSolvesPrefix(A, L, d, k - 1);
      LeontiefSolvesOneHot(A, L, k - 1, d[k - 1]);
      MatVecAdd(L, Prefix(d, k - 1), e);
      MatVecAdd(B, MatVec(L, Prefix(d, k - 1)), MatVec(L, e));
    }
  }
}
