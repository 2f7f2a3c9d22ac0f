/**
  The Leontief shock engine shared by every version of the simulator: the
  technical-coefficient matrix of the four aggregated sectors, the one-hot
  demand shock, the national impact `L @ d`, the sector multipliers and the
  value-added and tax coefficients.
*/
module Leontief {
  import opened Sums
  import opened LinAlg

  /** Agriculture, industry, construction and services, in `setores` order. */
  const SectorCount: nat := 4

  type Sector = s: nat | s < SectorCount

  /** `setores`, as indices. */
  const AllSectors: seq<Sector> := [0, 1, 2, 3]

  /** Summing a column sector by sector gives its total. */
  lemma SumBySectors(keys: seq<Sector>, xs: seq<real>)
    requires |keys| == |xs|
    ensures SumByKeys(AllSectors, keys, xs) == Sum(xs)
  {
    assert forall i | 0 <= i < |keys| :: keys[i] in AllSectors by {
      forall i | 0 <= i < |keys| ensures keys[i] in AllSectors {
        assert keys[i] == AllSectors[keys[i]];
      }
    }
    SumByKeysPartition(AllSectors, keys, xs);
  }

  /** Share of taxes in value added (`coef_impostos`). */
  const TaxRate: real := 0.18

  /**
    `matriz_a.values`: entry `[i][j]` is what sector `i` supplies per unit of
    output of sector `j` (each source dictionary entry is one column).
  */
  function TechnicalCoefficients(): (A: Matrix)
    ensures IsSquare(A, SectorCount)
  {
    [[0.201, 0.085, 0.003, 0.012],
     [0.155, 0.351, 0.298, 0.105],
     [0.002, 0.004, 0.001, 0.008],
     [0.117, 0.160, 0.145, 0.245]]
  }

  /** `L` is the matrix `inv(I - A)` computed once from the technical coefficients. */
  predicate IsEngineMatrix(L: Matrix) {
    IsLeontiefInverse(TechnicalCoefficients(), L)
  }

  /** `coef_vab = 1 - matriz_a.sum()`: the value added per unit of output of each sector. */
  function CoefVab(A: Matrix): (c: Vector)
    requires IsSquare(A, |A|)
    ensures |c| == |A|
  {
    seq(|A|, j requires 0 <= j < |A| => 1.0 - ColSum(A, j))
  }

  /** Every unit of output is intermediate input plus value added, and the coefficients are the published ones. */
  lemma CoefVabValues()
    ensures CoefVab(TechnicalCoefficients()) == [0.525, 0.4, 0.553, 0.63]
    ensures forall j | 0 <= j < SectorCount :: 0.0 < CoefVab(TechnicalCoefficients())[j] < 1.0
  {
    var A := TechnicalCoefficients();
    assert Column(A, 0) == [0.201, 0.155, 0.002, 0.117];
    assert Column(A, 1) == [0.085, 0.351, 0.004, 0.160];
    assert Column(A, 2) == [0.003, 0.298, 0.001, 0.145];
    assert Column(A, 3) == [0.012, 0.105, 0.008, 0.245];
    SumOfFour(0.201, 0.155, 0.002, 0.117);
    SumOfFour(0.085, 0.351, 0.004, 0.160);
    SumOfFour(0.003, 0.298, 0.001, 0.145);
    SumOfFour(0.012, 0.105, 0.008, 0.245);
  }

  lemma SumOfFour(a: real, b: real, c: real, d: real)
    ensures Sum([a, b, c, d]) == a + b + c + d
  {
    assert [a][..0] == [];
    assert Sum([a]) == a;
    assert [a, b][..1] == [a];
    assert Sum([a, b]) == a + b;
    assert [a, b, c][..2] == [a, b];
    assert Sum([a, b, c]) == a + b + c;
    assert [a, b, c, d][..3] == [a, b, c];
  }

  /**
    `vetor_choque = np.zeros(4); vetor_choque[setor_idx] = valor_choque`:
    a demand of `v` in sector `k` and nothing elsewhere.
  */
  method BuildShock(k: Sector, v: real) returns (d: array<real>)
    ensures d.Length == SectorCount
    ensures d[..] == OneHot(SectorCount, k, v)
  {
    d := new real[SectorCount](_ => 0.0);
    d[k] := v;
  }

  /** `matriz_L @ vetor_choque`: the national output of each sector caused by the shock. */
  function Impacts(L: Matrix, k: Sector, v: real): (x: Vector)
    requires IsSquare(L, SectorCount)
    ensures x == Scale(Column(L, k), v)
  {
    MatVecOneHot(L, k, v);
    MatVec(L, OneHot(SectorCount, k, v))
  }

  /**
    `calcular_impactos`: `inv(I - A) @ shock` for an arbitrary shock vector,
    which is the one vector of sector outputs that meets the shock exactly.
  */
  function SectorImpacts(L: Matrix, shock: Vector): (x: Vector)
    requires IsEngineMatrix(L) && |shock| == SectorCount
    ensures |x| == SectorCount
    ensures MatVec(Minus(Identity(SectorCount), TechnicalCoefficients()), x) == shock
  {
    LeontiefSolves(TechnicalCoefficients(), L, shock);
    MatVec(L, shock)
  }

  /** The impacts solve the Leontief system: `(I - A) @ x == d`, so the shock is met exactly. */
  lemma ImpactsMeetDemand(L: Matrix, k: Sector, v: real)
    requires IsEngineMatrix(L)
    ensures MatVec(Minus(Identity(SectorCount), TechnicalCoefficients()), Impacts(L, k, v)) == OneHot(SectorCount, k, v)
  {
    LeontiefSolvesOneHot(TechnicalCoefficients(), L, k, v);
  }

  /** `matriz_L_df.sum(axis=0)[setor]`: the production multiplier of a sector. */
  function Multiplier(L: Matrix, k: Sector): real
    requires IsSquare(L, SectorCount)
  {
    ColSum(L, k)
  }

  /** The total production impact is the shock times the multiplier of the shocked sector. */
  lemma TotalImpact(L: Matrix, k: Sector, v: real)
    requires IsSquare(L, SectorCount)
    ensures Sum(Impacts(L, k, v)) == v * Multiplier(L, k)
  {
    TotalOfOneHot(L, k, v);
  }

  /** `total_prod / valor_choque if valor_choque > 0 else 0`. */
  function ObservedMultiplier(total: real, v: real): real {
    if v > 0.0 then total / v else 0.0
  }

  /** The multiplier read back from a simulation is the column sum of `L` whenever the shock is positive. */
  lemma ObservedMultiplierIsColumnSum(L: Matrix, k: Sector, v: real)
    requires IsSquare(L, SectorCount)
    ensures v > 0.0 ==> ObservedMultiplier(Sum(Impacts(L, k, v)), v) == Multiplier(L, k)
    ensures v <= 0.0 ==> ObservedMultiplier(Sum(Impacts(L, k, v)), v) == 0.0
  {
    TotalImpact(L, k, v);
  }

  /** `vab_setor * (percentual_choque / 100.0)` with the slider's range of 0.1 to 50 percent. */
  function ShockValue(vab: real, percent: real): (v: real)
    requires 0.1 <= percent <= 50.0
    ensures v * 100.0 == vab * percent
    ensures vab >= 0.0 ==> vab / 1000.0 <= v <= vab / 2.0
  {
    vab * (percent / 100.0)
  }
}
