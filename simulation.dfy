/**
  `executar_simulacao_avancada` of the elegant and premium editions: the
  national impact of a one-hot shock is split over the regions of each
  sector by their national share, sector by sector in `setores` order.
*/
module Simulation {
  import opened Wrappers
  import opened Sums
  import opened LinAlg
  import opened GroupBy
  import opened Leontief
  import opened Economy

  /** An input row with `impacto_producao`, `impacto_empregos` and `impacto_empresas` (elegant edition only). */
  datatype SimRow = SimRow(row: EconRow, production: real, jobs: real, firms: Option<real>)

  /** The impact columns added to one row of a sector whose national impact is `x`. */
  function SimulatedRow(r: EconRow, x: real, withFirms: bool): SimRow {
    var p := r.share * x;
    SimRow(r, p, p * 0.02, if withFirms then Some(p * 0.01) else None)
  }

  /** `df_economia[df_economia['setor'] == setor]`: the rows of one sector, in input order. */
  function SectorRows(rows: seq<EconRow>, s: Sector): (f: seq<EconRow>)
    ensures forall j | 0 <= j < |f| :: f[j].sector == s
    ensures |f| <= |rows|
  {
    if |rows| == 0 then []
    else
      var n := |rows| - 1;
      SectorRows(rows[..n], s) + (if rows[n].sector == s then [rows[n]] else [])
  }

  /** The block of result rows for sector `s`: `dados_setor` with its three impact columns. */
  function SectorBlock(rows: seq<EconRow>, s: Sector, x: real, withFirms: bool): (b: seq<SimRow>)
    ensures |b| == |SectorRows(rows, s)|
    ensures forall j | 0 <= j < |b| :: b[j] == SimulatedRow(SectorRows(rows, s)[j], x, withFirms)
  {
    Block(SectorRows(rows, s), x, withFirms)
  }

  /** The blocks of the first `n` sectors, concatenated (`pd.concat(resultados)`). */
  function Distribution(rows: seq<EconRow>, impacts: Vector, withFirms: bool, n: nat): seq<SimRow>
    requires n <= SectorCount && |impacts| == SectorCount
  {
    if n == 0 then [] else Distribution(rows, impacts, withFirms, n - 1) + SectorBlock(rows, n - 1, impacts[n - 1], withFirms)
  }

  /** The simulation: the shock vector, `matriz_L @ vetor_choque`, then one block per sector. */
  method Simulate(L: Matrix, rows: seq<EconRow>, v: real, k: Sector, withFirms: bool)
    returns (results: seq<SimRow>, impacts: Vector)
    requires IsSquare(L, SectorCount)
    ensures impacts == Impacts(L, k, v)
    ensures results == Distribution(rows, impacts, withFirms, SectorCount)
    ensures forall i | 0 <= i < |results| :: results[i].jobs == 0.02 * results[i].production
    ensures forall i | 0 <= i < |results| ::
      results[i].firms == if withFirms then Some(0.01 * results[i].production) else None
  {
    var d := BuildShock(k, v);
    impacts := MatVec(L, d[..]);
    results := Distribute(rows, impacts, withFirms);
  }

  /** The loop over `setores`: each sector's rows with their impact columns, sector after sector. */
  method Distribute(rows: seq<EconRow>, impacts: Vector, withFirms: bool) returns (results: seq<SimRow>)
    requires |impacts| == SectorCount
    ensures results == Distribution(rows, impacts, withFirms, SectorCount)
    ensures forall i | 0 <= i < |results| :: results[i].jobs == 0.02 * results[i].production
    ensures forall i | 0 <= i < |results| ::
      results[i].firms == if withFirms then Some(0.01 * results[i].production) else None
  {
    results := [];
    for i := 0 to SectorCount
      invariant results == Distribution(rows, impacts, withFirms, i)
      invariant forall j | 0 <= j < |results| :: results[j].jobs == 0.02 * results[j].production
      invariant forall j | 0 <= j < |results| ::
        results[j].firms == if withFirms then Some(0.01 * results[j].production) else None
    {
      var b := SectorBlock(rows, i, impacts[i], withFirms);
      BlockRates(SectorRows(rows, i), impacts[i], withFirms);
      results := results + b;
    }
  }

  /** Every row of a block carries jobs at 2% and, when counted, firms at 1% of its production. */
  lemma BlockRates(f: seq<EconRow>, x: real, withFirms: bool)
    ensures var b := Block(f, x, withFirms);
      forall j | 0 <= j < |b| ::
        b[j].jobs == 0.02 * b[j].production &&
        b[j].firms == if withFirms then Some(0.01 * b[j].production) else None
  {
  }

  function Bases(rs: seq<SimRow>): (b: seq<EconRow>)
    ensures |b| == |rs| && forall i | 0 <= i < |rs| :: b[i] == rs[i].row
  {
    seq(|rs|, i requires 0 <= i < |rs| => rs[i].row)
  }

  /** The rows of sectors below `m`, in input order. */
  function SectorsBelow(rows: seq<EconRow>, m: nat): seq<EconRow> {
    if |rows| == 0 then []
    else
      var n := |rows| - 1;
      SectorsBelow(rows[..n], m) + (if rows[n].sector < m then [rows[n]] else [])
  }

  lemma {:induction false} SectorsBelowStep(rows: seq<EconRow>, m: nat)
    requires 0 < m <= SectorCount
    ensures multiset(SectorsBelow(rows, m)) == multiset(SectorsBelow(rows, m - 1)) + multiset(SectorRows(rows, m - 1))
    decreases |rows|
  {
    if |rows| > 0 {
      SectorsBelowStep(rows[..|rows| - 1], m);
    }
  }

  lemma {:induction false} SectorsBelowAll(rows: seq<EconRow>)
    ensures SectorsBelow(rows, SectorCount) == rows
    decreases |rows|
  {
    if |rows| > 0 {
      var n := |rows| - 1;
      SectorsBelowAll(rows[..n]);
      assert rows[n].sector < SectorCount;
      assert rows == rows[..n] + [rows[n]];
    }
  }

  /** The rows of the first `n` sectors, sector by sector. */
  function BySector(rows: seq<EconRow>, n: nat): seq<EconRow>
    requires n <= SectorCount
  {
    if n == 0 then [] else BySector(rows, n - 1) + SectorRows(rows, n - 1)
  }

  lemma {:induction false} DistributionBases(rows: seq<EconRow>, impacts: Vector, withFirms: bool, n: nat)
    requires n <= SectorCount && |impacts| == SectorCount
    ensures Bases(Distribution(rows, impacts, withFirms, n)) == BySector(rows, n)
    decreases n
  {
    if n > 0 {
      var prev := Distribution(rows, impacts, withFirms, n - 1);
      var block := SectorBlock(rows, n - 1, impacts[n - 1], withFirms);
      DistributionBases(rows, impacts, withFirms, n - 1);
      BasesAppend(prev, block);
      BasesOfBlock(rows, n - 1, impacts[n - 1], withFirms);
      assert Distribution(rows, impacts, withFirms, n) == prev + block;
    }
  }

  lemma {:induction false} BySectorRows(rows: seq<EconRow>, n: nat)
    requires n <= SectorCount
    ensures multiset(BySector(rows, n)) == multiset(SectorsBelow(rows, n))
    decreases n
  {
    if n == 0 {
      SectorsBelowNone(rows);
    } else {
      BySectorRows(rows, n - 1);
      SectorsBelowStep(rows, n);
      BySectorStep(rows, n);
      assert multiset(BySector(rows, n - 1)) == multiset(SectorsBelow(rows, n - 1));
    }
  }

  lemma BySectorStep(rows: seq<EconRow>, n: nat)
    requires 0 < n <= SectorCount
    ensures multiset(BySector(rows, n)) == multiset(BySector(rows, n - 1)) + multiset(SectorRows(rows, n - 1))
  {
  }

  lemma BasesAppend(a: seq<SimRow>, b: seq<SimRow>)
    ensures Bases(a + b) == Bases(a) + Bases(b)
  {
    assert forall i | 0 <= i < |a + b| :: Bases(a + b)[i] == (Bases(a) + Bases(b))[i];
  }

  lemma BasesOfBlock(rows: seq<EconRow>, s: Sector, x: real, withFirms: bool)
    ensures Bases(SectorBlock(rows, s, x, withFirms)) == SectorRows(rows, s)
  {
  }

  lemma {:induction false} SectorsBelowNone(rows: seq<EconRow>)
    ensures SectorsBelow(rows, 0) == []
    decreases |rows|
  {
    if |rows| > 0 {
      SectorsBelowNone(rows[..|rows| - 1]);
    }
  }

  /** The result holds exactly the input rows, each once, with their input columns unchanged. */
  lemma ResultKeepsRows(rows: seq<EconRow>, impacts: Vector, withFirms: bool)
    requires |impacts| == SectorCount
    ensures multiset(Bases(Distribution(rows, impacts, withFirms, SectorCount))) == multiset(rows)
  {
    DistributionBases(rows, impacts, withFirms, SectorCount);
    BySectorRows(rows, SectorCount);
    SectorsBelowAll(rows);
  }

  /** Every row's sector is below `n`, and sectors never decrease along the rows. */
  predicate GroupedBelow(r: seq<SimRow>, n: nat) {
    && (forall i | 0 <= i < |r| :: r[i].row.sector < n)
    && (forall i, j | 0 <= i < j < |r| :: r[i].row.sector <= r[j].row.sector)
  }

  lemma GroupedAppend(prev: seq<SimRow>, block: seq<SimRow>, n: nat)
    requires n > 0 && GroupedBelow(prev, n - 1)
    requires forall j | 0 <= j < |block| :: block[j].row.sector == n - 1
    ensures GroupedBelow(prev + block, n)
  {
    var r := prev + block;
    forall i, j | 0 <= i < j < |r| ensures r[i].row.sector <= r[j].row.sector {
      if j < |prev| {
        assert r[i] == prev[i] && r[j] == prev[j];
      } else if i < |prev| {
        assert r[i] == prev[i] && r[j] == block[j - |prev|];
      } else {
        assert r[i] == block[i - |prev|] && r[j] == block[j - |prev|];
      }
    }
    forall i | 0 <= i < |r| ensures r[i].row.sector < n {
      if i < |prev| {
        assert r[i] == prev[i];
      } else {
        assert r[i] == block[i - |prev|];
      }
    }
  }

  /** The result is grouped by sector in `setores` order. */
  lemma {:induction false} ResultGroupedBySector(rows: seq<EconRow>, impacts: Vector, withFirms: bool, n: nat)
    requires n <= SectorCount && |impacts| == SectorCount
    ensures GroupedBelow(Distribution(rows, impacts, withFirms, n), n)
    decreases n
  {
    if n > 0 {
      ResultGroupedBySector(rows, impacts, withFirms, n - 1);
      GroupedAppend(Distribution(rows, impacts, withFirms, n - 1), SectorBlock(rows, n - 1, impacts[n - 1], withFirms), n);
    }
  }

  // ---------------------------------------------------------------------------
  // Conservation
  // ---------------------------------------------------------------------------

  /** The sum of `share_nacional` over some rows. */
  function ShareTotal(rows: seq<EconRow>): real {
    if |rows| == 0 then 0.0 else ShareTotal(rows[..|rows| - 1]) + rows[|rows| - 1].share
  }

  /** The sum of `impacto_producao` over some result rows. */
  function ProductionTotal(rs: seq<SimRow>): real {
    if |rs| == 0 then 0.0 else ProductionTotal(rs[..|rs| - 1]) + rs[|rs| - 1].production
  }

  lemma {:induction false} ProductionTotalAppend(a: seq<SimRow>, b: seq<SimRow>)
    ensures ProductionTotal(a + b) == ProductionTotal(a) + ProductionTotal(b)
    decreases |b|
  {
    if |b| == 0 {
      assert a + b == a;
    } else {
      var n := |b| - 1;
      assert (a + b)[..|a + b| - 1] == a + b[..n];
      ProductionTotalAppend(a, b[..n]);
    }
  }

  lemma SectorRowsStep(rows: seq<EconRow>, s: Sector)
    requires |rows| > 0
    ensures var n := |rows| - 1;
      ShareTotal(SectorRows(rows, s)) == ShareTotal(SectorRows(rows[..n], s)) + (if rows[n].sector == s then rows[n].share else 0.0)
  {
    var n := |rows| - 1;
    var f := SectorRows(rows[..n], s);
    if rows[n].sector == s {
      assert (f + [rows[n]])[..|f|] == f;
    } else {
      assert f + [] == f;
    }
  }

  lemma SumIfRowsStep(rows: seq<EconRow>, s: Sector)
    requires |rows| > 0
    ensures var n := |rows| - 1;
      SumIf(SectorsOf(rows), SharesOf(rows), s) == SumIf(SectorsOf(rows[..n]), SharesOf(rows[..n]), s) + (if rows[n].sector == s then rows[n].share else 0.0)
  {
    var n := |rows| - 1;
    assert SectorsOf(rows)[..n] == SectorsOf(rows[..n]);
    assert SharesOf(rows)[..n] == SharesOf(rows[..n]);
  }

  /** The rows `df[df.setor == s]` carry exactly the shares that a group-by over the sector column adds up. */
  lemma {:induction false} SectorRowsShares(rows: seq<EconRow>, s: Sector)
    ensures ShareTotal(SectorRows(rows, s)) == SumIf(SectorsOf(rows), SharesOf(rows), s)
    decreases |rows|
  {
    if |rows| > 0 {
      SectorRowsShares(rows[..|rows| - 1], s);
      SectorRowsStep(rows, s);
      SumIfRowsStep(rows, s);
    }
  }

  /** The result rows for the rows `f` of a sector whose national impact is `x`. */
  function Block(f: seq<EconRow>, x: real, withFirms: bool): (b: seq<SimRow>)
    ensures |b| == |f| && forall j | 0 <= j < |f| :: b[j] == SimulatedRow(f[j], x, withFirms)
  {
    seq(|f|, j requires 0 <= j < |f| => SimulatedRow(f[j], x, withFirms))
  }

  /** The `impacto_producao` column. */
  function Productions(rs: seq<SimRow>): (p: seq<real>)
    ensures |p| == |rs| && forall i | 0 <= i < |rs| :: p[i] == rs[i].production
  {
    seq(|rs|, i requires 0 <= i < |rs| => rs[i].production)
  }

  lemma {:induction false} ShareTotalIsSum(f: seq<EconRow>)
    ensures ShareTotal(f) == Sum(SharesOf(f))
    decreases |f|
  {
    if |f| > 0 {
      ShareTotalIsSum(f[..|f| - 1]);
      assert SharesOf(f)[..|f| - 1] == SharesOf(f[..|f| - 1]);
    }
  }

  lemma {:induction false} ProductionTotalIsSum(rs: seq<SimRow>)
    ensures ProductionTotal(rs) == Sum(Productions(rs))
    decreases |rs|
  {
    if |rs| > 0 {
      ProductionTotalIsSum(rs[..|rs| - 1]);
      assert Productions(rs)[..|rs| - 1] == Productions(rs[..|rs| - 1]);
    }
  }

  /** A block's production adds up to `x` times the block's total share. */
  lemma BlockProduction(f: seq<EconRow>, x: real, withFirms: bool)
    ensures ProductionTotal(Block(f, x, withFirms)) == ShareTotal(f) * x
  {
    ShareTotalIsSum(f);
    ProductionTotalIsSum(Block(f, x, withFirms));
    BlockProductions(f, x, withFirms);
    SumTimes(SharesOf(f), Productions(Block(f, x, withFirms)), x);
    SameTimes(ProductionTotal(Block(f, x, withFirms)), Sum(Productions(Block(f, x, withFirms))),
      ShareTotal(f), Sum(SharesOf(f)), x);
  }

  lemma BlockProductions(f: seq<EconRow>, x: real, withFirms: bool)
    ensures forall i | 0 <= i < |f| :: Productions(Block(f, x, withFirms))[i] == SharesOf(f)[i] * x
  {
  }

  /** Rewriting both sides of `q == t * x` by equals, stated over plain numbers so that it costs no nonlinear search. */
  lemma SameTimes(p: real, q: real, s: real, t: real, x: real)
    requires p == q && q == t * x && s == t
    ensures p == s * x
  {
  }

  /** Conservation: a sector's regional production impacts add back up to its national impact. */
  lemma SectorConservation(rows: seq<EconRow>, s: Sector, x: real, withFirms: bool)
    requires HasShares(rows) && s in SectorsOf(rows)
    requires forall j | 0 <= j < |rows| :: rows[j].vab > 0.0
    ensures ProductionTotal(SectorBlock(rows, s, x, withFirms)) == x
  {
    var i :| 0 <= i < |rows| && SectorsOf(rows)[i] == s;
    SectorSharesSumToOne(rows, s, i);
    SectorRowsShares(rows, s);
    BlockProduction(SectorRows(rows, s), x, withFirms);
  }

  lemma {:induction false} DistributionTotal(rows: seq<EconRow>, impacts: Vector, withFirms: bool, n: nat)
    requires n <= SectorCount && |impacts| == SectorCount
    requires HasShares(rows) && forall s | 0 <= s < SectorCount :: s in SectorsOf(rows)
    requires forall j | 0 <= j < |rows| :: rows[j].vab > 0.0
    ensures ProductionTotal(Distribution(rows, impacts, withFirms, n)) == Sum(impacts[..n])
    decreases n
  {
    if n == 0 {
      assert impacts[..0] == [];
    } else {
      DistributionTotal(rows, impacts, withFirms, n - 1);
      ProductionTotalAppend(Distribution(rows, impacts, withFirms, n - 1), SectorBlock(rows, n - 1, impacts[n - 1], withFirms));
      SectorConservation(rows, n - 1, impacts[n - 1], withFirms);
      assert impacts[..n][..n - 1] == impacts[..n - 1];
    }
  }

  /**
    The total production impact of a simulation is the shock times the
    multiplier of the shocked sector, as long as every sector has a region
    with positive value added.
  */
  lemma SimulationTotal(L: Matrix, rows: seq<EconRow>, v: real, k: Sector, withFirms: bool)
    requires IsSquare(L, SectorCount)
    requires HasShares(rows) && forall s | 0 <= s < SectorCount :: s in SectorsOf(rows)
    requires forall j | 0 <= j < |rows| :: rows[j].vab > 0.0
    ensures ProductionTotal(Distribution(rows, Impacts(L, k, v), withFirms, SectorCount)) == v * Multiplier(L, k)
  {
    var x := Impacts(L, k, v);
    DistributionTotal(rows, x, withFirms, SectorCount);
    assert x[..SectorCount] == x;
    TotalImpact(L, k, v);
  }
}
