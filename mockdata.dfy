/**
  The national edition's table (`gerar_dados_mockados_brasil`) and its
  results pipeline: four drawn rows per intermediate region, each row's share
  of its sector's national value added, the sector's value-added coefficient,
  the production that value added implies and the jobs per unit of
  production; a shock's sector impacts are split by share into production,
  value added, taxes and jobs, then summed per region.
*/
module MockData {
  import opened Sums
  import opened LinAlg
  import opened GroupBy
  import opened Leontief

  /** The range `random.uniform` draws each sector's value added from. */
  function VabLow(s: Sector): real {
    [1000.0, 5000.0, 2000.0, 10000.0][s]
  }

  function VabHigh(s: Sector): real {
    [15000.0, 200000.0, 60000.0, 1500000.0][s]
  }

  /** The draws made for one region: a value added per sector, then a jobs rate drawn from [8, 25]. */
  datatype MockDraws = MockDraws(vab: seq<real>, jobsRate: seq<real>)

  predicate ValidMockDraws(d: MockDraws) {
    && |d.vab| == SectorCount && |d.jobsRate| == SectorCount
    && (forall s: Sector :: VabLow(s) <= d.vab[s] <= VabHigh(s))
    && (forall s: Sector :: 8.0 <= d.jobsRate[s] <= 25.0)
  }

  /**
    A row of `df_brasil`: `Região Intermediária`, `Setor`, `VAB_milhoes`,
    `Pessoal_Ocupado_mil`, `Share_VAB`, `Coef_VAB_Setor`,
    `Producao_Estimada` and `Coef_Emprego_por_Producao`.
  */
  datatype MockRow = MockRow(
    region: string, sector: Sector, vab: real, staff: real,
    share: real, coefVab: real, production: real, coefJobs: real)

  /** The dictionary appended for sector `s` of a region: `emprego_base = vab_base * uniform(8, 25) / 1000`. */
  function DrawnMockRow(region: string, d: MockDraws, s: Sector): MockRow
    requires ValidMockDraws(d)
  {
    MockRow(region, s, d.vab[s], d.vab[s] * d.jobsRate[s] / 1000.0, 0.0, 0.0, 0.0, 0.0)
  }

  /** `coef_vab.to_dict()` read for one sector. */
  function SectorCoefVab(s: Sector): (c: real)
    ensures c == CoefVab(TechnicalCoefficients())[s]
    ensures 0.0 < c < 1.0
  {
    CoefVabValues();
    CoefVab(TechnicalCoefficients())[s]
  }

  /**
    The derived columns of one row: the share it is given, its sector's
    value-added coefficient, `Producao_Estimada = VAB / Coef_VAB_Setor` and
    `Coef_Emprego_por_Producao = Pessoal * 1000 / Producao_Estimada`.
  */
  function DeriveRow(r: MockRow, share: real): (d: MockRow)
    ensures d.(share := r.share, coefVab := r.coefVab, production := r.production, coefJobs := r.coefJobs) == r
    ensures d.share == share && d.coefVab == SectorCoefVab(r.sector)
    ensures d.production * d.coefVab == r.vab
    ensures r.vab > 0.0 ==> d.production > 0.0 && d.coefJobs * d.production == r.staff * 1000.0
  {
    var c := SectorCoefVab(r.sector);
    var p := r.vab / c;
    r.(share := share, coefVab := c, production := p, coefJobs := Ratio(r.staff * 1000.0, p))
  }

  function MockSectors(rows: seq<MockRow>): (ks: seq<Sector>)
    ensures |ks| == |rows| && forall i | 0 <= i < |rows| :: ks[i] == rows[i].sector
  {
    seq(|rows|, i requires 0 <= i < |rows| => rows[i].sector)
  }

  function MockVabs(rows: seq<MockRow>): (xs: seq<real>)
    ensures |xs| == |rows| && forall i | 0 <= i < |rows| :: xs[i] == rows[i].vab
  {
    seq(|rows|, i requires 0 <= i < |rows| => rows[i].vab)
  }

  function MockShares(rows: seq<MockRow>): (xs: seq<real>)
    ensures |xs| == |rows| && forall i | 0 <= i < |rows| :: xs[i] == rows[i].share
  {
    seq(|rows|, i requires 0 <= i < |rows| => rows[i].share)
  }

  /** Every row's share is its value added over its sector's national total. */
  predicate HasMockShares(rows: seq<MockRow>) {
    MockShares(rows) == GroupShares(MockSectors(rows), MockVabs(rows))
  }

  /** The share merge and the three coefficient columns, applied to the drawn rows. */
  function Derive(raw: seq<MockRow>): (rows: seq<MockRow>)
    ensures |rows| == |raw| && HasMockShares(rows)
    ensures forall i | 0 <= i < |raw| :: rows[i] == DeriveRow(raw[i], rows[i].share)
  {
    var sh := GroupShares(MockSectors(raw), MockVabs(raw));
    var rows := seq(|raw|, i requires 0 <= i < |raw| => DeriveRow(raw[i], sh[i]));
    assert MockSectors(rows) == MockSectors(raw) && MockVabs(rows) == MockVabs(raw);
    rows
  }

  /** The nested region-by-sector loop of `gerar_dados_mockados_brasil` over `NM_RGINT.unique()`, then the derived columns. */
  method GenerateMockData(names: seq<string>, draws: seq<MockDraws>) returns (rows: seq<MockRow>)
    requires |draws| == |Unique(names)| && forall r | 0 <= r < |draws| :: ValidMockDraws(draws[r])
    ensures |rows| == SectorCount * |Unique(names)|
    ensures forall i | 0 <= i < |rows| ::
      rows[i] == DeriveRow(DrawnMockRow(Unique(names)[i / SectorCount], draws[i / SectorCount], i % SectorCount), rows[i].share)
    ensures HasMockShares(rows)
  {
    var raw := DrawRows(Unique(names), draws);
    rows := Derive(raw);
  }

  /** The nested loops proper: four drawn rows per region, regions in order and sectors in `setores` order. */
  method DrawRows(regions: seq<string>, draws: seq<MockDraws>) returns (raw: seq<MockRow>)
    requires |draws| == |regions| && forall r | 0 <= r < |draws| :: ValidMockDraws(draws[r])
    ensures |raw| == SectorCount * |regions|
    ensures forall i | 0 <= i < |raw| ::
      raw[i] == DrawnMockRow(regions[i / SectorCount], draws[i / SectorCount], i % SectorCount)
  {
    raw := [];
    for r := 0 to |regions|
      invariant |raw| == SectorCount * r
      invariant forall i | 0 <= i < |raw| ::
        raw[i] == DrawnMockRow(regions[i / SectorCount], draws[i / SectorCount], i % SectorCount)
    {
      for s := 0 to SectorCount
        invariant |raw| == SectorCount * r + s
        invariant forall i | 0 <= i < |raw| ::
          raw[i] == DrawnMockRow(regions[i / SectorCount], draws[i / SectorCount], i % SectorCount)
      {
        BlockPosition(r, s);
        raw := raw + [DrawnMockRow(regions[r], draws[r], s)];
      }
    }
  }

  /** Position `s` of block `r` in a sequence of four-row blocks. */
  lemma BlockPosition(r: nat, s: nat)
    requires s < SectorCount
    ensures (SectorCount * r + s) / SectorCount == r && (SectorCount * r + s) % SectorCount == s
  {
  }

  /** Drawn value added is at least 1000, so every derived row has positive value added and production. */
  lemma GeneratedRowsPositive(names: seq<string>, draws: seq<MockDraws>, rows: seq<MockRow>)
    requires |draws| == |Unique(names)| && forall r | 0 <= r < |draws| :: ValidMockDraws(draws[r])
    requires |rows| == SectorCount * |Unique(names)|
    requires forall i | 0 <= i < |rows| ::
      rows[i] == DeriveRow(DrawnMockRow(Unique(names)[i / SectorCount], draws[i / SectorCount], i % SectorCount), rows[i].share)
    ensures forall i | 0 <= i < |rows| :: rows[i].vab >= 1000.0 && rows[i].production > 0.0
  {
    forall i | 0 <= i < |rows| ensures rows[i].vab >= 1000.0 && rows[i].production > 0.0 {
      var s: Sector := i % SectorCount;
      assert VabLow(s) >= 1000.0;
    }
  }

  /** Each sector present with positive value added has national shares that add up to one. */
  lemma MockSharesSumToOne(rows: seq<MockRow>, s: Sector, i: nat)
    requires HasMockShares(rows) && i < |rows| && rows[i].sector == s
    requires forall j | 0 <= j < |rows| :: rows[j].vab > 0.0
    ensures SumIf(MockSectors(rows), MockShares(rows), s) == 1.0
  {
    SumIfAtLeast(MockSectors(rows), MockVabs(rows), i);
    SharesSumToOne(MockSectors(rows), MockVabs(rows), s);
  }

  // ---------------------------------------------------------------------------
  // Results pipeline
  // ---------------------------------------------------------------------------

  /**
    A row of `df_resultados`: `Impacto_Producao_Setorial`, then the regional
    production, value added, taxes and jobs.
  */
  datatype ImpactRow = ImpactRow(row: MockRow, sectorImpact: real, production: real, vab: real, taxes: real, jobs: real)

  /** The impact columns of one row of a sector whose national impact is `x`. */
  function RowImpact(r: MockRow, x: real): ImpactRow {
    var p := x * r.share;
    var v := p * r.coefVab;
    ImpactRow(r, x, p, v, v * TaxRate, p * r.coefJobs)
  }

  function Results(rows: seq<MockRow>, impacts: Vector): (res: seq<ImpactRow>)
    requires |impacts| == SectorCount
    ensures |res| == |rows| && forall i | 0 <= i < |rows| :: res[i] == RowImpact(rows[i], impacts[rows[i].sector])
  {
    seq(|rows|, i requires 0 <= i < |rows| => RowImpact(rows[i], impacts[rows[i].sector]))
  }

  function ResultSectors(res: seq<ImpactRow>): (ks: seq<Sector>)
    ensures |ks| == |res| && forall i | 0 <= i < |res| :: ks[i] == res[i].row.sector
  {
    seq(|res|, i requires 0 <= i < |res| => res[i].row.sector)
  }

  function ResultRegions(res: seq<ImpactRow>): (ks: seq<string>)
    ensures |ks| == |res| && forall i | 0 <= i < |res| :: ks[i] == res[i].row.region
  {
    seq(|res|, i requires 0 <= i < |res| => res[i].row.region)
  }

  function Productions(res: seq<ImpactRow>): (xs: seq<real>)
    ensures |xs| == |res| && forall i | 0 <= i < |res| :: xs[i] == res[i].production
  {
    seq(|res|, i requires 0 <= i < |res| => res[i].production)
  }

  function VabImpacts(res: seq<ImpactRow>): (xs: seq<real>)
    ensures |xs| == |res| && forall i | 0 <= i < |res| :: xs[i] == res[i].vab
  {
    seq(|res|, i requires 0 <= i < |res| => res[i].vab)
  }

  function Taxes(res: seq<ImpactRow>): (xs: seq<real>)
    ensures |xs| == |res| && forall i | 0 <= i < |res| :: xs[i] == res[i].taxes
  {
    seq(|res|, i requires 0 <= i < |res| => res[i].taxes)
  }

  function Jobs(res: seq<ImpactRow>): (xs: seq<real>)
    ensures |xs| == |res| && forall i | 0 <= i < |res| :: xs[i] == res[i].jobs
  {
    seq(|res|, i requires 0 <= i < |res| => res[i].jobs)
  }

  /** Conservation: where a sector's shares add up to one, its regional productions add back up to its impact. */
  lemma MockConservation(rows: seq<MockRow>, impacts: Vector, s: Sector)
    requires |impacts| == SectorCount
    requires SumIf(MockSectors(rows), MockShares(rows), s) == 1.0
    ensures SumIf(ResultSectors(Results(rows, impacts)), Productions(Results(rows, impacts)), s) == impacts[s]
  {
    var res := Results(rows, impacts);
    assert ResultSectors(res) == MockSectors(rows);
    SumIfScaled(MockSectors(rows), MockShares(rows), Productions(res), s, impacts[s]);
  }

  /**
    A sector's regional value-added impacts add up to its production impact
    times its value-added coefficient, where every row carries its sector's
    coefficient from `coef`.
  */
  lemma SectorVabImpact(rows: seq<MockRow>, impacts: Vector, coef: Vector, s: Sector)
    requires |impacts| == |coef| == SectorCount
    requires forall j | 0 <= j < |rows| :: rows[j].coefVab == coef[rows[j].sector]
    requires SumIf(MockSectors(rows), MockShares(rows), s) == 1.0
    ensures SumIf(ResultSectors(Results(rows, impacts)), VabImpacts(Results(rows, impacts)), s) == coef[s] * impacts[s]
  {
    SectorVabScaled(rows, impacts, coef, s);
    MockConservation(rows, impacts, s);
    TimesEqual(SumIf(ResultSectors(Results(rows, impacts)), VabImpacts(Results(rows, impacts)), s), coef[s],
      SumIf(ResultSectors(Results(rows, impacts)), Productions(Results(rows, impacts)), s), impacts[s]);
  }

  lemma SectorVabScaled(rows: seq<MockRow>, impacts: Vector, coef: Vector, s: Sector)
    requires |impacts| == |coef| == SectorCount
    requires forall j | 0 <= j < |rows| :: rows[j].coefVab == coef[rows[j].sector]
    ensures SumIf(ResultSectors(Results(rows, impacts)), VabImpacts(Results(rows, impacts)), s)
      == coef[s] * SumIf(ResultSectors(Results(rows, impacts)), Productions(Results(rows, impacts)), s)
  {
    SectorVabRows(rows, impacts, coef, s);
    SumIfScaled(ResultSectors(Results(rows, impacts)), Productions(Results(rows, impacts)), VabImpacts(Results(rows, impacts)), s, coef[s]);
  }

  lemma SectorVabRows(rows: seq<MockRow>, impacts: Vector, coef: Vector, s: Sector)
    requires |impacts| == |coef| == SectorCount
    requires forall j | 0 <= j < |rows| :: rows[j].coefVab == coef[rows[j].sector]
    ensures forall i | 0 <= i < |rows| && ResultSectors(Results(rows, impacts))[i] == s ::
      VabImpacts(Results(rows, impacts))[i] == coef[s] * Productions(Results(rows, impacts))[i]
  {
    forall i | 0 <= i < |rows| && ResultSectors(Results(rows, impacts))[i] == s
      ensures VabImpacts(Results(rows, impacts))[i] == coef[s] * Productions(Results(rows, impacts))[i]
    {
      VabOfRow(rows, impacts, coef, i, s);
    }
  }

  lemma VabOfRow(rows: seq<MockRow>, impacts: Vector, coef: Vector, i: nat, s: Sector)
    requires |impacts| == |coef| == SectorCount && i < |rows| && rows[i].sector == s && rows[i].coefVab == coef[s]
    ensures VabImpacts(Results(rows, impacts))[i] == coef[s] * Productions(Results(rows, impacts))[i]
  {
    assert Results(rows, impacts)[i] == RowImpact(rows[i], impacts[s]);
  }

  /** Stated over plain numbers so that the products cost no nonlinear search. */
  lemma TimesEqual(a: real, c: real, b: real, x: real)
    requires a == c * b && b == x
    ensures a == c * x
  {
  }

  /** The regional taxes are 18% of the regional value-added impacts, in total as row by row. */
  lemma TaxesTotal(rows: seq<MockRow>, impacts: Vector)
    requires |impacts| == SectorCount
    ensures Sum(Taxes(Results(rows, impacts))) == Sum(VabImpacts(Results(rows, impacts))) * TaxRate
  {
    SumTimes(VabImpacts(Results(rows, impacts)), Taxes(Results(rows, impacts)), TaxRate);
  }

  /**
    Where every sector's shares add up to one and every row carries its
    sector's coefficient from `coef`, the national value-added impact is
    the sum over sectors of coefficient times sector impact.
  */
  lemma VabTotal(rows: seq<MockRow>, impacts: Vector, coef: Vector)
    requires |impacts| == |coef| == SectorCount
    requires forall j | 0 <= j < |rows| :: rows[j].coefVab == coef[rows[j].sector]
    requires forall s: Sector :: SumIf(MockSectors(rows), MockShares(rows), s) == 1.0
    ensures Sum(VabImpacts(Results(rows, impacts))) == Sum(seq(SectorCount, s requires 0 <= s < SectorCount => coef[s] * impacts[s]))
  {
    var res := Results(rows, impacts);
    var perSector := seq(SectorCount, s requires 0 <= s < SectorCount => coef[s] * impacts[s]);
    forall j | 0 <= j < SectorCount ensures SumIf(ResultSectors(res), VabImpacts(res), AllSectors[j]) == perSector[j] {
      SectorVabImpact(rows, impacts, coef, j);
    }
    SumByKeysMatch(AllSectors, ResultSectors(res), VabImpacts(res), perSector);
    SumBySectors(ResultSectors(res), VabImpacts(res));
  }

  // ---------------------------------------------------------------------------
  // Aggregation per region
  // ---------------------------------------------------------------------------

  /** A row of `simulation_results`. */
  datatype RegionTotals = RegionTotals(region: string, production: real, vab: real, taxes: real, jobs: real)

  /** `groupby('Região Intermediária').agg(...)`: one row per region with its four sums. */
  function AggregateByRegion(res: seq<ImpactRow>): (m: seq<RegionTotals>)
    ensures |m| == |Unique(ResultRegions(res))|
    ensures forall j | 0 <= j < |m| ::
      && m[j].region == Unique(ResultRegions(res))[j]
      && m[j].production == SumIf(ResultRegions(res), Productions(res), m[j].region)
      && m[j].vab == SumIf(ResultRegions(res), VabImpacts(res), m[j].region)
      && m[j].taxes == SumIf(ResultRegions(res), Taxes(res), m[j].region)
      && m[j].jobs == SumIf(ResultRegions(res), Jobs(res), m[j].region)
  {
    var keys := ResultRegions(res);
    var ks := Unique(keys);
    seq(|ks|, j requires 0 <= j < |ks| =>
      RegionTotals(ks[j], SumIf(keys, Productions(res), ks[j]), SumIf(keys, VabImpacts(res), ks[j]),
        SumIf(keys, Taxes(res), ks[j]), SumIf(keys, Jobs(res), ks[j])))
  }

  function TotalProduction(m: seq<RegionTotals>): real {
    Sum(seq(|m|, j requires 0 <= j < |m| => m[j].production))
  }

  function TotalVab(m: seq<RegionTotals>): real {
    Sum(seq(|m|, j requires 0 <= j < |m| => m[j].vab))
  }

  function TotalTaxes(m: seq<RegionTotals>): real {
    Sum(seq(|m|, j requires 0 <= j < |m| => m[j].taxes))
  }

  function TotalJobs(m: seq<RegionTotals>): real {
    Sum(seq(|m|, j requires 0 <= j < |m| => m[j].jobs))
  }

  /** The per-region sums keep the national totals of all four metrics. */
  lemma AggregatePreservesTotals(res: seq<ImpactRow>)
    ensures TotalProduction(AggregateByRegion(res)) == Sum(Productions(res))
    ensures TotalVab(AggregateByRegion(res)) == Sum(VabImpacts(res))
    ensures TotalTaxes(AggregateByRegion(res)) == Sum(Taxes(res))
    ensures TotalJobs(AggregateByRegion(res)) == Sum(Jobs(res))
  {
    var m := AggregateByRegion(res);
    var keys := ResultRegions(res);
    var ks := Unique(keys);
    assert seq(|m|, j requires 0 <= j < |m| => m[j].production) == GroupSums(ks, keys, Productions(res));
    assert seq(|m|, j requires 0 <= j < |m| => m[j].vab) == GroupSums(ks, keys, VabImpacts(res));
    assert seq(|m|, j requires 0 <= j < |m| => m[j].taxes) == GroupSums(ks, keys, Taxes(res));
    assert seq(|m|, j requires 0 <= j < |m| => m[j].jobs) == GroupSums(ks, keys, Jobs(res));
    GroupSumsPreserveTotal(keys, Productions(res));
    GroupSumsPreserveTotal(keys, VabImpacts(res));
    GroupSumsPreserveTotal(keys, Taxes(res));
    GroupSumsPreserveTotal(keys, Jobs(res));
  }

  /**
    The national edition's simulation: `calcular_impactos` on the one-hot
    shock, the results pipeline, and the per-region sums.
  */
  function NationalSimulation(L: Matrix, rows: seq<MockRow>, k: Sector, v: real): (m: seq<RegionTotals>)
    requires IsEngineMatrix(L)
  {
    AggregateByRegion(Results(rows, SectorImpacts(L, OneHot(SectorCount, k, v))))
  }

  /**
    `total_prod` is the shock times the shocked sector's multiplier, so the
    displayed `multiplicador` is that column sum of `L`, whenever every
    sector's shares add up to one.
  */
  lemma NationalTotal(L: Matrix, rows: seq<MockRow>, k: Sector, v: real)
    requires IsEngineMatrix(L)
    requires forall s: Sector :: SumIf(MockSectors(rows), MockShares(rows), s) == 1.0
    ensures TotalProduction(NationalSimulation(L, rows, k, v)) == v * Multiplier(L, k)
    ensures v > 0.0 ==> ObservedMultiplier(TotalProduction(NationalSimulation(L, rows, k, v)), v) == Multiplier(L, k)
  {
    var x := SectorImpacts(L, OneHot(SectorCount, k, v));
    AggregatePreservesTotals(Results(rows, x));
    ResultsTotal(rows, x);
    assert x == Impacts(L, k, v);
    TotalImpact(L, k, v);
    ObservedMultiplierIsColumnSum(L, k, v);
  }

  /** Where every sector's shares add up to one, the regional productions add up to the sum of the sector impacts. */
  lemma ResultsTotal(rows: seq<MockRow>, impacts: Vector)
    requires |impacts| == SectorCount
    requires forall s: Sector :: SumIf(MockSectors(rows), MockShares(rows), s) == 1.0
    ensures Sum(Productions(Results(rows, impacts))) == Sum(impacts)
  {
    var res := Results(rows, impacts);
    forall j | 0 <= j < SectorCount ensures SumIf(ResultSectors(res), Productions(res), AllSectors[j]) == impacts[j] {
      MockConservation(rows, impacts, j);
    }
    SumByKeysMatch(AllSectors, ResultSectors(res), Productions(res), impacts);
    SumBySectors(ResultSectors(res), Productions(res));
  }
}
