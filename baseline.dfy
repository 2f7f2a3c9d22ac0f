/**
  The first edition of the simulator: a fixed table of the eleven
  intermediate regions of Sao Paulo state with their value added and
  employment per sector, each row's share of its sector's state value added
  and its jobs coefficient; a shock's sector impacts are split over the
  regions by those shares and summed per region for the map.
*/
module Baseline {
  import opened Wrappers
  import opened Sums
  import opened LinAlg
  import opened GroupBy
  import opened Leontief

  /** `Região Intermediária`, in the order of the table. */
  const Regions: seq<string> := [
    "S\U{E3}o Paulo", "Campinas", "S\U{E3}o Jos\U{E9} dos Campos", "Sorocaba", "Ribeir\U{E3}o Preto", "Bauru",
    "S\U{E3}o Jos\U{E9} do Rio Preto", "Presidente Prudente", "Ara\U{E7}atuba", "Mar\U{ED}lia", "Registro"]

  const RegionCount: nat := 11

  /** `mapeamento_regioes`: the name of each region in the shapefile. */
  const RegionMapping: map<string, string> := map[
    "S\U{E3}o Paulo" := "S\U{E3}o Paulo",
    "Campinas" := "Campinas",
    "S\U{E3}o Jos\U{E9} dos Campos" := "S\U{E3}o Jos\U{E9} dos Campos",
    "Sorocaba" := "Sorocaba",
    "Ribeir\U{E3}o Preto" := "Ribeir\U{E3}o Preto",
    "Bauru" := "Bauru",
    "S\U{E3}o Jos\U{E9} do Rio Preto" := "S\U{E3}o Jos\U{E9} do Rio Preto",
    "Presidente Prudente" := "Presidente Prudente",
    "Ara\U{E7}atuba" := "Ara\U{E7}atuba",
    "Mar\U{ED}lia" := "Mar\U{ED}lia",
    "Registro" := "Araraquara"]

  /** `VAB_milhoes`, sector-major: eleven regions of agriculture, then industry, construction, services. */
  const VabMillions: seq<real> := [
    1480.0, 5950.0, 1510.0, 3820.0, 10550.0, 4100.0, 7200.0, 4980.0, 4550.0, 2900.0, 1250.0,
    195850.0, 110500.0, 55800.0, 50100.0, 40300.0, 25500.0, 28900.0, 12100.0, 15700.0, 10900.0, 3300.0,
    55100.0, 20450.0, 8900.0, 9150.0, 7800.0, 4950.0, 5100.0, 2800.0, 2500.0, 1900.0, 850.0,
    1215300.0, 290100.0, 105600.0, 110500.0, 100200.0, 60800.0, 75300.0, 40500.0, 35800.0, 28100.0, 15200.0]

  /** `Pessoal_Ocupado_mil`, in the same order. */
  const StaffThousands: seq<real> := [
    35.5, 110.2, 45.1, 85.6, 180.3, 95.8, 140.2, 115.7, 105.4, 70.1, 30.7,
    1650.2, 890.7, 310.5, 450.9, 380.1, 280.4, 310.6, 150.3, 180.9, 145.2, 40.1,
    690.1, 255.4, 115.3, 120.7, 100.5, 65.1, 70.8, 40.2, 35.7, 28.9, 15.4,
    10510.8, 2150.6, 780.4, 820.3, 795.2, 490.7, 610.9, 350.1, 290.5, 250.6, 110.3]

  /** One row of `df_regional`. */
  datatype BaseRow = BaseRow(
    region: string, shapefile: Option<string>, sector: Sector,
    vab: real, staff: real, share: real, coefJobs: real)

  /** `Series.map(mapeamento_regioes)`: a name missing from the mapping becomes NaN. */
  function ShapefileName(region: string): (r: Option<string>)
    ensures r.Some? <==> region in RegionMapping
    ensures r.Some? ==> r.value == RegionMapping[region]
  {
    if region in RegionMapping then Some(RegionMapping[region]) else None
  }

  /** Every region keeps its own name in the shapefile, except Registro, which is drawn as Araraquara. */
  lemma ShapefileNames()
    ensures forall i | 0 <= i < RegionCount ::
      ShapefileName(Regions[i]) == Some(if Regions[i] == "Registro" then "Araraquara" else Regions[i])
  {
  }

  /** `Coef_Emprego`: jobs per million of value added. */
  function CoefJobs(staff: real, vab: real): (c: real)
    ensures vab != 0.0 ==> c * vab == staff * 1000.0
    ensures vab == 0.0 ==> c == 0.0
  {
    Ratio(staff * 1000.0, vab)
  }

  function BaseSectors(t: seq<BaseRow>): (ks: seq<Sector>)
    ensures |ks| == |t| && forall i | 0 <= i < |t| :: ks[i] == t[i].sector
  {
    seq(|t|, i requires 0 <= i < |t| => t[i].sector)
  }

  function BaseVabs(t: seq<BaseRow>): (xs: seq<real>)
    ensures |xs| == |t| && forall i | 0 <= i < |t| :: xs[i] == t[i].vab
  {
    seq(|t|, i requires 0 <= i < |t| => t[i].vab)
  }

  function BaseShares(t: seq<BaseRow>): (xs: seq<real>)
    ensures |xs| == |t| && forall i | 0 <= i < |t| :: xs[i] == t[i].share
  {
    seq(|t|, i requires 0 <= i < |t| => t[i].share)
  }

  const RowCount: nat := 44

  /**
    `df_regional` from its value added and staff columns: row `i` is region
    `i % 11` in sector `i / 11`, with its jobs coefficient, and
    `Share_VAB = VAB_milhoes / VAB_milhoes_total_sp`.
  */
  function Table(vabs: seq<real>, staff: seq<real>): (t: seq<BaseRow>)
    requires |vabs| == |staff| == RowCount
    ensures |t| == RowCount
    ensures forall i | 0 <= i < RowCount ::
      && t[i].region == Regions[i % 11] && t[i].shapefile == ShapefileName(Regions[i % 11])
      && t[i].sector == i / 11 && t[i].vab == vabs[i] && t[i].staff == staff[i]
      && t[i].coefJobs == CoefJobs(staff[i], vabs[i])
    ensures BaseShares(t) == GroupShares(BaseSectors(t), BaseVabs(t))
  {
    var raw := seq(RowCount, i requires 0 <= i < RowCount =>
      var region := Regions[i % 11];
      BaseRow(region, ShapefileName(region), i / 11, vabs[i], staff[i], 0.0, CoefJobs(staff[i], vabs[i])));
    var sh := GroupShares(BaseSectors(raw), BaseVabs(raw));
    var t := seq(RowCount, i requires 0 <= i < RowCount => raw[i].(share := sh[i]));
    assert BaseSectors(t) == BaseSectors(raw) && BaseVabs(t) == BaseVabs(raw);
    t
  }

  /** Where every value added is positive, each sector's `Share_VAB` adds up to one over the eleven regions. */
  lemma TableSharesSumToOne(vabs: seq<real>, staff: seq<real>, s: Sector)
    requires |vabs| == |staff| == RowCount && forall i | 0 <= i < RowCount :: vabs[i] > 0.0
    ensures SumIf(BaseSectors(Table(vabs, staff)), BaseShares(Table(vabs, staff)), s) == 1.0
  {
    var t := Table(vabs, staff);
    assert t[s * 11].sector == s;
    SumIfAtLeast(BaseSectors(t), BaseVabs(t), s * 11);
    SharesSumToOne(BaseSectors(t), BaseVabs(t), s);
  }

  /** The table of the first edition. */
  function BaselineTable(): (t: seq<BaseRow>)
    ensures |t| == 44
  {
    Table(VabMillions, StaffThousands)
  }

  lemma VabPositive()
    ensures |VabMillions| == |StaffThousands| == RowCount
    ensures forall i | 0 <= i < RowCount :: VabMillions[i] > 0.0
  {
  }

  /** Forty-four rows, eleven regions times four sectors, sector-major. */
  lemma BaselineShape()
    ensures |BaselineTable()| == 44
    ensures forall i | 0 <= i < 44 ::
      && BaselineTable()[i].region == Regions[i % 11] && BaselineTable()[i].sector == i / 11
      && BaselineTable()[i].vab == VabMillions[i] && BaselineTable()[i].staff == StaffThousands[i]
  {
    VabPositive();
  }

  /** Every sector's `Share_VAB` adds up to one over the eleven regions of the table. */
  lemma BaselineSharesSumToOne()
    ensures forall s: Sector :: SumIf(BaseSectors(BaselineTable()), BaseShares(BaselineTable()), s) == 1.0
  {
    VabPositive();
    forall s: Sector ensures SumIf(BaseSectors(BaselineTable()), BaseShares(BaselineTable()), s) == 1.0 {
      TableSharesSumToOne(VabMillions, StaffThousands, s);
    }
  }

  // ---------------------------------------------------------------------------
  // Regionalisation
  // ---------------------------------------------------------------------------

  /** A row of `df_resultados`: the input row with its sector's impact, its regional production and jobs. */
  datatype ResultRow = ResultRow(base: BaseRow, sectorImpact: real, production: real, jobs: real)

  /** `Impacto_Producao_Regional` and `Impacto_Empregos_Gerados` for every row. */
  function Regionalise(t: seq<BaseRow>, impacts: Vector): (r: seq<ResultRow>)
    requires |impacts| == SectorCount
    ensures |r| == |t|
    ensures forall i | 0 <= i < |t| :: r[i].base == t[i] && r[i].sectorImpact == impacts[t[i].sector]
    ensures forall i | 0 <= i < |t| :: r[i].production == impacts[t[i].sector] * t[i].share
    ensures forall i | 0 <= i < |t| :: r[i].jobs == r[i].production * t[i].coefJobs
  {
    seq(|t|, i requires 0 <= i < |t| =>
      var p := impacts[t[i].sector] * t[i].share;
      ResultRow(t[i], impacts[t[i].sector], p, p * t[i].coefJobs))
  }

  function ResultProductions(r: seq<ResultRow>): (xs: seq<real>)
    ensures |xs| == |r| && forall i | 0 <= i < |r| :: xs[i] == r[i].production
  {
    seq(|r|, i requires 0 <= i < |r| => r[i].production)
  }

  function ResultJobs(r: seq<ResultRow>): (xs: seq<real>)
    ensures |xs| == |r| && forall i | 0 <= i < |r| :: xs[i] == r[i].jobs
  {
    seq(|r|, i requires 0 <= i < |r| => r[i].jobs)
  }

  function ResultSectors(r: seq<ResultRow>): (ks: seq<Sector>)
    ensures |ks| == |r| && forall i | 0 <= i < |r| :: ks[i] == r[i].base.sector
  {
    seq(|r|, i requires 0 <= i < |r| => r[i].base.sector)
  }

  /** Conservation: where a sector's shares add up to one, its regional productions add back up to its impact. */
  lemma RegionalConservation(t: seq<BaseRow>, impacts: Vector, s: Sector)
    requires |impacts| == SectorCount
    requires SumIf(BaseSectors(t), BaseShares(t), s) == 1.0
    ensures SumIf(ResultSectors(Regionalise(t, impacts)), ResultProductions(Regionalise(t, impacts)), s) == impacts[s]
  {
    var r := Regionalise(t, impacts);
    assert ResultSectors(r) == BaseSectors(t);
    SumIfScaled(BaseSectors(t), BaseShares(t), ResultProductions(r), s, impacts[s]);
  }

  /** Where every sector's shares add up to one, the regional productions add up to the sum of the sector impacts. */
  lemma RegionalTotal(t: seq<BaseRow>, impacts: Vector)
    requires |impacts| == SectorCount
    requires forall s: Sector :: SumIf(BaseSectors(t), BaseShares(t), s) == 1.0
    ensures Sum(ResultProductions(Regionalise(t, impacts))) == Sum(impacts)
  {
    var r := Regionalise(t, impacts);
    forall j | 0 <= j < SectorCount
      ensures SumIf(ResultSectors(r), ResultProductions(r), AllSectors[j]) == impacts[j]
    {
      RegionalConservation(t, impacts, j);
    }
    SumByKeysMatch(AllSectors, ResultSectors(r), ResultProductions(r), impacts);
    SumBySectors(ResultSectors(r), ResultProductions(r));
  }

  // ---------------------------------------------------------------------------
  // Aggregation per region
  // ---------------------------------------------------------------------------

  /** The group-by key `['Região Intermediária', 'Região_Shapefile']`. */
  datatype RegionKey = RegionKey(region: string, shapefile: Option<string>)

  /** A row of `df_mapa`. */
  datatype MapRow = MapRow(key: RegionKey, production: real, jobs: real)

  function ResultKeys(r: seq<ResultRow>): (ks: seq<RegionKey>)
    ensures |ks| == |r| && forall i | 0 <= i < |r| :: ks[i] == RegionKey(r[i].base.region, r[i].base.shapefile)
  {
    seq(|r|, i requires 0 <= i < |r| => RegionKey(r[i].base.region, r[i].base.shapefile))
  }

  /** The rows `groupby` keeps: with its default `dropna=True`, a row whose shapefile name is NaN is dropped. */
  function MappedRows(r: seq<ResultRow>): (m: seq<ResultRow>)
    ensures forall x :: x in m <==> x in r && x.base.shapefile.Some?
    ensures (forall i | 0 <= i < |r| :: r[i].base.shapefile.Some?) ==> m == r
  {
    if |r| == 0 then []
    else (if r[0].base.shapefile.Some? then [r[0]] else []) + MappedRows(r[1..])
  }

  /** The group keys of rows that all have a shapefile name all have one. */
  lemma MappedKeys(kept: seq<ResultRow>)
    requires forall x | x in kept :: x.base.shapefile.Some?
    ensures forall j | 0 <= j < |Unique(ResultKeys(kept))| :: Unique(ResultKeys(kept))[j].shapefile.Some?
  {
    var ks := Unique(ResultKeys(kept));
    forall j | 0 <= j < |ks| ensures ks[j].shapefile.Some? {
      var i :| 0 <= i < |kept| && ResultKeys(kept)[i] == ks[j];
      assert kept[i] in kept;
    }
  }

  /**
    `groupby([...]).agg(sum, sum)`: one row per region with a shapefile name,
    with its summed production and jobs; the rows without one are dropped.
  */
  function AggregateByRegion(r: seq<ResultRow>): (m: seq<MapRow>)
    ensures |m| == |Unique(ResultKeys(MappedRows(r)))|
    ensures forall j | 0 <= j < |m| ::
      && m[j].key == Unique(ResultKeys(MappedRows(r)))[j] && m[j].key.shapefile.Some?
      && m[j].production == SumIf(ResultKeys(MappedRows(r)), ResultProductions(MappedRows(r)), m[j].key)
      && m[j].jobs == SumIf(ResultKeys(MappedRows(r)), ResultJobs(MappedRows(r)), m[j].key)
  {
    var kept := MappedRows(r);
    var ks := Unique(ResultKeys(kept));
    MappedKeys(kept);
    seq(|ks|, j requires 0 <= j < |ks| =>
      MapRow(ks[j], SumIf(ResultKeys(kept), ResultProductions(kept), ks[j]), SumIf(ResultKeys(kept), ResultJobs(kept), ks[j])))
  }

  function MapProductions(m: seq<MapRow>): (xs: seq<real>)
    ensures |xs| == |m| && forall j | 0 <= j < |m| :: xs[j] == m[j].production
  {
    seq(|m|, j requires 0 <= j < |m| => m[j].production)
  }

  function MapJobs(m: seq<MapRow>): (xs: seq<real>)
    ensures |xs| == |m| && forall j | 0 <= j < |m| :: xs[j] == m[j].jobs
  {
    seq(|m|, j requires 0 <= j < |m| => m[j].jobs)
  }

  /** The per-region sums keep the totals of both columns over the rows with a shapefile name. */
  lemma AggregatePreservesTotals(r: seq<ResultRow>)
    ensures Sum(MapProductions(AggregateByRegion(r))) == Sum(ResultProductions(MappedRows(r)))
    ensures Sum(MapJobs(AggregateByRegion(r))) == Sum(ResultJobs(MappedRows(r)))
  {
    var kept := MappedRows(r);
    var m := AggregateByRegion(r);
    var keys, ks := ResultKeys(kept), Unique(ResultKeys(kept));
    var ps, js := ResultProductions(kept), ResultJobs(kept);
    assert MapProductions(m) == GroupSums(ks, keys, ps);
    assert MapJobs(m) == GroupSums(ks, keys, js);
    GroupSumsPreserveTotal(keys, ps);
    GroupSumsPreserveTotal(keys, js);
  }

  /** When every row has a shapefile name, nothing is dropped and both column totals are kept. */
  lemma AggregateOfMappedRows(r: seq<ResultRow>)
    requires forall i | 0 <= i < |r| :: r[i].base.shapefile.Some?
    ensures Sum(MapProductions(AggregateByRegion(r))) == Sum(ResultProductions(r))
    ensures Sum(MapJobs(AggregateByRegion(r))) == Sum(ResultJobs(r))
  {
    AggregatePreservesTotals(r);
    assert MappedRows(r) == r;
  }

  /**
    The simulation of the first edition: the sector impacts of the shock,
    split over the baseline table, summed per region.
  */
  function BaselineSimulation(L: Matrix, k: Sector, v: real): (m: seq<MapRow>)
    requires IsEngineMatrix(L)
  {
    AggregateByRegion(Regionalise(BaselineTable(), SectorImpacts(L, OneHot(SectorCount, k, v))))
  }

  /**
    `total_prod_gerada`: the map's production adds up to the sum of the
    sector impacts, which is the shock times the shocked sector's multiplier.
  */
  lemma BaselineTotal(L: Matrix, k: Sector, v: real)
    requires IsEngineMatrix(L)
    ensures Sum(MapProductions(BaselineSimulation(L, k, v))) == Sum(SectorImpacts(L, OneHot(SectorCount, k, v)))
    ensures Sum(MapProductions(BaselineSimulation(L, k, v))) == v * Multiplier(L, k)
  {
    var x := SectorImpacts(L, OneHot(SectorCount, k, v));
    var r := Regionalise(BaselineTable(), x);
    forall i | 0 <= i < |r| ensures r[i].base.shapefile.Some? {
      ShapefileNames();
      assert r[i].base.shapefile == ShapefileName(Regions[i % 11]);
    }
    AggregateOfMappedRows(r);
    BaselineSharesSumToOne();
    RegionalTotal(BaselineTable(), x);
    assert x == Impacts(L, k, v);
    TotalImpact(L, k, v);
  }
}
