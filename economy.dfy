/**
  The synthetic regional economy of the elegant and premium editions
  (`gerar_dados_economicos`): four rows per region, one per sector, with a
  drawn value added, jobs, firms (elegant edition only) and each row's share
  of its sector's national value added.
*/
module Economy {
  import opened Wrappers
  import opened Sums
  import opened GroupBy
  import opened Leontief

  /** `regiao`, `setor`, `vab`, `empregos`, `empresas` (elegant edition only) and `share_nacional`. */
  datatype EconRow = EconRow(region: string, sector: Sector, vab: real, jobs: real, firms: Option<int>, share: real)

  /**
    The random draws made for one region: a value added per sector
    (lognormal, so positive), then per sector a jobs rate drawn from [15, 25]
    and a firms rate drawn from [0.5, 2].
  */
  datatype RegionDraws = RegionDraws(vab: seq<real>, jobsRate: seq<real>, firmsRate: seq<real>)

  predicate ValidDraws(d: RegionDraws) {
    && |d.vab| == SectorCount && |d.jobsRate| == SectorCount && |d.firmsRate| == SectorCount
    && (forall s | 0 <= s < SectorCount :: d.vab[s] > 0.0)
    && (forall s | 0 <= s < SectorCount :: 15.0 <= d.jobsRate[s] <= 25.0)
    && (forall s | 0 <= s < SectorCount :: 0.5 <= d.firmsRate[s] <= 2.0)
  }

  /** Python's `int(x)` on a float: truncation toward zero. */
  function Trunc(x: real): (n: int)
    ensures x >= 0.0 ==> n as real <= x < n as real + 1.0
    ensures x < 0.0 ==> n as real - 1.0 < x <= n as real
  {
    if x >= 0.0 then x.Floor else -((-x).Floor)
  }

  /** The row appended for sector `s` of a region, before shares are computed. */
  function DrawnRow(region: string, d: RegionDraws, s: Sector, withFirms: bool): EconRow
    requires ValidDraws(d)
  {
    EconRow(region, s, d.vab[s], d.vab[s] * d.jobsRate[s],
      if withFirms then Some(Trunc(d.vab[s] * d.firmsRate[s])) else None, 0.0)
  }

  function SectorsOf(rows: seq<EconRow>): (ks: seq<Sector>)
    ensures |ks| == |rows| && forall i | 0 <= i < |rows| :: ks[i] == rows[i].sector
  {
    seq(|rows|, i requires 0 <= i < |rows| => rows[i].sector)
  }

  function VabsOf(rows: seq<EconRow>): (xs: seq<real>)
    ensures |xs| == |rows| && forall i | 0 <= i < |rows| :: xs[i] == rows[i].vab
  {
    seq(|rows|, i requires 0 <= i < |rows| => rows[i].vab)
  }

  function SharesOf(rows: seq<EconRow>): (xs: seq<real>)
    ensures |xs| == |rows| && forall i | 0 <= i < |rows| :: xs[i] == rows[i].share
  {
    seq(|rows|, i requires 0 <= i < |rows| => rows[i].share)
  }

  /** Every row's share is its value added over its sector's national total. */
  predicate HasShares(rows: seq<EconRow>) {
    SharesOf(rows) == GroupShares(SectorsOf(rows), VabsOf(rows))
  }

  /** `df.groupby('setor')['vab'].transform(lambda x: x / x.sum())` stored as `share_nacional`. */
  function WithShares(rows: seq<EconRow>): (r: seq<EconRow>)
    ensures |r| == |rows| && HasShares(r)
    ensures forall i | 0 <= i < |rows| :: r[i].(share := rows[i].share) == rows[i]
  {
    var sh := GroupShares(SectorsOf(rows), VabsOf(rows));
    var r := seq(|rows|, i requires 0 <= i < |rows| => rows[i].(share := sh[i]));
    assert SectorsOf(r) == SectorsOf(rows) && VabsOf(r) == VabsOf(rows);
    r
  }

  /** The nested region-by-sector loop of `gerar_dados_economicos`, then the share transform. */
  method GenerateEconomicData(regions: seq<string>, draws: seq<RegionDraws>, withFirms: bool)
    returns (rows: seq<EconRow>)
    requires |draws| == |regions| && forall r | 0 <= r < |draws| :: ValidDraws(draws[r])
    ensures |rows| == SectorCount * |regions|
    ensures forall i | 0 <= i < |rows| ::
      rows[i].(share := 0.0) == DrawnRow(regions[i / SectorCount], draws[i / SectorCount], i % SectorCount, withFirms)
    ensures HasShares(rows)
  {
    var raw: seq<EconRow> := [];
    for r := 0 to |regions|
      invariant |raw| == SectorCount * r
      invariant forall i | 0 <= i < |raw| ::
        raw[i] == DrawnRow(regions[i / SectorCount], draws[i / SectorCount], i % SectorCount, withFirms)
    {
      for s := 0 to SectorCount
        invariant |raw| == SectorCount * r + s
        invariant forall i | 0 <= i < |raw| ::
          raw[i] == DrawnRow(regions[i / SectorCount], draws[i / SectorCount], i % SectorCount, withFirms)
      {
        raw := raw + [DrawnRow(regions[r], draws[r], s, withFirms)];
      }
    }
    rows := WithShares(raw);
  }

  /** Each sector present with positive value added has national shares that add up to one. */
  lemma SectorSharesSumToOne(rows: seq<EconRow>, s: Sector, i: nat)
    requires HasShares(rows) && i < |rows| && rows[i].sector == s
    requires forall j | 0 <= j < |rows| :: rows[j].vab > 0.0
    ensures SumIf(SectorsOf(rows), SharesOf(rows), s) == 1.0
  {
    SumIfAtLeast(SectorsOf(rows), VabsOf(rows), i);
    SharesSumToOne(SectorsOf(rows), VabsOf(rows), s);
  }

  /** With positive value added every share lies between zero and one. */
  lemma SharesInUnitInterval(rows: seq<EconRow>)
    requires HasShares(rows)
    requires forall j | 0 <= j < |rows| :: rows[j].vab > 0.0
    ensures forall j | 0 <= j < |rows| :: 0.0 <= rows[j].share <= 1.0
  {
    SharesBounded(SectorsOf(rows), VabsOf(rows));
  }
}
