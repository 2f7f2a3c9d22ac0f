/**
  The regional half of the IBGE parser: municipal records summed per
  immediate region with the four Leontief sector columns derived from them,
  region names normalised for comparison, and the table of the simulators
  built by joining the shapefile's regions to the sums through the official
  region codes.
*/
module IbgeRegions {
  import opened Wrappers
  import opened Sums
  import opened GroupBy
  import opened Words
  import opened Letters
  import opened Numerals
  import opened Matching
  import opened Lookup
  import opened Leontief
  import opened Economy
  import opened IbgeParser

  // ---------------------------------------------------------------------------
  // Aggregation by immediate region
  // ---------------------------------------------------------------------------

  /** The group key: region code and region name. */
  datatype RegionKey = RegionKey(code: int, name: string)

  /** A row of `df_regional`: the five summed columns and the four derived sector columns. */
  datatype RegionalRow = RegionalRow(
    code: int, name: string,
    agro: real, industry: real, servicesExAdmin: real, publicAdmin: real, total: real,
    agroFinal: real, industryFinal: real, constructionFinal: real, servicesFinal: real)

  function KeyOf(r: MunicipalRecord): RegionKey {
    RegionKey(r.code, r.name)
  }

  function KeysOf(data: seq<MunicipalRecord>): (ks: seq<RegionKey>)
    ensures |ks| == |data| && forall i | 0 <= i < |data| :: ks[i] == KeyOf(data[i])
  {
    seq(|data|, i requires 0 <= i < |data| => KeyOf(data[i]))
  }

  function Agro(r: MunicipalRecord): real { r.agro }
  function Industry(r: MunicipalRecord): real { r.industry }
  function ServicesExAdmin(r: MunicipalRecord): real { r.servicesExAdmin }
  function PublicAdmin(r: MunicipalRecord): real { r.publicAdmin }
  function Total(r: MunicipalRecord): real { r.total }

  /** The column `f` of the municipal table. */
  function Column(data: seq<MunicipalRecord>, f: MunicipalRecord -> real): (xs: seq<real>)
    ensures |xs| == |data| && forall i | 0 <= i < |data| :: xs[i] == f(data[i])
  {
    seq(|data|, i requires 0 <= i < |data| => f(data[i]))
  }

  /** The sum of column `f` over the municipalities of the group `k`. */
  function GroupTotal(data: seq<MunicipalRecord>, f: MunicipalRecord -> real, k: RegionKey): real {
    SumIf(KeysOf(data), Column(data, f), k)
  }

  /** The groups of the municipal table, each once, in order of first appearance. */
  function RegionKeys(data: seq<MunicipalRecord>): seq<RegionKey> {
    Unique(KeysOf(data))
  }

  /** The regional row of the group `k`: its sums, the stripped name and the derived sector columns. */
  function RegionalOf(data: seq<MunicipalRecord>, k: RegionKey): RegionalRow {
    var agro := GroupTotal(data, Agro, k);
    var industry := GroupTotal(data, Industry, k);
    var services := GroupTotal(data, ServicesExAdmin, k);
    var admin := GroupTotal(data, PublicAdmin, k);
    RegionalRow(k.code, Strip(k.name), agro, industry, services, admin, GroupTotal(data, Total, k),
      agro, industry, industry * 0.15, services + admin)
  }

  /** `aggregate_by_immediate_region`: one row per (code, name) group. */
  function AggregateByImmediateRegion(data: seq<MunicipalRecord>): (rows: seq<RegionalRow>)
    ensures |rows| == |RegionKeys(data)|
    ensures forall j | 0 <= j < |rows| :: rows[j] == RegionalOf(data, RegionKeys(data)[j])
  {
    var ks := RegionKeys(data);
    seq(|ks|, j requires 0 <= j < |ks| => RegionalOf(data, ks[j]))
  }

  /**
    Every municipality falls in exactly one row and every row comes from a
    municipality; each row carries its group's code and stripped name, the
    sums of its group, construction estimated as 15% of industry and services
    including public administration.
  */
  lemma AggregateSpec(data: seq<MunicipalRecord>)
    ensures var rows, ks := AggregateByImmediateRegion(data), RegionKeys(data);
      && Distinct(ks)
      && (forall i | 0 <= i < |data| :: KeyOf(data[i]) in ks)
      && (forall j | 0 <= j < |ks| :: exists i :: 0 <= i < |data| && KeyOf(data[i]) == ks[j])
      && (forall j | 0 <= j < |rows| ::
        && rows[j].code == ks[j].code && rows[j].name == Strip(ks[j].name)
        && rows[j].agro == GroupTotal(data, Agro, ks[j])
        && rows[j].industry == GroupTotal(data, Industry, ks[j])
        && rows[j].servicesExAdmin == GroupTotal(data, ServicesExAdmin, ks[j])
        && rows[j].publicAdmin == GroupTotal(data, PublicAdmin, ks[j])
        && rows[j].total == GroupTotal(data, Total, ks[j])
        && rows[j].agroFinal == rows[j].agro
        && rows[j].industryFinal == rows[j].industry
        && rows[j].constructionFinal == rows[j].industry * 0.15
        && rows[j].servicesFinal == rows[j].servicesExAdmin + rows[j].publicAdmin)
  {
    var keys, ks := KeysOf(data), RegionKeys(data);
    forall j | 0 <= j < |ks| ensures exists i :: 0 <= i < |data| && KeyOf(data[i]) == ks[j] {
      var i :| 0 <= i < |keys| && keys[i] == ks[j];
    }
  }

  function RowAgro(r: RegionalRow): real { r.agro }
  function RowIndustry(r: RegionalRow): real { r.industry }
  function RowServicesExAdmin(r: RegionalRow): real { r.servicesExAdmin }
  function RowPublicAdmin(r: RegionalRow): real { r.publicAdmin }
  function RowTotal(r: RegionalRow): real { r.total }
  function RowConstruction(r: RegionalRow): real { r.constructionFinal }
  function RowServicesFinal(r: RegionalRow): real { r.servicesFinal }

  /** The column `g` of the regional table. */
  function RowColumn(rows: seq<RegionalRow>, g: RegionalRow -> real): (xs: seq<real>)
    ensures |xs| == |rows| && forall j | 0 <= j < |rows| :: xs[j] == g(rows[j])
  {
    seq(|rows|, j requires 0 <= j < |rows| => g(rows[j]))
  }

  /** A summed column of the regional table is its municipal column's group sums. */
  lemma SummedColumn(data: seq<MunicipalRecord>, f: MunicipalRecord -> real, g: RegionalRow -> real)
    requires forall k :: g(RegionalOf(data, k)) == GroupTotal(data, f, k)
    ensures RowColumn(AggregateByImmediateRegion(data), g) == GroupSums(RegionKeys(data), KeysOf(data), Column(data, f))
    ensures Sum(RowColumn(AggregateByImmediateRegion(data), g)) == Sum(Column(data, f))
  {
    var rows := AggregateByImmediateRegion(data);
    assert RowColumn(rows, g) == GroupSums(RegionKeys(data), KeysOf(data), Column(data, f));
    GroupSumsPreserveTotal(KeysOf(data), Column(data, f));
  }

  /** Rows whose construction is 15% of their industry have a construction total of 15% of their industry total. */
  lemma ConstructionColumn(rows: seq<RegionalRow>)
    requires forall j | 0 <= j < |rows| :: rows[j].constructionFinal == rows[j].industry * 0.15
    ensures Sum(RowColumn(rows, RowConstruction)) == Sum(RowColumn(rows, RowIndustry)) * 0.15
  {
    SumTimes(RowColumn(rows, RowIndustry), RowColumn(rows, RowConstruction), 0.15);
  }

  /** Construction, estimated per region as 15% of industry, adds up to 15% of national industry. */
  lemma ConstructionTotal(data: seq<MunicipalRecord>)
    ensures Sum(RowColumn(AggregateByImmediateRegion(data), RowConstruction)) == Sum(Column(data, Industry)) * 0.15
  {
    var rows := AggregateByImmediateRegion(data);
    ConstructionColumn(rows);
    SummedColumn(data, Industry, RowIndustry);
  }

  /** Services, per region services plus public administration, add up to the two national totals. */
  lemma ServicesTotal(data: seq<MunicipalRecord>)
    ensures Sum(RowColumn(AggregateByImmediateRegion(data), RowServicesFinal))
      == Sum(Column(data, ServicesExAdmin)) + Sum(Column(data, PublicAdmin))
  {
    var rows := AggregateByImmediateRegion(data);
    SummedColumn(data, ServicesExAdmin, RowServicesExAdmin);
    SummedColumn(data, PublicAdmin, RowPublicAdmin);
    SumAdd(RowColumn(rows, RowServicesExAdmin), RowColumn(rows, RowPublicAdmin), RowColumn(rows, RowServicesFinal));
  }

  /**
    Aggregation loses no value added: each summed column of the regional
    table adds up to the national total of its municipal column, the
    construction column to 15% of national industry and the services column
    to national services plus public administration.
  */
  lemma AggregatePreservesTotals(data: seq<MunicipalRecord>)
    ensures var rows := AggregateByImmediateRegion(data);
      && Sum(RowColumn(rows, RowAgro)) == Sum(Column(data, Agro))
      && Sum(RowColumn(rows, RowIndustry)) == Sum(Column(data, Industry))
      && Sum(RowColumn(rows, RowServicesExAdmin)) == Sum(Column(data, ServicesExAdmin))
      && Sum(RowColumn(rows, RowPublicAdmin)) == Sum(Column(data, PublicAdmin))
      && Sum(RowColumn(rows, RowTotal)) == Sum(Column(data, Total))
      && Sum(RowColumn(rows, RowConstruction)) == Sum(Column(data, Industry)) * 0.15
      && Sum(RowColumn(rows, RowServicesFinal)) == Sum(Column(data, ServicesExAdmin)) + Sum(Column(data, PublicAdmin))
  {
    SummedColumn(data, Agro, RowAgro);
    SummedColumn(data, Industry, RowIndustry);
    SummedColumn(data, ServicesExAdmin, RowServicesExAdmin);
    SummedColumn(data, PublicAdmin, RowPublicAdmin);
    SummedColumn(data, Total, RowTotal);
    ConstructionTotal(data);
    ServicesTotal(data);
  }

  // ---------------------------------------------------------------------------
  // Region names
  // ---------------------------------------------------------------------------

  /** `normalize_region_name`: strip, drop accents, lower-case. */
  function NormalizeRegionName(name: string): string {
    Lower(StripMarks(Strip(name)))
  }

  /** A normalised name is in lower case and has no accents. */
  lemma NormalizeRegionNameSpec(name: string)
    ensures var r := NormalizeRegionName(name);
      IsLowerCase(r) && forall i | 0 <= i < |r| :: IsUnaccented(r[i])
  {
    var m := StripMarks(Strip(name));
    var r := Lower(m);
    forall i | 0 <= i < |r| ensures LowerChar(r[i]) == r[i] && IsUnaccented(r[i]) {
      LowerCharIdempotent(m[i]);
      LowerCharUnaccented(m[i]);
    }
  }

  /**
    Normalising twice is normalising once, provided the normalised name has
    no whitespace at its ends.
  */
  lemma NormalizeRegionNameIdempotent(name: string)
    requires NoEdgeSpace(NormalizeRegionName(name))
    ensures NormalizeRegionName(NormalizeRegionName(name)) == NormalizeRegionName(name)
  {
    var r := NormalizeRegionName(name);
    NormalizeRegionNameSpec(name);
    StripFixedPoints(r);
    StripMarksOfUnaccented(r);
    LowerOfLowerCase(r);
  }

  /**
    Without that proviso normalisation is not idempotent: a space followed by
    a combining accent is not stripped, but the accent is then dropped and
    leaves the space at the end.
  */
  lemma NormalizeRegionNameNotIdempotent()
    ensures NormalizeRegionName("a \U{301}") == "a "
    ensures NormalizeRegionName("a ") == "a"
  {
    assert LStrip("a \U{301}") == "a \U{301}";
    assert RStrip("a \U{301}") == "a \U{301}";
    assert StripMarks("a \U{301}") == "a ";
    assert LStrip("a ") == "a ";
    assert RStrip("a ") == RStrip("a");
    assert StripMarks("a") == "a";
  }

  /** The normalised names of a dictionary's keys, in its order. */
  function NormalizedNames<V>(regions: seq<(string, V)>): (ns: seq<string>)
    ensures |ns| == |regions| && forall i | 0 <= i < |regions| :: ns[i] == NormalizeRegionName(regions[i].0)
  {
    seq(|regions|, i requires 0 <= i < |regions| => NormalizeRegionName(regions[i].0))
  }

  /** `find_best_region_match`: the data of the best-matching region name, or `None`. */
  function FindBestRegionMatch<V>(target: string, regions: seq<(string, V)>): Option<V> {
    var ns := NormalizedNames(regions);
    var t := NormalizeRegionName(target);
    BestMatchIndexSpec(t, ns);
    match BestMatchIndex(t, ns)
    case Some(i) => Some(regions[i].1)
    case None => None
  }

  /**
    The data returned is that of the first region whose normalised name equals
    the normalised target or, when there is none, of the first whose
    normalised name contains it or is contained in it; there is no match
    exactly when no normalised name is near the target.
  */
  lemma FindBestRegionMatchSpec<V>(target: string, regions: seq<(string, V)>)
    ensures var ns, t, r := NormalizedNames(regions), NormalizeRegionName(target), FindBestRegionMatch(target, regions);
      && (r.None? <==> forall j | 0 <= j < |ns| :: !Near(t, ns[j]))
      && (forall i | 0 <= i < |ns| && ns[i] == t && (forall j | 0 <= j < i :: ns[j] != t) :: r == Some(regions[i].1))
      && (forall i | 0 <= i < |ns| && (forall j | 0 <= j < |ns| :: ns[j] != t)
            && Near(t, ns[i]) && (forall j | 0 <= j < i :: !Near(t, ns[j])) :: r == Some(regions[i].1))
  {
    var ns, t := NormalizedNames(regions), NormalizeRegionName(target);
    BestMatchIndexSpec(t, ns);
  }

  // ---------------------------------------------------------------------------
  // The table of the simulators
  // ---------------------------------------------------------------------------

  /** `str(int(code)).zfill(6)`: the six-digit text of a region code. */
  function CodeKey(code: int): string {
    ZFill(IntToString(code), 6)
  }

  /** A non-negative code is read back from its six-digit text, so distinct codes have distinct texts. */
  lemma CodeKeyRoundTrip(code: nat)
    ensures ParseInt(CodeKey(code)) == Some(code)
  {
    var d := NatToString(code);
    NatToStringRoundTrip(code);
    assert IsAsciiDigit(d[0]);
    if |d| < 6 {
      var z := seq(6 - |d|, _ => '0');
      assert CodeKey(code) == z + d;
      DigitsValueLeadingZeros(z, d);
      ParseIntOfDigits(z + d);
    } else {
      ParseIntOfDigits(d);
    }
  }

  lemma CodeKeyInjective(a: nat, b: nat)
    requires CodeKey(a) == CodeKey(b)
    ensures a == b
  {
    CodeKeyRoundTrip(a);
    CodeKeyRoundTrip(b);
  }

  /** The per-sector rates drawn for one region: jobs from [15, 25] and firms from [0.5, 2] per unit of value added. */
  datatype Rates = Rates(jobsRate: seq<real>, firmsRate: seq<real>)

  predicate ValidRates(d: Rates) {
    && |d.jobsRate| == SectorCount && |d.firmsRate| == SectorCount
    && (forall s | 0 <= s < SectorCount :: 15.0 <= d.jobsRate[s] <= 25.0)
    && (forall s | 0 <= s < SectorCount :: 0.5 <= d.firmsRate[s] <= 2.0)
  }

  /** The row appended for sector `s` of a region with value added `vab`, before shares are computed. */
  function EstimatedRow(region: string, s: Sector, vab: real, d: Rates): EconRow
    requires ValidRates(d)
  {
    EconRow(region, s, vab, vab * d.jobsRate[s], Some(Trunc(vab * d.firmsRate[s])), 0.0)
  }

  /** The four sector columns of a regional row, in `setores` order. */
  function Finals(r: RegionalRow): (v: seq<real>)
    ensures |v| == SectorCount
  {
    [r.agroFinal, r.industryFinal, r.constructionFinal, r.servicesFinal]
  }

  function CodeKeys(regional: seq<RegionalRow>): (ks: seq<string>)
    ensures |ks| == |regional| && forall j | 0 <= j < |regional| :: ks[j] == CodeKey(regional[j].code)
  {
    seq(|regional|, j requires 0 <= j < |regional| => CodeKey(regional[j].code))
  }

  /** The stripped names of the official region list. */
  function OfficialNames(official: seq<(string, string)>): (ns: seq<string>)
    ensures |ns| == |official| && forall j | 0 <= j < |official| :: ns[j] == Strip(official[j].0)
  {
    seq(|official|, j requires 0 <= j < |official| => Strip(official[j].0))
  }

  /** The stripped codes of the official region list. */
  function OfficialCodes(official: seq<(string, string)>): (cs: seq<string>)
    ensures |cs| == |official| && forall j | 0 <= j < |official| :: cs[j] == Strip(official[j].1)
  {
    seq(|official|, j requires 0 <= j < |official| => Strip(official[j].1))
  }

  /**
    The regional row joined to a shapefile region: the official code of its
    name (the last official row with that name), if non-empty, looked up
    among the regional rows' code texts (the last row with that code).
  */
  function MatchedRow(regional: seq<RegionalRow>, official: seq<(string, string)>, name: string): Option<RegionalRow> {
    var code := LastValue(OfficialNames(official), OfficialCodes(official), name);
    if code.Some? && code.value != "" then LastValue(CodeKeys(regional), regional, code.value) else None
  }

  /** The sector values used for a shapefile region: its regional row's, or the medians when it has none. */
  function SectorValues(regional: seq<RegionalRow>, official: seq<(string, string)>, medians: seq<real>, name: string): seq<real> {
    match MatchedRow(regional, official, name)
    case Some(r) => Finals(r)
    case None => medians
  }

  /** The four rows of one region, before shares are computed. */
  function RegionBlock(name: string, values: seq<real>, d: Rates): (b: seq<EconRow>)
    requires |values| == SectorCount && ValidRates(d)
    ensures |b| == SectorCount && forall s | 0 <= s < SectorCount :: b[s] == EstimatedRow(name, s, values[s], d)
  {
    seq(SectorCount, s requires 0 <= s < SectorCount => EstimatedRow(name, s, values[s], d))
  }

  /** The sector values of every shapefile region name. */
  function ValueTable(regional: seq<RegionalRow>, official: seq<(string, string)>, medians: seq<real>): string -> seq<real> {
    name => SectorValues(regional, official, medians, name)
  }

  lemma ValueTableLength(regional: seq<RegionalRow>, official: seq<(string, string)>, medians: seq<real>)
    requires |medians| == SectorCount
    ensures forall name :: |ValueTable(regional, official, medians)(name)| == SectorCount
  {
  }

  /**
    The rows of a list of regions, four per region in order, before shares
    are computed: region `g` is named `names[g]` and valued by
    `vals(keys[g])`.
  */
  function Blocks(vals: string -> seq<real>, keys: seq<string>, names: seq<string>, rates: seq<Rates>): seq<EconRow>
    requires forall k :: |vals(k)| == SectorCount
    requires |keys| == |names| == |rates| && forall g | 0 <= g < |rates| :: ValidRates(rates[g])
  {
    if |keys| == 0 then []
    else
      var n := |keys| - 1;
      Blocks(vals, keys[..n], names[..n], rates[..n]) + RegionBlock(names[n], vals(keys[n]), rates[n])
  }

  /** Row `i` is sector `i % 4` of region `i / 4`, with that region's value for the sector. */
  lemma {:induction false} BlocksSpec(vals: string -> seq<real>, keys: seq<string>, names: seq<string>, rates: seq<Rates>)
    requires forall k :: |vals(k)| == SectorCount
    requires |keys| == |names| == |rates| && forall g | 0 <= g < |rates| :: ValidRates(rates[g])
    ensures var rows := Blocks(vals, keys, names, rates);
      && |rows| == SectorCount * |keys|
      && forall i | 0 <= i < |rows| ::
        rows[i] == EstimatedRow(names[i / SectorCount], i % SectorCount, vals(keys[i / SectorCount])[i % SectorCount], rates[i / SectorCount])
    decreases |keys|
  {
    if |keys| > 0 {
      var n := |keys| - 1;
      BlocksSpec(vals, keys[..n], names[..n], rates[..n]);
      var rows := Blocks(vals, keys, names, rates);
      forall i | 0 <= i < |rows|
        ensures rows[i] == EstimatedRow(names[i / SectorCount], i % SectorCount, vals(keys[i / SectorCount])[i % SectorCount], rates[i / SectorCount])
      {
        if i >= SectorCount * n {
          assert i / SectorCount == n;
        } else {
          assert i / SectorCount < n;
        }
      }
    }
  }

  /** One more region appends its block of rows. */
  lemma BlocksStep(vals: string -> seq<real>, keys: seq<string>, names: seq<string>, rates: seq<Rates>, g: nat)
    requires forall k :: |vals(k)| == SectorCount
    requires |keys| == |names| == |rates| && forall g | 0 <= g < |rates| :: ValidRates(rates[g])
    requires g < |keys|
    ensures Blocks(vals, keys[..g + 1], names[..g + 1], rates[..g + 1])
      == Blocks(vals, keys[..g], names[..g], rates[..g]) + RegionBlock(names[g], vals(keys[g]), rates[g])
  {
    assert keys[..g + 1][..g] == keys[..g] && names[..g + 1][..g] == names[..g] && rates[..g + 1][..g] == rates[..g];
  }

  /** `str(x).strip()` of every entry. */
  function StripAll(ss: seq<string>): (r: seq<string>)
    ensures |r| == |ss| && forall g | 0 <= g < |ss| :: r[g] == Strip(ss[g])
  {
    seq(|ss|, g requires 0 <= g < |ss| => Strip(ss[g]))
  }

  /** One more row of a region's block. */
  lemma RegionBlockStep(name: string, values: seq<real>, d: Rates, s: nat)
    requires |values| == SectorCount && ValidRates(d) && s < SectorCount
    ensures RegionBlock(name, values, d)[..s + 1] == RegionBlock(name, values, d)[..s] + [EstimatedRow(name, s, values[s], d)]
  {
  }

  /** One more shapefile region, whose stripped name is its key and its name, appends its block. */
  lemma StripAllStep(vals: string -> seq<real>, shapeNames: seq<string>, rates: seq<Rates>, g: nat, raw: seq<EconRow>, block: seq<EconRow>)
    requires forall k :: |vals(k)| == SectorCount
    requires |shapeNames| == |rates| && forall g | 0 <= g < |rates| :: ValidRates(rates[g])
    requires g < |shapeNames|
    requires raw == Blocks(vals, StripAll(shapeNames)[..g], StripAll(shapeNames)[..g], rates[..g])
    requires block == RegionBlock(Strip(shapeNames[g]), vals(Strip(shapeNames[g])), rates[g])[..SectorCount]
    ensures raw + block == Blocks(vals, StripAll(shapeNames)[..g + 1], StripAll(shapeNames)[..g + 1], rates[..g + 1])
  {
    BlocksStep(vals, StripAll(shapeNames), StripAll(shapeNames), rates, g);
    assert block == RegionBlock(Strip(shapeNames[g]), vals(Strip(shapeNames[g])), rates[g]);
  }

  /**
    The value lookup of the shapefile loop: the official code of the name,
    if it is non-empty and indexes a regional row, gives that row's sector
    values; otherwise the medians.
  */
  method RegionValues(
    regional: seq<RegionalRow>, official: seq<(string, string)>, medians: seq<real>, name: string,
    codeIndex: map<string, RegionalRow>, nameToCode: map<string, string>)
    returns (values: seq<real>)
    requires codeIndex == IndexMap(CodeKeys(regional), regional)
    requires nameToCode == IndexMap(OfficialNames(official), OfficialCodes(official))
    ensures values == ValueTable(regional, official, medians)(name)
  {
    IndexMapSpec(CodeKeys(regional), regional);
    IndexMapSpec(OfficialNames(official), OfficialCodes(official));
    if name in nameToCode && nameToCode[name] != "" && nameToCode[name] in codeIndex {
      values := Finals(codeIndex[nameToCode[name]]);
    } else {
      values := medians;
    }
  }

  /**
    `create_compatible_economic_data`: the code index of the regional rows,
    the name-to-code index of the official list, then four rows per
    shapefile region with its matched or median values, then the national
    shares.
  */
  method CreateCompatibleEconomicData(
    regional: seq<RegionalRow>, official: seq<(string, string)>, shapeNames: seq<string>,
    medians: seq<real>, rates: seq<Rates>)
    returns (rows: seq<EconRow>)
    requires |medians| == SectorCount
    requires |rates| == |shapeNames| && forall g | 0 <= g < |rates| :: ValidRates(rates[g])
    ensures rows == WithShares(Blocks(ValueTable(regional, official, medians), StripAll(shapeNames), StripAll(shapeNames), rates))
  {
    ValueTableLength(regional, official, medians);
    var codeIndex := BuildIndex(CodeKeys(regional), regional);
    var nameToCode := BuildIndex(OfficialNames(official), OfficialCodes(official));
    var raw: seq<EconRow> := [];
    for g := 0 to |shapeNames|
      invariant raw == Blocks(ValueTable(regional, official, medians), StripAll(shapeNames)[..g], StripAll(shapeNames)[..g], rates[..g])
    {
      var name := Strip(shapeNames[g]);
      var values := RegionValues(regional, official, medians, name, codeIndex, nameToCode);
      var block: seq<EconRow> := [];
      for s := 0 to SectorCount
        invariant block == RegionBlock(name, values, rates[g])[..s]
      {
        RegionBlockStep(name, values, rates[g], s);
        block := block + [EstimatedRow(name, s, values[s], rates[g])];
      }
      StripAllStep(ValueTable(regional, official, medians), shapeNames, rates, g, raw, block);
      raw := raw + block;
    }
    assert StripAll(shapeNames)[..|shapeNames|] == StripAll(shapeNames) && rates[..|rates|] == rates;
    rows := WithShares(raw);
  }

  /**
    A shapefile region is matched exactly when the official list has its
    name with a non-empty code and some regional row has that six-digit code;
    the row it is matched to is then the last such regional row.
  */
  lemma MatchedRowSpec(regional: seq<RegionalRow>, official: seq<(string, string)>, name: string)
    ensures var m, code := MatchedRow(regional, official, name), LastValue(OfficialNames(official), OfficialCodes(official), name);
      && (m.Some? <==> code.Some? && code.value != "" && exists j :: 0 <= j < |regional| && CodeKey(regional[j].code) == code.value)
      && (m.Some? ==> exists j :: IsLast(CodeKeys(regional), code.value, j) && regional[j] == m.value)
      && (code.Some? ==> exists i :: IsLast(OfficialNames(official), name, i) && OfficialCodes(official)[i] == code.value)
  {
    var code := LastValue(OfficialNames(official), OfficialCodes(official), name);
    if code.Some? && code.value != "" {
      var ks := CodeKeys(regional);
      if exists j :: 0 <= j < |regional| && CodeKey(regional[j].code) == code.value {
        var j :| 0 <= j < |regional| && CodeKey(regional[j].code) == code.value;
        assert ks[j] == code.value;
      }
    }
  }

  /**
    The sector values of an aggregated row: agriculture, industry,
    construction at 15% of industry, and services including public
    administration.
  */
  lemma AggregatedFinals(data: seq<MunicipalRecord>, r: RegionalRow)
    requires r in AggregateByImmediateRegion(data)
    ensures Finals(r) == [r.agro, r.industry, r.industry * 0.15, r.servicesExAdmin + r.publicAdmin]
  {
    var rows := AggregateByImmediateRegion(data);
    var j :| 0 <= j < |rows| && rows[j] == r;
    var k := RegionKeys(data)[j];
    assert r == RegionalOf(data, k);
    RegionalOfFinals(data, k, r);
  }

  lemma RegionalOfFinals(data: seq<MunicipalRecord>, k: RegionKey, r: RegionalRow)
    requires r == RegionalOf(data, k)
    ensures Finals(r) == [r.agro, r.industry, r.industry * 0.15, r.servicesExAdmin + r.publicAdmin]
  {
  }
}
