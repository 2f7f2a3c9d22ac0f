/**
  The deployment data (create_embedded_data.py): the regional IBGE sums, or a
  synthetic stand-in, joined by six-digit code to the ASCII region file, four
  rows per region with national shares per sector; and the shapefile's names
  paired with their ASCII forms.
*/
module EmbeddedData {
  import opened Wrappers
  import opened Words
  import opened Letters
  import opened Numerals
  import opened Matching
  import opened Lookup
  import opened Leontief
  import opened Economy
  import opened IbgeRegions
  import opened RegionLists
  import opened FixMapping
  import opened AsciiNames

  // ---------------------------------------------------------------------------
  // create_embedded_ibge_data
  // ---------------------------------------------------------------------------

  /** The four sector values used when the regional table is empty. */
  const DefaultValues: seq<real> := [1000.0, 2000.0, 800.0, 3000.0]

  /** The values of a region without a regional row: the per-sector medians, or the defaults when there are no rows. */
  function FallbackValues(regional: seq<RegionalRow>, medians: seq<real>): seq<real> {
    if |regional| > 0 then medians else DefaultValues
  }

  /** The values of the region with code text `code`: the four final columns of the last regional row with that code, or the fallback. */
  function CodeValues(regional: seq<RegionalRow>, medians: seq<real>, code: string): (v: seq<real>)
    requires |medians| == SectorCount
    ensures |v| == SectorCount
  {
    match LastValue(CodeKeys(regional), regional, code)
    case Some(r) => Finals(r)
    case None => FallbackValues(regional, medians)
  }

  function CodeValueTable(regional: seq<RegionalRow>, medians: seq<real>): (vals: string -> seq<real>)
    requires |medians| == SectorCount
    ensures forall code :: |vals(code)| == SectorCount
  {
    code => CodeValues(regional, medians, code)
  }

  /**
    A code with a regional row takes the final columns of the last such row;
    any other code takes the medians, or 1000, 2000, 800 and 3000 when there
    are no regional rows at all.
  */
  lemma CodeValuesSpec(regional: seq<RegionalRow>, medians: seq<real>, code: string)
    requires |medians| == SectorCount
    ensures (exists j :: IsLast(CodeKeys(regional), code, j)) ==>
      exists j :: IsLast(CodeKeys(regional), code, j) && CodeValues(regional, medians, code) == Finals(regional[j])
    ensures (forall j | 0 <= j < |regional| :: CodeKey(regional[j].code) != code) ==>
      CodeValues(regional, medians, code) == if |regional| > 0 then medians else [1000.0, 2000.0, 800.0, 3000.0]
  {
    var ks := CodeKeys(regional);
    var lv := LastValue(ks, regional, code);
    if exists j :: IsLast(ks, code, j) {
      var j :| IsLast(ks, code, j);
      assert ks[j] == code;
      var i :| IsLast(ks, code, i) && regional[i] == lv.value;
    }
    if forall j | 0 <= j < |regional| :: CodeKey(regional[j].code) != code {
      assert forall j | 0 <= j < |ks| :: ks[j] != code;
    }
  }

  /** `str(codigo_regiao).strip()` of every row of the ASCII region file. */
  function FileCodes(file: seq<FinalRow>): (cs: seq<string>)
    ensures |cs| == |file| && forall g | 0 <= g < |file| :: cs[g] == Strip(file[g].code)
  {
    seq(|file|, g requires 0 <= g < |file| => Strip(file[g].code))
  }

  /** The value lookup of the loop over the ASCII file: the code index first, the fallback otherwise. */
  method RegionCodeValues(regional: seq<RegionalRow>, medians: seq<real>, code: string, codeIndex: map<string, RegionalRow>)
    returns (values: seq<real>)
    requires |medians| == SectorCount
    requires codeIndex == IndexMap(CodeKeys(regional), regional)
    ensures values == CodeValueTable(regional, medians)(code)
  {
    IndexMapSpec(CodeKeys(regional), regional);
    if code in codeIndex {
      values := Finals(codeIndex[code]);
    } else if |regional| > 0 {
      values := medians;
    } else {
      values := [1000.0, 2000.0, 800.0, 3000.0];
    }
  }

  /** One more file row appends its block. */
  lemma FileStep(vals: string -> seq<real>, file: seq<FinalRow>, rates: seq<Rates>, g: nat, raw: seq<EconRow>, block: seq<EconRow>)
    requires forall k :: |vals(k)| == SectorCount
    requires |file| == |rates| && forall g | 0 <= g < |rates| :: ValidRates(rates[g])
    requires g < |file|
    requires raw == Blocks(vals, FileCodes(file)[..g], FinalNames(file)[..g], rates[..g])
    requires block == RegionBlock(file[g].name, vals(Strip(file[g].code)), rates[g])[..SectorCount]
    ensures raw + block == Blocks(vals, FileCodes(file)[..g + 1], FinalNames(file)[..g + 1], rates[..g + 1])
  {
    BlocksStep(vals, FileCodes(file), FinalNames(file), rates, g);
    assert block == RegionBlock(file[g].name, vals(Strip(file[g].code)), rates[g]);
  }

  /**
    `create_embedded_ibge_data`: the code index of the regional rows, then
    four rows per row of the ASCII file, named as the file names it and valued
    by its code, then the national shares. The draws of the jobs and firms
    rates are the parameter `rates`, one per file row.
  */
  method CreateEmbeddedIbgeData(regional: seq<RegionalRow>, file: seq<FinalRow>, medians: seq<real>, rates: seq<Rates>)
    returns (rows: seq<EconRow>)
    requires |medians| == SectorCount
    requires |rates| == |file| && forall g | 0 <= g < |rates| :: ValidRates(rates[g])
    ensures rows == WithShares(Blocks(CodeValueTable(regional, medians), FileCodes(file), FinalNames(file), rates))
  {
    var codeIndex := BuildIndex(CodeKeys(regional), regional);
    var raw: seq<EconRow> := [];
    for g := 0 to |file|
      invariant raw == Blocks(CodeValueTable(regional, medians), FileCodes(file)[..g], FinalNames(file)[..g], rates[..g])
    {
      var code := Strip(file[g].code);
      var name := file[g].name;
      var values := RegionCodeValues(regional, medians, code, codeIndex);
      var block: seq<EconRow> := [];
      for s := 0 to SectorCount
        invariant block == RegionBlock(name, values, rates[g])[..s]
      {
        RegionBlockStep(name, values, rates[g], s);
        block := block + [EstimatedRow(name, s, values[s], rates[g])];
      }
      FileStep(CodeValueTable(regional, medians), file, rates, g, raw, block);
      raw := raw + block;
    }
    assert FileCodes(file)[..|file|] == FileCodes(file) && FinalNames(file)[..|file|] == FinalNames(file);
    assert rates[..|rates|] == rates;
    rows := WithShares(raw);
  }

  /**
    Exactly four rows per file row, in sector order, each carrying the file's
    name verbatim and its code's value for the sector, with jobs and firms
    estimated from it; the shares are each row's part of its sector's total.
  */
  lemma EmbeddedRowsSpec(regional: seq<RegionalRow>, file: seq<FinalRow>, medians: seq<real>, rates: seq<Rates>)
    requires |medians| == SectorCount
    requires |rates| == |file| && forall g | 0 <= g < |rates| :: ValidRates(rates[g])
    ensures var rows := WithShares(Blocks(CodeValueTable(regional, medians), FileCodes(file), FinalNames(file), rates));
      && |rows| == SectorCount * |file|
      && HasShares(rows)
      && forall i | 0 <= i < |rows| ::
        && rows[i].region == file[i / SectorCount].name
        && rows[i].sector == i % SectorCount
        && rows[i].vab == CodeValues(regional, medians, Strip(file[i / SectorCount].code))[i % SectorCount]
  {
    var vals := CodeValueTable(regional, medians);
    BlocksSpec(vals, FileCodes(file), FinalNames(file), rates);
  }

  /**
    The names of the embedded rows are the names of the ASCII file, so when
    that file is made from the shapefile's names every region name passes the
    final ASCII check.
  */
  lemma EmbeddedRegionsAscii(
    shapeNames: seq<string>, official: seq<FinalRow>, regional: seq<RegionalRow>, medians: seq<real>, rates: seq<Rates>)
    requires |medians| == SectorCount
    requires |rates| == |shapeNames| && forall g | 0 <= g < |rates| :: ValidRates(rates[g])
    ensures var file := AsciiRegionFile(AsciiRows(official, shapeNames));
      var rows := WithShares(Blocks(CodeValueTable(regional, medians), FileCodes(file), FinalNames(file), rates));
      forall i | 0 <= i < |rows| :: IsAscii(rows[i].region)
  {
    var file := AsciiRegionFile(AsciiRows(official, shapeNames));
    AsciiRowsSpec(official, shapeNames);
    EmbeddedRowsSpec(regional, file, medians, rates);
    forall g | 0 <= g < |file| ensures IsAscii(file[g].name) {
      AsciiRowSpec(official, shapeNames[g], g);
    }
  }

  // ---------------------------------------------------------------------------
  // create_synthetic_regional_data
  // ---------------------------------------------------------------------------

  const SyntheticRegionCount: nat := 510

  /** The three lognormal draws of one synthetic region: agriculture, industry and services value added. */
  datatype SyntheticDraws = SyntheticDraws(agro: real, industry: real, services: real)

  /**
    The synthetic region with code `i`: named `Regiao_` and its six-digit
    code, construction at 15% of industry. The frame has no municipal sums,
    which are zero here.
  */
  function SyntheticRow(i: nat, d: SyntheticDraws): RegionalRow {
    RegionalRow(i, "Regiao_" + ZFill(IntToString(i), 6), 0.0, 0.0, 0.0, 0.0, 0.0,
      d.agro, d.industry, d.industry * 0.15, d.services)
  }

  /** The loop over codes 1 to 510, one row per code with that code's draws. */
  method CreateSyntheticRegionalData(draws: seq<SyntheticDraws>) returns (rows: seq<RegionalRow>)
    requires |draws| == SyntheticRegionCount
    ensures |rows| == SyntheticRegionCount
    ensures forall k | 0 <= k < |rows| :: rows[k] == SyntheticRow(k + 1, draws[k])
  {
    rows := [];
    for i := 1 to SyntheticRegionCount + 1
      invariant |rows| == i - 1
      invariant forall k | 0 <= k < |rows| :: rows[k] == SyntheticRow(k + 1, draws[k])
    {
      rows := rows + [SyntheticRow(i, draws[i - 1])];
    }
  }

  /** Rows numbered 1, 2, 3, ... in order have distinct six-digit code texts. */
  lemma NumberedKeysDistinct(rows: seq<RegionalRow>, k: nat)
    requires k < |rows|
    requires forall j | 0 <= j < |rows| :: rows[j].code == j + 1
    ensures forall j | 0 <= j < |rows| && j != k :: CodeKeys(rows)[j] != CodeKeys(rows)[k]
  {
    forall j | 0 <= j < |rows| && j != k ensures CodeKeys(rows)[j] != CodeKeys(rows)[k] {
      if CodeKeys(rows)[j] == CodeKeys(rows)[k] {
        CodeKeyInjective(j + 1, k + 1);
      }
    }
  }

  /**
    Every synthetic region is named `Regiao_` and its code's six-digit text,
    its construction is 15% of its industry, and that text finds exactly its
    own four values.
  */
  lemma SyntheticRowsSpec(draws: seq<SyntheticDraws>, rows: seq<RegionalRow>, medians: seq<real>, k: nat)
    requires |rows| == |draws| && k < |rows|
    requires forall k | 0 <= k < |rows| :: rows[k] == SyntheticRow(k + 1, draws[k])
    requires |medians| == SectorCount
    ensures rows[k].name == "Regiao_" + CodeKey(k + 1)
    ensures rows[k].constructionFinal == 0.15 * rows[k].industryFinal
    ensures CodeValues(rows, medians, CodeKey(k + 1)) == [draws[k].agro, draws[k].industry, draws[k].industry * 0.15, draws[k].services]
  {
    forall j | 0 <= j < |rows| ensures rows[j].code == j + 1 {
      assert rows[j] == SyntheticRow(j + 1, draws[j]);
    }
    NumberedKeysDistinct(rows, k);
    LastValueOfUnique(CodeKeys(rows), rows, k);
    assert CodeKeys(rows)[k] == CodeKey(k + 1);
    FoundValues(rows, medians, CodeKey(k + 1), rows[k]);
    SyntheticRowFields(k + 1, draws[k], rows[k]);
  }

  lemma SyntheticRowFields(i: nat, d: SyntheticDraws, r: RegionalRow)
    requires r == SyntheticRow(i, d)
    ensures r.name == "Regiao_" + CodeKey(i)
    ensures r.constructionFinal == 0.15 * r.industryFinal
    ensures Finals(r) == [d.agro, d.industry, d.industry * 0.15, d.services]
  {
  }

  lemma FoundValues(regional: seq<RegionalRow>, medians: seq<real>, code: string, r: RegionalRow)
    requires |medians| == SectorCount
    requires LastValue(CodeKeys(regional), regional, code) == Some(r)
    ensures CodeValues(regional, medians, code) == Finals(r)
  {
  }

  // ---------------------------------------------------------------------------
  // create_ascii_shapefile_mapping
  // ---------------------------------------------------------------------------

  /** The ASCII name of the first mapping row whose original is `original`, or `original` itself. */
  function AsciiNameOf(mapping: seq<AsciiRow>, original: string): string {
    match FirstEqual(original, Originals(mapping))
    case Some(j) => mapping[j].ascii
    case None => original
  }

  /** The search over the mapping, stopping at the first row with the same original name. */
  method FindAsciiName(mapping: seq<AsciiRow>, original: string) returns (ascii: string)
    ensures ascii == AsciiNameOf(mapping, original)
  {
    ascii := original;
    var j := 0;
    while j < |mapping|
      invariant 0 <= j <= |mapping|
      invariant forall k | 0 <= k < j :: Originals(mapping)[k] != original
    {
      if mapping[j].original == original {
        FirstEqualAt(original, Originals(mapping), j);
        ascii := mapping[j].ascii;
        return;
      }
      j := j + 1;
    }
  }

  /** A row of the shapefile mapping: the stripped name and its ASCII form. */
  datatype ShapefileName = ShapefileName(original: string, ascii: string)

  /** The loop over the shapefile's rows; the simplified geometry text is not modelled. */
  method CreateAsciiShapefileMapping(shapeNames: seq<string>, mapping: seq<AsciiRow>) returns (names: seq<ShapefileName>)
    ensures |names| == |shapeNames|
    ensures forall g | 0 <= g < |names| ::
      names[g] == ShapefileName(Strip(shapeNames[g]), AsciiNameOf(mapping, Strip(shapeNames[g])))
  {
    names := [];
    for g := 0 to |shapeNames|
      invariant |names| == g
      invariant forall k | 0 <= k < g :: names[k] == ShapefileName(Strip(shapeNames[k]), AsciiNameOf(mapping, Strip(shapeNames[k])))
    {
      var original := Strip(shapeNames[g]);
      var ascii := FindAsciiName(mapping, original);
      names := names + [ShapefileName(original, ascii)];
    }
  }

  /**
    With the mapping made from the same shapefile, every stripped name finds a
    row, and its ASCII form is the conversion of the name.
  */
  lemma ShapefileAsciiName(shapeNames: seq<string>, official: seq<FinalRow>, g: nat)
    requires g < |shapeNames|
    ensures var a := AsciiNameOf(AsciiRows(official, shapeNames), Strip(shapeNames[g]));
      a == AsciiSafe(Val(Strip(shapeNames[g]))) && IsAscii(a)
  {
    var mapping := AsciiRows(official, shapeNames);
    var original := Strip(shapeNames[g]);
    AsciiRowsSpec(official, shapeNames);
    AsciiRowSpec(official, shapeNames[g], g);
    assert Originals(mapping)[g] == original;
    var r := FirstEqual(original, Originals(mapping));
    var j := r.value;
    AsciiRowSpec(official, shapeNames[j], j);
  }
}
