# Regional economic shock simulator — a Dafny model

The system estimates how a demand shock in one sector of the Brazilian
economy spreads across its regions. It has two halves.

**The Leontief engine.** Four sectors (agriculture, industry, construction,
services) are linked by a fixed 4×4 matrix of technical coefficients `A`.
A shock is a demand of `v` in one sector. The national output it causes is
`L @ shock`, where `L = (I - A)^-1` is the Leontief inverse. That output is
then split over the regions by each region's share of its sector's value
added. The editions differ in their regional data:

- `app.py` uses a fixed table of eleven São Paulo regions, with jobs
  coefficients.
- `app_backup.py` draws a national table at random, and adds value-added
  and tax impacts.
- `app_elegant.py`, `app_premium.py` and `app_backup_premium.py` (the last
  identical to `app_premium.py`) draw one row per region and sector, and
  distribute the impacts sector by sector.

**The data-preparation scripts.** These turn IBGE's fixed-width municipal
file into regional value added (`ibge_data_parser.py`). They also read the
official list of immediate regions and repair its mis-decoded names
(`region_name_corrector.py`), pair codes with shapefile names
(`fix_region_mapping.py`), make every name ASCII (`ascii_name_converter.py`)
and assemble the table the deployed app embeds (`create_embedded_data.py`).

## How the model is organised

- Generic building blocks:
  - `Wrappers`: `Option`.
  - `Sums`: column sums and group sums.
  - `GroupBy`: shares, `unique`, `groupby().sum()`.
  - `LinAlg`: vectors, matrices and the Leontief system.
  - `Lookup`: dictionaries built row by row.
  - `Matching`: exact-then-substring name search.
  - `Numerals`: `str`, `int`, `float` and `zfill`.
  - `Words`: `strip`, `split`, `' '.join`.
  - `Letters`: `lower`, NFD accent stripping and the ASCII filter.
  - `Substrings`: `in` and `str.replace`.
  - `RegionLists`: the region filter shared by two scripts, and duplicate reporting.
- The engine:
  - `Leontief`: the matrix, the shock and the multipliers.
  - `Economy` and `Simulation`: the elegant and premium editions.
  - `Baseline`: `app.py`.
  - `MockData`: `app_backup.py`.
- The scripts:
  - `IbgeParser` and `IbgeRegions`: `ibge_data_parser.py`.
  - `Corrector`: `region_name_corrector.py`.
  - `FixMapping`: `fix_region_mapping.py`.
  - `AsciiNames`: `ascii_name_converter.py`.
  - `EmbeddedData`: `create_embedded_data.py`.

Code that loops and appends is modelled as methods with loop invariants.
Each method is proved equal to a specification function. The properties the
scripts rely on are proved about those functions as lemmas.

## Model

| member | source | states |
|---|---|---|
| LinAlg.Identity | app_elegant.py:153 | `np.identity(n)`: ones on the diagonal, zeros elsewhere |
| LinAlg.MatVec | app_elegant.py:241 | `M @ v`: entry `i` is row `i` of `M` dotted with `v` |
| LinAlg.MatVecAdd | app_elegant.py:241 | the product is linear: `M @ (a + b) == M @ a + M @ b` |
| LinAlg.MatVecScale | app_elegant.py:241 | `M @ (c v) == c (M @ v)` |
| LinAlg.MatVecOneHot | app_elegant.py:237-241 | a demand `v` in sector `k` alone moves every sector by `v` times column `k` of `L` |
| LinAlg.TotalOfOneHot | app_elegant.py:241 | the total output of a one-sector demand is `v` times that column's sum |
| LinAlg.LeontiefColumn | app_elegant.py:152-154 | column `k` of the inverse of `I - A` is the output that meets a unit demand in sector `k` |
| LinAlg.LeontiefSolves | app_elegant.py:152-154 | for every demand `d`, `L @ d` solves the Leontief system: `(I - A) @ (L @ d) == d` |
| Leontief.TechnicalCoefficients | app_elegant.py:145-150 | the published 4×4 matrix; each dictionary entry of the source is one column |
| Leontief.CoefVab | app_backup.py:39 | value added per unit of output is one minus the column sum of `A` |
| Leontief.CoefVabValues | app_backup.py:39 | the coefficients are 0.525, 0.4, 0.553 and 0.63, each strictly between 0 and 1 |
| Leontief.BuildShock | app_elegant.py:236-238 | the shock array has four entries: `v` at the shocked sector, zero elsewhere |
| Leontief.Impacts | app_elegant.py:241 | the national impacts of a one-sector shock are `v` times column `k` of `L` |
| Leontief.SectorImpacts | app_backup.py:134-139 | `calcular_impactos`: the impacts are the output vector that meets the shock exactly under `A` |
| Leontief.ImpactsMeetDemand | app_elegant.py:235-241 | the impacts of the one-sector shock meet exactly that shock |
| Leontief.TotalImpact | app_elegant.py:404 | total production impact = shock × the production multiplier (the column sum of `L`) |
| Leontief.ObservedMultiplierIsColumnSum | app_backup.py:444-446 | the multiplier read back as `total / shock` is the column sum of `L` when the shock is positive, and 0 otherwise |
| Leontief.ShockValue | app_elegant.py:781-791 | the shock is the chosen percentage of the sector's value added; for 0.1–50 % it lies between a thousandth and a half of that value |
| Leontief.SumBySectors | app_elegant.py:843 | adding a column sector by sector gives its total |
| Economy.Trunc | app_elegant.py:216 | Python `int()` on a float truncates toward zero: within one of `x`, on the side of zero |
| Economy.WithShares | app_elegant.py:222 | the share transform changes only `share_nacional`, which becomes each row's value added over its sector total |
| Economy.GenerateEconomicData | app_elegant.py:195-224 | four rows per region in region then `setores` order: the region's draw for the sector, jobs at the drawn rate, firms truncated (elegant) or absent (premium), and national shares |
| Economy.SectorSharesSumToOne | app_elegant.py:222 | with positive value added, each present sector's shares add up to one |
| Economy.SharesInUnitInterval | app_elegant.py:222 | with positive value added, every share lies in [0, 1] |
| Simulation.SectorRows | app_elegant.py:249 | every row the filter keeps belongs to the sector, and it keeps no more rows than the input has |
| Simulation.SectorBlock | app_elegant.py:249-254 | one result row per row of the sector: production = share × national impact, jobs at 2 %, firms at 1 % |
| Simulation.Simulate | app_elegant.py:235-260 | the impacts are `L @ shock`, and the result is the concatenation of the sector blocks in `setores` order, with jobs at 2 % of production and firms at 1 % or absent |
| Simulation.Distribute | app_premium.py:121-134 | the sector loop builds exactly the concatenated blocks; every row has jobs at 2 % and firms at 1 % of production (or none) |
| Simulation.ResultKeepsRows | app_elegant.py:244-258 | the result holds every input row exactly once, with its input columns unchanged |
| Simulation.ResultGroupedBySector | app_elegant.py:245-258 | the result is grouped by sector in `setores` order |
| Simulation.SectorConservation | app_elegant.py:252 | a sector's regional production impacts add back up to its national impact when its shares add up to one |
| Simulation.SimulationTotal | app_elegant.py:843 | the total production impact is shock × multiplier of the shocked sector, when every sector's shares add up to one |
| Baseline.ShapefileName | app.py:56 | a name in `mapeamento_regioes` maps to its entry; any other becomes NaN |
| Baseline.ShapefileNames | app.py:31-43 | every region keeps its own name, except Registro, which is drawn as Araraquara |
| Baseline.CoefJobs | app.py:66 | jobs coefficient × value added = staff × 1000 (0 when value added is 0) |
| Baseline.Table | app.py:47-66 | row `i` is region `i % 11` of sector `i / 11`, with its value added, jobs coefficient and sector share |
| Baseline.TableSharesSumToOne | app.py:59-63 | with positive value added, each sector's `Share_VAB` adds up to one |
| Baseline.BaselineShape | app.py:47-51 | 44 rows, eleven regions times four sectors, sector-major |
| Baseline.BaselineSharesSumToOne | app.py:59-63 | in the shipped table every sector's shares add up to one |
| Baseline.Regionalise | app.py:152-161 | each row gets its sector's impact, regional production = impact × share, and jobs = production × coefficient |
| Baseline.RegionalConservation | app.py:158 | a sector's regional productions add up to its impact when its shares add up to one |
| Baseline.RegionalTotal | app.py:158 | the regional productions add up to the sum of the sector impacts |
| Baseline.MappedRows | app.py:164 | `groupby` with its default `dropna=True` keeps exactly the rows whose shapefile name is not NaN, and all rows when every name is mapped |
| Baseline.AggregateByRegion | app.py:164-167 | one row per (region, shapefile name) among the kept rows, each holding its group's sums of production and jobs; no group has a NaN name |
| Baseline.AggregatePreservesTotals | app.py:164-167 | the per-region sums keep both column totals over the rows with a shapefile name |
| Baseline.AggregateOfMappedRows | app.py:164-167 | when every row has a shapefile name, nothing is dropped and both column totals are kept |
| Baseline.BaselineTotal | app.py:173 | `total_prod_gerada` is the sum of the sector impacts, i.e. shock × multiplier |
| MockData.SectorCoefVab | app_backup.py:126-127 | each sector's value-added coefficient is one minus its column sum of `A` |
| MockData.DeriveRow | app_backup.py:123-129 | the share, the coefficient, production = value added / coefficient, and jobs per unit of production |
| MockData.Derive | app_backup.py:120-129 | the drawn columns are kept, and each row's share is its value added over its sector total |
| MockData.GenerateMockData | app_backup.py:85-131 | four rows per distinct region, in first-appearance order, drawn within the source's ranges, then the derived columns |
| MockData.DrawRows | app_backup.py:96-116 | the nested loop appends region `r`'s sector `s` at position `4r + s` |
| MockData.GeneratedRowsPositive | app_backup.py:99-109 | drawn value added is at least 1000, so value added and estimated production are positive |
| MockData.MockSharesSumToOne | app_backup.py:121-123 | each present sector's shares add up to one |
| MockData.Results | app_backup.py:421-426 | per row: sector impact, production = impact × share, value added at the sector coefficient, taxes at 18 %, jobs at the row coefficient |
| MockData.MockConservation | app_backup.py:423 | a sector's regional productions add up to its impact |
| MockData.SectorVabImpact | app_backup.py:424 | a sector's regional value-added impacts add up to its impact times its coefficient |
| MockData.TaxesTotal | app_backup.py:425 | the taxes are 18 % of the value-added impacts, row by row and in total |
| MockData.VabTotal | app_backup.py:424 | the national value-added impact is the sum over sectors of coefficient × impact |
| MockData.AggregateByRegion | app_backup.py:429-434 | one row per region with the sums of its four metrics |
| MockData.AggregatePreservesTotals | app_backup.py:429-434 | the per-region sums keep all four national totals |
| MockData.NationalTotal | app_backup.py:444-446 | `total_prod` is shock × multiplier, so the displayed `multiplicador` is the column sum of `L` |
| MockData.ResultsTotal | app_backup.py:423 | the regional productions add up to the sum of the sector impacts |
| GroupBy.GroupShares | app_elegant.py:222 | each value over its group's total (0 where the total is 0) |
| GroupBy.SharesSumToOne | app_elegant.py:222 | the shares of a group with a non-zero total add up to one |
| GroupBy.SharesBounded | app_elegant.py:222 | with no negative values every share lies in [0, 1] |
| GroupBy.Unique | app_backup.py:91 | `unique()` has no repeats, contains every input key and nothing else, and is no longer than the input |
| GroupBy.UniqueOfDistinct | app_backup.py:91 | a list without repeats is its own `unique()` |
| GroupBy.GroupSums | app.py:164-167 | one total per key: the sum over that key's rows |
| GroupBy.GroupSumsPreserveTotal | app.py:164-167 | the group totals over the distinct keys add up to the column total |
| Sums.SumByKeysPartition | app.py:59 | summing group totals over distinct keys that cover every row gives the column total |
| Numerals.NatToStringRoundTrip | ibge_data_parser.py:174 | the digits of `str(n)` read back as `n` |
| Numerals.ZFill | ibge_data_parser.py:174 | `zfill(w)` is `w` characters long, or the text's own length when that is longer |
| Numerals.DigitsValueLeadingZeros | ibge_data_parser.py:174 | leading zeros do not change the value of a run of digits |
| Numerals.ParseIntOfDigits | ibge_data_parser.py:55 | `int()` reads back an unsigned or `-`-signed run of digits |
| Numerals.IntRoundTrip | ibge_data_parser.py:174 | `int(str(i)) == i` |
| Numerals.DecimalOfIntString | ibge_data_parser.py:58 | `float(str(i)) == i` |
| Words.StripSpec | ibge_data_parser.py:52 | `strip()` removes exactly the whitespace at both ends |
| Words.StripFixedPoints | ibge_data_parser.py:98 | `strip()` is the identity exactly on text without whitespace at its ends |
| Words.SplitWords | region_name_corrector.py:144 | every token of `split()` is non-empty and free of whitespace |
| Words.SqueezeNormalized | region_name_corrector.py:144 | `' '.join(s.split())` is trimmed and single-spaced |
| Words.SqueezeOfNormalized | region_name_corrector.py:144 | trimmed, single-spaced text is left alone by it |
| Words.SqueezeIdempotent | region_name_corrector.py:144 | re-spacing twice is re-spacing once |
| Words.SplitJoin | region_name_corrector.py:249 | splitting words joined by single spaces gives the words back |
| Words.SqueezeChars | ascii_name_converter.py:80 | re-spacing adds no character except plain spaces |
| Letters.LowerIsLowerCase | ibge_data_parser.py:122 | `lower()` gives lower-case text |
| Letters.StripMarks | ibge_data_parser.py:118-119 | after NFD and dropping category Mn, no character is accented or a combining mark, and the text is no longer |
| Letters.StripMarksOfUnaccented | ibge_data_parser.py:118-119 | text without accents is unchanged |
| Letters.StripMarksLowerCase | region_name_corrector.py:241-242 | dropping the marks of lower-case text leaves it lower-case |
| Letters.KeepAscii | ascii_name_converter.py:77 | the filtered text is ASCII and no longer than the input |
| Letters.KeepAsciiOfAscii | ascii_name_converter.py:77 | ASCII text passes the filter unchanged |
| Substrings.ContainsIsSubstring | ibge_data_parser.py:138 | `a in b` holds exactly when `a` occurs at some offset of `b` |
| Substrings.ReplaceChars | ascii_name_converter.py:70 | every character of `replace`'s result comes from the subject or the replacement |
| Substrings.ReplaceRemoves | region_name_corrector.py:141 | replacing a character by text without it removes every occurrence |
| Substrings.ReplaceAbsent | ascii_name_converter.py:70 | a pattern with a character absent from the subject changes nothing |
| Substrings.ReplaceAllSnoc | ascii_name_converter.py:69-70 | the loop over the table applies the entries one after another in table order |
| Substrings.ReplaceAllUntouched | ascii_name_converter.py:69-70 | text where no key can start passes through the table unchanged |
| Matching.BestMatchIndexSpec | ibge_data_parser.py:126-142 | the first exact match wins, else the first substring match; there is none exactly when no candidate is near |
| Matching.BestMatchSpec | ibge_data_parser.py:126-142 | the value returned is that of the chosen candidate, and is one of the values |
| Lookup.IndexMapSpec | ibge_data_parser.py:172-175 | a dictionary filled row by row has exactly the keys seen, each with the value of its last row |
| Lookup.BuildIndex | create_embedded_data.py:41-44 | the loop builds exactly that dictionary |
| Lookup.LastValueOfUnique | ibge_data_parser.py:172-175 | a key held by a single row gets that row's value |
| IbgeParser.FieldTexts | ibge_data_parser.py:50-52 | one stripped slice per field specification, in layout order |
| IbgeParser.ParseMunicipalData | ibge_data_parser.py:39-68 | the line loop keeps, in file order, the records of the lines that parse and carry the target year |
| IbgeParser.KeptRecordsSpec | ibge_data_parser.py:62-68 | a record is kept exactly when some line parses to it and its year is the target year |
| IbgeParser.StripPad | ibge_data_parser.py:52 | a left-aligned field strips back to its text |
| IbgeParser.LayoutFields | ibge_data_parser.py:24-33 | each of the eight fields of a 915-character layout line reads back as the text placed in it |
| IbgeParser.ParseLayout | ibge_data_parser.py:24-64 | a line written in the layout parses exactly as its field texts do |
| IbgeParser.IntOfDigits | ibge_data_parser.py:55 | an `int` field written in digits reads back as its number |
| IbgeParser.MillionsOfDigits | ibge_data_parser.py:58 | a `float` field of thousands reads back as millions |
| IbgeRegions.AggregateByImmediateRegion | ibge_data_parser.py:75-108 | one row per (code, name) group, in first-appearance order |
| IbgeRegions.AggregateSpec | ibge_data_parser.py:89-104 | each municipality lies in exactly one row; each row has its group's sums, stripped name, construction at 15 % of industry, and services plus public administration |
| IbgeRegions.SummedColumn | ibge_data_parser.py:89-95 | a summed regional column holds its municipal column's group sums |
| IbgeRegions.AggregatePreservesTotals | ibge_data_parser.py:89-104 | aggregation keeps every column's national total; construction totals 15 % of industry, services add public administration |
| IbgeRegions.ConstructionTotal | ibge_data_parser.py:103 | regional construction adds up to 15 % of national industry |
| IbgeRegions.ServicesTotal | ibge_data_parser.py:104 | regional services add up to national services plus public administration |
| IbgeRegions.NormalizeRegionNameSpec | ibge_data_parser.py:110-124 | a normalised name is lower-case and accent-free |
| IbgeRegions.NormalizeRegionNameIdempotent | ibge_data_parser.py:110-124 | normalising twice is normalising once, when the result has no whitespace at its ends |
| IbgeRegions.NormalizeRegionNameNotIdempotent | ibge_data_parser.py:115-119 | without that proviso it is not idempotent: a space before a combining accent survives the strip and is left at the end |
| IbgeRegions.FindBestRegionMatchSpec | ibge_data_parser.py:126-142 | the data of the first exact normalised match, else of the first substring match; `None` exactly when no name is near |
| IbgeRegions.CodeKeyRoundTrip | ibge_data_parser.py:174 | a code reads back from its six-digit text |
| IbgeRegions.CodeKeyInjective | ibge_data_parser.py:174 | distinct codes have distinct six-digit texts |
| IbgeRegions.RegionValues | ibge_data_parser.py:190-211 | the region's official code, if non-empty and present in the code index, gives its regional row's four values; otherwise the medians |
| IbgeRegions.CreateCompatibleEconomicData | ibge_data_parser.py:148-235 | four rows per shapefile region under its stripped name, valued by its matched row or the medians, then national shares |
| IbgeRegions.MatchedRowSpec | ibge_data_parser.py:191-193 | a region matches exactly when the official list names it with a non-empty code that some regional row has; the row is the last one with that code |
| IbgeRegions.BlocksSpec | ibge_data_parser.py:213-222 | row `i` is sector `i % 4` of region `i / 4`, carrying that region's value for the sector |
| IbgeRegions.AggregatedFinals | ibge_data_parser.py:101-104 | the four values of an aggregated row are agriculture, industry, 15 % of industry, and services plus administration |
| RegionLists.CodeRow | region_name_corrector.py:63-72 | a row is kept when cells 7 and 8 are present and the stripped code is six characters for which `isdigit` holds (ASCII digits and '¹', '²', '³'); the name is stripped |
| RegionLists.KeptRowsSpec | region_name_corrector.py:53-84 | a value is kept exactly when some row the loop visits yields it; no more values than rows |
| RegionLists.DuplicateNamesSpec | region_name_corrector.py:92-98 | exactly the names that occur at least twice are reported, each once |
| Corrector.CleanRegionName | region_name_corrector.py:103-146 | the fix loop applies the table in the order of its dictionary literal to the stripped name, then re-spaces; NaN gives "" |
| Corrector.CleanRegionNameSpec | region_name_corrector.py:117-144 | with the table in its written order, a cleaned name is trimmed, single-spaced and contains no 'Ã'; NaN gives "" |
| Corrector.CleanRepairedSpec | region_name_corrector.py:117-144 | the corrected order keeps those guarantees |
| Corrector.ReplacementPairLost | region_name_corrector.py:133-134 | as written, 'Ã' followed by the replacement character becomes "éé" |
| Corrector.ReplacementPairRepaired | region_name_corrector.py:133-134 | with the pair fix first, that pair becomes 'í' |
| Corrector.ParseOfficialRegions | region_name_corrector.py:53-84 | the row loop keeps the filtered rows in order, each with its code, name cleaned in the written order and stripped original |
| Corrector.OfficialRegionsSpec | region_name_corrector.py:53-84 | every region read comes from a data row that passes the filter; its official name is its original cleaned in the written order, trimmed, single-spaced and free of 'Ã' |
| Corrector.DropStopWordsSpec | region_name_corrector.py:245-247 | the kept words are exactly the input words that are not linking words |
| Corrector.NormalizeNameForMatchingSpec | region_name_corrector.py:224-249 | a normalised name is lower-case, accent-free, trimmed and single-spaced, and none of its words is a linking word |
| Corrector.FindBestMatchSpec | region_name_corrector.py:196-221 | the match is one of the names: the first normalised-equal one, else the first near one; none exactly when no name is near |
| Corrector.CreateRegionMappingTable | region_name_corrector.py:149-193 | one row per official region, in order |
| Corrector.MappingTableRows | region_name_corrector.py:167-184 | row `i` is region `i`'s row |
| Corrector.MatchRowSpec | region_name_corrector.py:177-184 | a row carries its region's code and name, a found flag exactly when its match is present, and matches only among the names searched |
| FixMapping.ParseCsvWithCodes | fix_region_mapping.py:22-68 | every data row that passes the region filter, in order, as its code and stripped name |
| FixMapping.ParsedCodesSpec | fix_region_mapping.py:44-61 | every code extracted is a six-digit code taken from some data row |
| FixMapping.AuthoritativeMapping | fix_region_mapping.py:71-101 | the `i`-th code is paired with the `i`-th shapefile name, for as many rows as both lists have |
| FixMapping.CorrectedMapping | fix_region_mapping.py:104-110 | the code column and the shapefile name, renamed `nome_regiao`, row for row |
| FixMapping.MappingKeepsShapefileOrder | fix_region_mapping.py:71-128 | the file's names are the shapefile's first names in order, each beside the code at the same position |
| FixMapping.ValidateSpec | fix_region_mapping.py:131-153 | matches never exceed the shapefile's names; matches and missing names make up those names; all match exactly when no difference is reported |
| AsciiNames.ConvertToAsciiSafe | ascii_name_converter.py:50-82 | the table loop in the order of the dictionary literal, accent stripping, ASCII filter and re-spacing give the conversion of the cell |
| AsciiNames.ConvertWithSpec | ascii_name_converter.py:61-80 | whatever the table, a converted name is ASCII, trimmed and single-spaced |
| AsciiNames.ConvertOfAscii | ascii_name_converter.py:61-80 | through any table whose keys start with a non-ASCII character, an ASCII, trimmed, single-spaced name is its own conversion |
| AsciiNames.AsciiSafeOfAscii | ascii_name_converter.py:50-82 | an ASCII, trimmed, single-spaced name is its own conversion |
| AsciiNames.AsciiSafeIdempotent | ascii_name_converter.py:50-82 | converting twice is converting once |
| AsciiNames.AsciiSafeRepairedIdempotent | ascii_name_converter.py:50-82 | with the corrected order, converting twice is still converting once |
| AsciiNames.AsciiMapKeysNonAscii | ascii_name_converter.py:19-45 | in the written and the corrected order, every key of the table starts with a non-ASCII character |
| AsciiNames.LowerEntriesAreBaseLetters | ascii_name_converter.py:21-25 | each lower-case accented letter maps to its unaccented letter |
| AsciiNames.UpperEntriesAreBaseLetters | ascii_name_converter.py:28-35 | each upper-case accented letter and each cedilla maps to its unaccented letter |
| AsciiNames.MojibakeLowerAAsWritten | ascii_name_converter.py:28-40 | as written, the two-character sequence for 'á' becomes "A" |
| AsciiNames.MojibakeLowerARepaired | ascii_name_converter.py:38-40 | with the two-character entries first, it becomes "a" |
| AsciiNames.MatchedCodeSpec | ascii_name_converter.py:106-111 | a code is found exactly when some official name converts to the same text, and it is the first such row's code |
| AsciiNames.FindRegionCode | ascii_name_converter.py:107-111 | the search stops at the first official row whose conversion matches |
| AsciiNames.FallbackCodeSpec | ascii_name_converter.py:120 | a fallback code is "99" then at least four digits that read back as the row number |
| AsciiNames.FallbackCodeInjective | ascii_name_converter.py:120 | different rows get different fallback codes |
| AsciiNames.AsciiRowFor | ascii_name_converter.py:103-124 | the loop body: the code by name, else by position, else the fallback; plus the stripped name and its conversion |
| AsciiNames.CreateAsciiRegionMapping | ascii_name_converter.py:85-136 | one mapping row per shapefile name, in order |
| AsciiNames.AsciiRowSpec | ascii_name_converter.py:102-124 | every row has a non-empty code, the stripped name and its ASCII, single-spaced conversion, with the code chosen by name, then position, then fallback |
| AsciiNames.AsciiRegionFile | ascii_name_converter.py:150-151 | the code and the ASCII name, renamed `nome_regiao`, row for row |
| AsciiNames.NonAsciiNamesSpec | ascii_name_converter.py:161-166 | exactly the names with a character above 127 are reported |
| AsciiNames.ProblematicRegions | ascii_name_converter.py:162-166 | the check loop collects exactly those names |
| AsciiNames.AsciiRegionFileIsSafe | ascii_name_converter.py:139-173 | the file made from the mapping has no problematic names |
| AsciiNames.UpdateShapefileWithAsciiNames | ascii_name_converter.py:178-199 | the dictionary filled row by row, applied with `fillna`, with the original kept beside it |
| AsciiNames.RenamedSpec | ascii_name_converter.py:191-199 | with the mapping made from the same shapefile, a name without edge whitespace becomes its ASCII form unless that is empty; otherwise it is kept |
| EmbeddedData.CodeValuesSpec | create_embedded_data.py:56-72 | a code with a regional row takes the last such row's final columns; any other code takes the medians, or 1000, 2000, 800, 3000 with no regional rows |
| EmbeddedData.RegionCodeValues | create_embedded_data.py:56-72 | the loop's value lookup is `CodeValues` |
| EmbeddedData.CreateEmbeddedIbgeData | create_embedded_data.py:14-96 | four rows per row of the ASCII file: its name verbatim, its code's values, then the national shares |
| EmbeddedData.EmbeddedRowsSpec | create_embedded_data.py:51-89 | exactly four rows per file row in sector order, each with the file's name and its code's value, and shares of each sector's total |
| EmbeddedData.EmbeddedRegionsAscii | create_embedded_data.py:190-194 | the embedded region names are the ASCII file's, so every name passes the final ASCII check |
| EmbeddedData.CreateSyntheticRegionalData | create_embedded_data.py:99-129 | one row per code 1 to 510, named `Regiao_` plus the six-digit code, construction at 15 % of industry |
| EmbeddedData.NumberedKeysDistinct | create_embedded_data.py:111-112 | rows numbered 1, 2, 3, … have distinct six-digit code texts |
| EmbeddedData.SyntheticRowsSpec | create_embedded_data.py:111-127 | each synthetic row's code text finds exactly its own four values |
| EmbeddedData.FindAsciiName | create_embedded_data.py:152-156 | the search returns the ASCII name of the first mapping row with the same original, else the original |
| EmbeddedData.CreateAsciiShapefileMapping | create_embedded_data.py:132-168 | one row per shapefile name: the stripped name and its ASCII name |
| EmbeddedData.ShapefileAsciiName | create_embedded_data.py:148-162 | with the mapping made from the same shapefile, every stripped name finds a row, and its ASCII name is the name's conversion |

## Left out

- User interface, maps, charts, file and network I/O, console output, caching and the geometry scripts (`create_ultra_light_geometry.py`, `simplify_geometries.py`) are not modelled. The model starts from the values those layers hand over.
- Random draws (`np.random.lognormal`, `uniform`, `random.uniform`) are parameters. Their ranges appear as preconditions where the source fixes them; the seed is not modelled.
- Floating point is modelled as exact reals. Rounding and NaN propagation are not captured.
- `np.linalg.inv` is not computed. The Leontief inverse `L` is a parameter satisfying `(I - A) @ L == I`, a property of the published matrix.
- Medians (`Series.median()`) are parameters of the scripts that use them.
- pandas dtype inference when reading CSV files is not modelled. Cells are text or missing, and codes stay text. The empty string is the only falsy code.
- Only the missing cell is read as NaN. pandas also reads other tokens such as "NA" or "null" as NaN; that is not modelled.
- `groupby` emits its groups in order of first appearance, where pandas sorts the keys. The totals proved do not depend on this order, but which group is last does.
- IbgeRegions.MatchedRowSpec: "the last row with the code" is taken in first-appearance group order. pandas sorts the groups by (code, name), so when one code appears under two names another row can be last: code 350001 under "B" and then under "A" gives "A" in the model and "B" in the source.
- EmbeddedData.CodeValuesSpec: the same holds for `CodeValues` and `RegionCodeValues`. The dictionary filled at create_embedded_data.py:42-44 keeps the last of pandas' sorted groups, and the model keeps the last in first-appearance order.
- Numerals.ParseIntOfDigits: `ParseInt` accepts only an optional sign and ASCII digits. Python's `int()` also accepts underscores between digits ("1_000") and non-ASCII decimal digits. `IbgeParser.ParseLine` therefore drops lines with those forms, which the source keeps.
- Numerals.DecimalOfIntString: `ParseDecimal` accepts only an optional sign and digits with at most one '.'. Python's `float()` also accepts exponents ("1e3"), "inf", "infinity" and "nan", underscores between digits and non-ASCII digits. Lines carrying those forms in a float field are dropped by the model and kept by the source.
- Errors the source raises on empty or unmapped input are not modelled. On those inputs the model returns an empty sequence or a value:
  - ibge_data_parser.py:227: `KeyError` for 'setor' when the aggregated frame is empty.
  - ibge_data_parser.py:230 and fix_region_mapping.py:141: `ZeroDivisionError` for an empty shapefile.
  - fix_region_mapping.py:109, region_name_corrector.py:93 and 190, create_embedded_data.py:89: `KeyError` on a `DataFrame([])` built from no rows, which has no columns.
- EmbeddedRegionsAscii: a name whose conversion is "" is written to the CSV and read back as NaN, so create_embedded_data.py:193 raises `TypeError`. The model keeps the empty string, and the lemma is stated over the names as strings.
- Baseline.CoefJobs: a zero value added gives 0, where pandas gives inf or NaN; the shipped table has no zero.
- GroupBy.GroupShares: a group whose total is zero gets shares of 0, where pandas divides by zero and gives NaN.
- `ascii_name_converter.py:115` uses `gdf.index.get_loc`. It is modelled as the row's position, as for the default range index the parquet file is read with.
- Unicode is modelled on Latin-1 plus the combining diacritical marks (U+0300–U+036F). Other characters are treated as having no decomposition and no case mapping.
- The encoding-retry loops that read the CSV files with several encodings are not modelled. The `try`/`except` around each row of the region lists is not modelled either, because the modelled row filter cannot raise.
- The jobs and firms rates drawn for each region (`uniform(15, 25)`, `uniform(0.5, 2.0)`) are parameters within those ranges.
- EmbeddedData.CreateSyntheticRegionalData: the synthetic frame has no municipal columns. They are zero in the model.
- AsciiNames.RenamedSpec: a shapefile name with whitespace at its ends matches no stripped key and is kept. The contract states this rather than a rename of every name.
- IbgeRegions.NormalizeRegionNameIdempotent requires the normalised name to have no whitespace at its ends, because without that the property fails (`NormalizeRegionNameNotIdempotent`).

## Findings

The operations of the model apply both tables in the order their dictionary literals give, as the code does. The corrected tables (`Corrector.EncodingFixes`, `AsciiNames.AsciiMap`) sit beside them. The intended result is proved for each corrected table, and so are the guarantees the written order has.

| source | as written | input that shows it | evidently intended | confidence | as-written member | corrected member |
|---|---|---|---|---|---|---|
| region_name_corrector.py:133-134 | the fix for the lone replacement character '�' comes before the fix for the pair 'Ã�', so the pair is never seen | the name "Ã�" becomes "éé" | 'Ã�' becomes 'í' | not executed | Corrector.ReplacementPairLost | Corrector.ReplacementPairRepaired |
| ascii_name_converter.py:28,38 | the single letter 'Ã' → 'A' is applied before the two-character sequences such as 'Ã¡' → 'a', so those entries never apply | "Ã¡" becomes "A" | "Ã¡" becomes "a" | not executed | AsciiNames.MojibakeLowerAAsWritten | AsciiNames.MojibakeLowerARepaired |
