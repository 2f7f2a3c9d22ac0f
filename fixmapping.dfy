/**
  The authoritative region mapping (fix_region_mapping.py): the codes of the
  official list are paired by position with the shapefile's region names,
  projected to a code-and-name table, and the table's names are compared with
  the shapefile's as sets.
*/
module FixMapping {
  import opened Wrappers
  import opened RegionLists

  /** `parse_csv_with_codes`: every row after the first that the region filter keeps, as code and stripped name. */
  method ParseCsvWithCodes(rows: seq<seq<Cell>>) returns (codes: seq<CodeName>)
    ensures codes == KeptRows(DataRows(rows), CodeRow)
  {
    codes := [];
    for idx := 0 to |rows|
      invariant idx == 0 ==> codes == []
      invariant idx > 0 ==> codes == KeptRows(rows[1..idx], CodeRow)
    {
      if idx > 0 {
        KeptRowsStep(rows, CodeRow, idx);
        var r := CodeRow(rows[idx]);
        if r.Some? {
          codes := codes + [r.value];
        }
      }
    }
    if |rows| > 0 {
      assert rows[1..|rows|] == rows[1..];
    }
  }

  /** Every extracted code is a six-digit region code taken from some data row. */
  lemma ParsedCodesSpec(rows: seq<seq<Cell>>, c: CodeName)
    ensures c in KeptRows(DataRows(rows), CodeRow) <==>
      exists i :: 1 <= i < |rows| && CodeRow(rows[i]) == Some(c)
    ensures c in KeptRows(DataRows(rows), CodeRow) ==> IsRegionCode(c.code)
  {
    var d := DataRows(rows);
    KeptRowsSpec(d, CodeRow, c);
    if exists i :: 0 <= i < |d| && CodeRow(d[i]) == Some(c) {
      var i :| 0 <= i < |d| && CodeRow(d[i]) == Some(c);
      assert CodeRow(rows[i + 1]) == Some(c);
    }
    if exists i :: 1 <= i < |rows| && CodeRow(rows[i]) == Some(c) {
      var i :| 1 <= i < |rows| && CodeRow(rows[i]) == Some(c);
      assert CodeRow(d[i - 1]) == Some(c);
    }
  }

  /** A row of the authoritative mapping: the code, the shapefile's name and the list's corrupted name. */
  datatype MappingRow = MappingRow(code: string, official: string, corrupted: string)

  /**
    `create_authoritative_mapping`: the i-th code is paired with the i-th
    shapefile name, for as many rows as both lists have.
  */
  method AuthoritativeMapping(shapeNames: seq<string>, codes: seq<CodeName>) returns (m: seq<MappingRow>)
    ensures |m| == if |codes| < |shapeNames| then |codes| else |shapeNames|
    ensures forall i | 0 <= i < |m| :: m[i] == MappingRow(codes[i].code, shapeNames[i], codes[i].name)
  {
    m := [];
    for i := 0 to |codes|
      invariant |m| == if i < |shapeNames| then i else |shapeNames|
      invariant forall j | 0 <= j < |m| :: m[j] == MappingRow(codes[j].code, shapeNames[j], codes[j].name)
    {
      if i < |shapeNames| {
        m := m + [MappingRow(codes[i].code, shapeNames[i], codes[i].name)];
      }
    }
  }

  /** A row of the corrected mapping file. */
  datatype FinalRow = FinalRow(code: string, name: string)

  /** `save_corrected_mapping`: the code column and the shapefile name renamed `nome_regiao`, row for row. */
  function CorrectedMapping(m: seq<MappingRow>): (f: seq<FinalRow>)
    ensures |f| == |m|
    ensures forall i | 0 <= i < |m| :: f[i].code == m[i].code && f[i].name == m[i].official
  {
    seq(|m|, i requires 0 <= i < |m| => FinalRow(m[i].code, m[i].official))
  }

  /** The names column of the corrected mapping. */
  function FinalNames(f: seq<FinalRow>): (ns: seq<string>)
    ensures |ns| == |f| && forall i | 0 <= i < |f| :: ns[i] == f[i].name
  {
    seq(|f|, i requires 0 <= i < |f| => f[i].name)
  }

  /**
    Composed, the two steps give a file whose i-th row has the i-th code of the
    list and the i-th shapefile name, so its names are the shapefile's first
    names in order.
  */
  lemma MappingKeepsShapefileOrder(shapeNames: seq<string>, codes: seq<CodeName>, m: seq<MappingRow>)
    requires |m| == if |codes| < |shapeNames| then |codes| else |shapeNames|
    requires forall i | 0 <= i < |m| :: m[i] == MappingRow(codes[i].code, shapeNames[i], codes[i].name)
    ensures FinalNames(CorrectedMapping(m)) == shapeNames[..|m|]
    ensures forall i | 0 <= i < |m| :: CorrectedMapping(m)[i].code == codes[i].code
  {
  }

  /** What `validate_mapping` reports. */
  datatype Validation = Validation(
    matches: nat,
    total: nat,
    /** The two differences, computed only when some shapefile name is unmatched. */
    missing: Option<(set<string>, set<string>)>)

  function Validate(shapeNames: seq<string>, finalNames: seq<string>): Validation {
    var s := set n | n in shapeNames;
    var m := set n | n in finalNames;
    var matches := |s * m|;
    Validation(matches, |s|, if matches < |s| then Some((s - m, m - s)) else None)
  }

  /** A set splits into its part inside `m` and its part outside; all of it is inside exactly when the first part is as large. */
  lemma SplitCard(s: set<string>, m: set<string>)
    ensures |s * m| + |s - m| == |s|
    ensures |s * m| == |s| <==> s <= m
  {
    assert s == (s * m) + (s - m);
    assert (s * m) !! (s - m);
    if |s * m| == |s| {
      assert s - m == {};
    }
  }

  /**
    At most all shapefile names match; the matches and the names missing from
    the mapping together make up the shapefile's names; and every shapefile
    name is matched exactly when no difference is reported.
  */
  lemma ValidateSpec(shapeNames: seq<string>, finalNames: seq<string>)
    ensures var v := Validate(shapeNames, finalNames);
      var s := set n | n in shapeNames;
      var m := set n | n in finalNames;
      && v.matches <= v.total
      && (v.missing.Some? ==>
            v.matches + |v.missing.value.0| == v.total && v.missing.value.0 == s - m && v.missing.value.1 == m - s)
      && (v.missing.None? <==> forall n | n in shapeNames :: n in finalNames)
  {
    var s := set n | n in shapeNames;
    var m := set n | n in finalNames;
    SplitCard(s, m);
    assert s <= m <==> forall n | n in shapeNames :: n in finalNames by {
      if s <= m {
        forall n | n in shapeNames ensures n in finalNames {
          assert n in s;
        }
      }
    }
  }
}
