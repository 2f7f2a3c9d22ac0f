/**
  Region-name correction and matching (region_name_corrector.py): the official
  list's names are repaired by a table of mis-decoded character sequences and
  re-spaced, and names from other sources are matched against them after a
  normalisation that drops case, accents and linking words.
*/
module Corrector {
  import opened Wrappers
  import opened Words
  import opened Letters
  import opened Substrings
  import opened Matching
  import opened RegionLists

  // ---------------------------------------------------------------------------
  // clean_region_name
  // ---------------------------------------------------------------------------

  /** The first twelve fixes: a UTF-8 accented letter read as Latin-1, 'Ã' and a second character. */
  const MojibakeFixes: Table := [
    ("\U{C3}\U{A7}", "\U{E7}"), ("\U{C3}\U{A9}", "\U{E9}"), ("\U{C3}\U{A1}", "\U{E1}"),
    ("\U{C3} ", "\U{E0}"), ("\U{C3}\U{B3}", "\U{F3}"), ("\U{C3}\U{B5}", "\U{F5}"),
    ("\U{C3}\U{AA}", "\U{EA}"), ("\U{C3}\U{A2}", "\U{E2}"), ("\U{C3}\U{AD}", "\U{ED}"),
    ("\U{C3}\U{BA}", "\U{FA}"), ("\U{C3}\U{BC}", "\U{FC}"), ("\U{C3}\U{B1}", "\U{F1}")
  ]

  /** The fix for a lone replacement character. */
  const ReplacementCharFix: Table := [("\U{FFFD}", "\U{E9}")]

  /** The fix for 'Ã' followed by a replacement character. */
  const ReplacementPairFix: Table := [("\U{C3}\U{FFFD}", "\U{ED}")]

  /** The last three fixes; the very last turns any remaining 'Ã' into 'é'. */
  const TrailingFixes: Table := [("\U{C3}\U{B4}", "\U{F4}"), ("\U{C3}\U{152}", "\U{ED}"), ("\U{C3}", "\U{E9}")]

  /** The fix table in the order of its dictionary literal. */
  const EncodingFixesAsWritten: Table := MojibakeFixes + ReplacementCharFix + ReplacementPairFix + TrailingFixes

  /** The fix table corrected: the pair fix ahead of the lone-character fix, so that it can apply. */
  const EncodingFixes: Table := MojibakeFixes + ReplacementPairFix + ReplacementCharFix + TrailingFixes

  /** In either order, the table's last fix is the one for a lone 'Ã'. */
  lemma LastFix()
    ensures EncodingFixesAsWritten[|EncodingFixesAsWritten| - 1] == ("\U{C3}", "\U{E9}")
    ensures EncodingFixes[|EncodingFixes| - 1] == ("\U{C3}", "\U{E9}")
  {
  }

  /** A name cleaned with fix table `t`: stripped, every fix applied in table order, re-spaced; NaN gives "". */
  function CleanWith(c: Cell, t: Table): string
  {
    match c
    case NA => ""
    case Val(text) => Squeeze(ReplaceAll(Strip(text), t))
  }

  /** `clean_region_name`: the fix loop rebinds the name once per table entry, in the
      order of the dictionary literal. */
  method CleanRegionName(c: Cell) returns (name: string)
    ensures name == CleanWith(c, EncodingFixesAsWritten)
  {
    if c.NA? {
      return "";
    }
    var s := Strip(c.text);
    name := s;
    for i := 0 to |EncodingFixesAsWritten|
      invariant name == ReplaceAll(s, EncodingFixesAsWritten[..i])
    {
      ReplaceAllSnoc(s, EncodingFixesAsWritten, i);
      name := Replace(name, EncodingFixesAsWritten[i].0, EncodingFixesAsWritten[i].1);
    }
    assert EncodingFixesAsWritten[..|EncodingFixesAsWritten|] == EncodingFixesAsWritten;
    name := Squeeze(name);
  }

  /**
    Whatever the rest of the table, when its last fix turns every 'Ã' into 'é'
    a cleaned name is trimmed and single-spaced and contains no 'Ã', since
    nothing after that fix brings one back.
  */
  lemma CleanWithLastFix(c: Cell, t: Table)
    requires |t| > 0 && t[|t| - 1] == ("\U{C3}", "\U{E9}")
    ensures Normalized(CleanWith(c, t))
    ensures '\U{C3}' !in CleanWith(c, t)
    ensures c.NA? ==> CleanWith(c, t) == ""
  {
    if c.Val? {
      var s := Strip(c.text);
      var n := |t| - 1;
      ReplaceAllSnoc(s, t, n);
      assert t[..n + 1] == t;
      var fixed := ReplaceAll(s, t);
      ReplaceRemoves(ReplaceAll(s, t[..n]), '\U{C3}', "\U{E9}");
      assert '\U{C3}' !in fixed;
      SqueezeNormalized(fixed);
      SqueezeChars(fixed);
    }
  }

  /** A name cleaned as written is trimmed, single-spaced and free of 'Ã'; NaN gives "". */
  lemma CleanRegionNameSpec(c: Cell)
    ensures Normalized(CleanWith(c, EncodingFixesAsWritten))
    ensures '\U{C3}' !in CleanWith(c, EncodingFixesAsWritten)
    ensures c.NA? ==> CleanWith(c, EncodingFixesAsWritten) == ""
  {
    LastFix();
    CleanWithLastFix(c, EncodingFixesAsWritten);
  }

  /** The corrected order keeps the same guarantees. */
  lemma CleanRepairedSpec(c: Cell)
    ensures Normalized(CleanWith(c, EncodingFixes)) && '\U{C3}' !in CleanWith(c, EncodingFixes)
  {
    LastFix();
    CleanWithLastFix(c, EncodingFixes);
  }

  /** Text without whitespace is its own squeeze. */
  lemma SqueezeOfUnspaced(s: string)
    requires NoSpace(s)
    ensures Squeeze(s) == s
  {
    SqueezeOfNormalized(s);
  }

  /** No mojibake fix applies to 'Ã' followed by a replacement character. */
  lemma MojibakeMissesPair()
    ensures ReplaceAll("\U{C3}\U{FFFD}", MojibakeFixes) == "\U{C3}\U{FFFD}"
  {
    var s := "\U{C3}\U{FFFD}";
    forall i | 0 <= i < |MojibakeFixes| ensures MissesChar(MojibakeFixes[i].0, s) {
      assert MojibakeFixes[i].0[1] !in s;
    }
    ReplaceAllAbsent(s, MojibakeFixes);
  }

  lemma CharFixOnPair()
    ensures ReplaceAll("\U{C3}\U{FFFD}", ReplacementCharFix) == "\U{C3}\U{E9}"
  {
  }
  lemma PairFixMissesFixedPair()
    ensures ReplaceAll("\U{C3}\U{E9}", ReplacementPairFix) == "\U{C3}\U{E9}"
  {
    ReplaceAbsent("\U{C3}\U{E9}", "\U{C3}\U{FFFD}", "\U{ED}", 1);
  }
  lemma TrailingFixesOnFixedPair()
    ensures ReplaceAll("\U{C3}\U{E9}", TrailingFixes) == "\U{E9}\U{E9}"
  {
    var s := "\U{C3}\U{E9}";
    ReplaceAbsent(s, "\U{C3}\U{B4}", "\U{F4}", 1);
    ReplaceAbsent(s, "\U{C3}\U{152}", "\U{ED}", 1);
    assert Replace("\U{E9}", "\U{C3}", "\U{E9}") == "\U{E9}";
    assert Replace(s, "\U{C3}", "\U{E9}") == "\U{E9}\U{E9}";
    ReplaceAllSnoc(s, TrailingFixes, 0);
    ReplaceAllSnoc(s, TrailingFixes, 1);
    ReplaceAllSnoc(s, TrailingFixes, 2);
    assert TrailingFixes[..3] == TrailingFixes;
  }
  lemma PairFixOnPair()
    ensures ReplaceAll("\U{C3}\U{FFFD}", ReplacementPairFix) == "\U{ED}"
  {
  }

  /** Cleaning stripped, unspaced text with a four-part table, given what each part makes of it. */
  lemma CleanInSteps(s: string, r1: string, r2: string, r3: string, a: Table, b: Table, c: Table, d: Table)
    requires NoEdgeSpace(s) && NoSpace(r3)
    requires ReplaceAll(s, a + b) == r1 && ReplaceAll(r1, c) == r2 && ReplaceAll(r2, d) == r3
    ensures CleanWith(Val(s), a + b + c + d) == r3
  {
    StripFixedPoints(s);
    ReplaceAllAppend(s, a + b, c);
    ReplaceAllAppend(s, a + b + c, d);
    SqueezeOfUnspaced(r3);
  }

  /** As written, the first two parts of the table turn the pair into 'Ã' and 'é'. */
  lemma PairThroughCharFix()
    ensures ReplaceAll("\U{C3}\U{FFFD}", MojibakeFixes + ReplacementCharFix) == "\U{C3}\U{E9}"
  {
    MojibakeMissesPair();
    CharFixOnPair();
    ReplaceAllAppend("\U{C3}\U{FFFD}", MojibakeFixes, ReplacementCharFix);
  }

  /** As written, the last two parts of the table turn 'Ã' and 'é' into "éé". */
  lemma PairAfterCharFix(s: string, r: string)
    requires s == "\U{C3}\U{FFFD}" && r == "\U{C3}\U{E9}"
    requires ReplaceAll(s, MojibakeFixes + ReplacementCharFix) == r
    ensures CleanWith(Val(s), EncodingFixesAsWritten) == "\U{E9}\U{E9}"
  {
    PairFixMissesFixedPair();
    TrailingFixesOnFixedPair();
    CleanInSteps(s, r, r, "\U{E9}\U{E9}", MojibakeFixes, ReplacementCharFix, ReplacementPairFix, TrailingFixes);
  }

  /**
    As written, the lone replacement character is fixed first, so 'Ã' followed
    by a replacement character becomes "éé" and the fix meant for that pair
    never applies.
  */
  lemma ReplacementPairLost()
    ensures CleanWith(Val("\U{C3}\U{FFFD}"), EncodingFixesAsWritten) == "\U{E9}\U{E9}"
  {
    PairThroughCharFix();
    PairAfterCharFix("\U{C3}\U{FFFD}", "\U{C3}\U{E9}");
  }

  /** With the pair fix ahead, the first two parts of the table turn the pair into 'í'. */
  lemma PairThroughPairFix()
    ensures ReplaceAll("\U{C3}\U{FFFD}", MojibakeFixes + ReplacementPairFix) == "\U{ED}"
  {
    MojibakeMissesPair();
    PairFixOnPair();
    ReplaceAllAppend("\U{C3}\U{FFFD}", MojibakeFixes, ReplacementPairFix);
  }

  /** With the pair fix ahead, the rest of the table leaves 'í' alone. */
  lemma PairAfterPairFix(s: string, r: string)
    requires s == "\U{C3}\U{FFFD}" && r == "\U{ED}"
    requires ReplaceAll(s, MojibakeFixes + ReplacementPairFix) == r
    ensures CleanWith(Val(s), EncodingFixes) == r
  {
    ReplaceAllUntouched(r, ReplacementCharFix);
    ReplaceAllUntouched(r, TrailingFixes);
    CleanInSteps(s, r, r, r, MojibakeFixes, ReplacementPairFix, ReplacementCharFix, TrailingFixes);
  }

  /** With the pair fix first, 'Ã' followed by a replacement character becomes 'í', as that fix intends. */
  lemma ReplacementPairRepaired()
    ensures CleanWith(Val("\U{C3}\U{FFFD}"), EncodingFixes) == "\U{ED}"
  {
    PairThroughPairFix();
    PairAfterPairFix("\U{C3}\U{FFFD}", "\U{ED}");
  }

  // ---------------------------------------------------------------------------
  // parse_official_regions_csv
  // ---------------------------------------------------------------------------

  /** A region of the official list: its code, its cleaned name and the stripped name it was read with. */
  datatype OfficialRegion = OfficialRegion(code: string, official: string, original: string)

  /** What the list loop makes of one row: the region filter, then the name cleaned. */
  function OfficialRow(row: seq<Cell>): Option<OfficialRegion> {
    match CodeRow(row)
    case Some(r) => Some(OfficialRegion(r.code, CleanWith(Val(r.name), EncodingFixesAsWritten), r.name))
    case None => None
  }

  /** The row loop of `parse_official_regions_csv`, cleaning each kept name with `CleanRegionName`. */
  method ParseOfficialRegions(rows: seq<seq<Cell>>) returns (regions: seq<OfficialRegion>)
    ensures regions == KeptRows(DataRows(rows), OfficialRow)
  {
    regions := [];
    for idx := 0 to |rows|
      invariant idx == 0 ==> regions == []
      invariant idx > 0 ==> regions == KeptRows(rows[1..idx], OfficialRow)
    {
      if idx > 0 {
        KeptRowsStep(rows, OfficialRow, idx);
        var r := CodeRow(rows[idx]);
        if r.Some? {
          var clean := CleanRegionName(Val(r.value.name));
          regions := regions + [OfficialRegion(r.value.code, clean, r.value.name)];
        }
      }
    }
    if |rows| > 0 {
      assert rows[1..|rows|] == rows[1..];
    }
  }

  /**
    Every region read comes from a data row that passes the region filter: its
    code is a six-digit code, its original name is that row's stripped name,
    and its official name is trimmed, single-spaced and free of 'Ã'.
  */
  lemma OfficialRegionsSpec(rows: seq<seq<Cell>>, r: OfficialRegion)
    requires r in KeptRows(DataRows(rows), OfficialRow)
    ensures exists i :: 1 <= i < |rows| && CodeRow(rows[i]) == Some(CodeName(r.code, r.original))
    ensures IsRegionCode(r.code) && NoEdgeSpace(r.original)
    ensures r.official == CleanWith(Val(r.original), EncodingFixesAsWritten)
    ensures Normalized(r.official) && '\U{C3}' !in r.official
  {
    var d := DataRows(rows);
    KeptRowsSpec(d, OfficialRow, r);
    var i :| 0 <= i < |d| && OfficialRow(d[i]) == Some(r);
    assert d[i] == rows[i + 1];
    CleanRegionNameSpec(Val(r.original));
  }

  // ---------------------------------------------------------------------------
  // normalize_name_for_matching and find_best_match
  // ---------------------------------------------------------------------------

  /** The linking words dropped before matching. */
  const StopWords: seq<string> := ["de", "da", "do", "das", "dos", "e"]

  /** `[w for w in words if w not in words_to_remove]`. */
  function DropStopWords(ws: seq<string>): seq<string> {
    if |ws| == 0 then []
    else
      var n := |ws| - 1;
      DropStopWords(ws[..n]) + (if ws[n] in StopWords then [] else [ws[n]])
  }

  /** The words kept are exactly the words that are not linking words, each a word of the input. */
  lemma {:induction false} DropStopWordsSpec(ws: seq<string>)
    ensures forall w | w in DropStopWords(ws) :: w in ws && w !in StopWords
    ensures forall w | w in ws && w !in StopWords :: w in DropStopWords(ws)
    decreases |ws|
  {
    if |ws| > 0 {
      var n := |ws| - 1;
      DropStopWordsSpec(ws[..n]);
      assert ws == ws[..n] + [ws[n]];
    }
  }

  /** `normalize_name_for_matching`: strip and lower-case, drop accents, drop linking words, re-space; NaN gives "". */
  function NormalizeNameForMatching(c: Cell): string {
    match c
    case NA => ""
    case Val(text) => Join(DropStopWords(Split(StripMarks(Lower(Strip(text))))))
  }

  /** The words left after dropping linking words are words made of characters of `x`, none a linking word. */
  lemma KeptWords(x: string)
    ensures AllWords(DropStopWords(Split(x)))
    ensures forall k | 0 <= k < |DropStopWords(Split(x))| :: CharsFrom(DropStopWords(Split(x))[k], x)
    ensures forall w | w in DropStopWords(Split(x)) :: w !in StopWords
  {
    var ws := Split(x);
    var kept := DropStopWords(ws);
    SplitWords(x);
    SplitChars(x);
    DropStopWordsSpec(ws);
    forall k | 0 <= k < |kept| ensures IsWord(kept[k]) && CharsFrom(kept[k], x) {
      assert kept[k] in ws;
      var j :| 0 <= j < |ws| && ws[j] == kept[k];
      assert IsWord(ws[j]) && CharsFrom(ws[j], x);
    }
  }

  /** Words made of lower-case, unaccented characters, joined by spaces, are lower-case and unaccented. */
  lemma JoinedLowerUnaccented(ws: seq<string>, x: string)
    requires forall k | 0 <= k < |ws| :: CharsFrom(ws[k], x)
    requires IsLowerCase(x) && forall i | 0 <= i < |x| :: IsUnaccented(x[i])
    ensures IsLowerCase(Join(ws)) && forall i | 0 <= i < |Join(ws)| :: IsUnaccented(Join(ws)[i])
  {
    var r := Join(ws);
    JoinChars(ws);
    forall i | 0 <= i < |r| ensures LowerChar(r[i]) == r[i] && IsUnaccented(r[i]) {
      if r[i] != ' ' {
        assert r[i] in r;
        var k :| 0 <= k < |ws| && r[i] in ws[k];
        assert CharsFrom(ws[k], x);
        var j :| 0 <= j < |x| && x[j] == r[i];
      }
    }
  }

  /**
    A normalised name is lower-case, accent-free, trimmed and single-spaced,
    and none of its words is a linking word.
  */
  lemma NormalizeNameForMatchingSpec(c: Cell)
    ensures var r := NormalizeNameForMatching(c);
      && IsLowerCase(r)
      && (forall i | 0 <= i < |r| :: IsUnaccented(r[i]))
      && Normalized(r)
      && (forall w | w in Split(r) :: w !in StopWords)
  {
    if c.Val? {
      var x := StripMarks(Lower(Strip(c.text)));
      LowerIsLowerCase(Strip(c.text));
      StripMarksLowerCase(Lower(Strip(c.text)));
      var kept := DropStopWords(Split(x));
      KeptWords(x);
      JoinWordsNormalized(kept);
      SplitJoin(kept);
      JoinedLowerUnaccented(kept, x);
    }
  }

  /** The normalised forms of a list of names. */
  function NormalizedNames(names: seq<string>): (ns: seq<string>)
    ensures |ns| == |names| && forall i | 0 <= i < |names| :: ns[i] == NormalizeNameForMatching(Val(names[i]))
  {
    seq(|names|, i requires 0 <= i < |names| => NormalizeNameForMatching(Val(names[i])))
  }

  /** `find_best_match`: the first name whose normalised form equals the target's, else the first near it, else `None`. */
  function FindBestMatch(target: string, names: seq<string>): Option<string> {
    BestMatch(NormalizeNameForMatching(Val(target)), NormalizedNames(names), names)
  }

  /**
    The match is one of the names; it is the first whose normalised form equals
    the target's when there is one, and otherwise the first whose normalised
    form contains the target's or is contained in it; there is none exactly
    when no normalised name is near the target's.
  */
  lemma FindBestMatchSpec(target: string, names: seq<string>)
    ensures var ns, t, r := NormalizedNames(names), NormalizeNameForMatching(Val(target)), FindBestMatch(target, names);
      && (r.Some? ==> r.value in names)
      && (r.None? <==> forall j | 0 <= j < |ns| :: !Near(t, ns[j]))
      && (forall i | 0 <= i < |ns| && ns[i] == t && (forall j | 0 <= j < i :: ns[j] != t) :: r == Some(names[i]))
      && (forall i | 0 <= i < |ns| && (forall j | 0 <= j < |ns| :: ns[j] != t)
            && Near(t, ns[i]) && (forall j | 0 <= j < i :: !Near(t, ns[j])) :: r == Some(names[i]))
  {
    BestMatchSpec(NormalizeNameForMatching(Val(target)), NormalizedNames(names), names);
  }

  // ---------------------------------------------------------------------------
  // create_region_mapping_table
  // ---------------------------------------------------------------------------

  /** A row of the mapping table: an official region and its best matches in the shapefile and in the IBGE table. */
  datatype MatchRow = MatchRow(
    code: string, official: string,
    shapefileMatch: Option<string>, ibgeMatch: Option<string>,
    shapefileFound: bool, ibgeFound: bool)

  /** The IBGE names to match against: the region-name column when the table has it, else none. */
  function IbgeNames(column: Option<seq<string>>): seq<string> {
    match column
    case Some(names) => names
    case None => []
  }

  /** The mapping-table row of one official region. */
  function MatchRowOf(r: OfficialRegion, shapeNames: seq<string>, ibgeNames: seq<string>): MatchRow {
    var shapefileMatch := FindBestMatch(r.official, shapeNames);
    var ibgeMatch := FindBestMatch(r.official, ibgeNames);
    MatchRow(r.code, r.official, shapefileMatch, ibgeMatch, shapefileMatch.Some?, ibgeMatch.Some?)
  }

  /**
    `create_region_mapping_table`: the loop over the official regions, looking
    up both matches for each and appending its row.
  */
  method CreateRegionMappingTable(official: seq<OfficialRegion>, shapeNames: seq<string>, ibgeColumn: Option<seq<string>>)
    returns (table: seq<MatchRow>)
    ensures table == Appended(official, r => MatchRowOf(r, shapeNames, IbgeNames(ibgeColumn)))
  {
    table := [];
    var ibgeNames := IbgeNames(ibgeColumn);
    var rowOf := r => MatchRowOf(r, shapeNames, ibgeNames);
    for i := 0 to |official|
      invariant table == Appended(official[..i], rowOf)
    {
      assert official[..i + 1][..i] == official[..i];
      var name := official[i].official;
      var shapefileMatch := FindBestMatch(name, shapeNames);
      var ibgeMatch := FindBestMatch(name, ibgeNames);
      table := table + [MatchRow(official[i].code, name, shapefileMatch, ibgeMatch, shapefileMatch.Some?, ibgeMatch.Some?)];
    }
    assert official[..|official|] == official;
  }

  /** The table has one row per official region, the i-th being that region's row. */
  lemma MappingTableRows(official: seq<OfficialRegion>, shapeNames: seq<string>, ibgeNames: seq<string>)
    ensures var t := Appended(official, r => MatchRowOf(r, shapeNames, ibgeNames));
      |t| == |official| && forall i | 0 <= i < |official| :: t[i] == MatchRowOf(official[i], shapeNames, ibgeNames)
  {
    AppendedSpec(official, r => MatchRowOf(r, shapeNames, ibgeNames));
  }

  /**
    A row carries its region's code and name, a found flag exactly when the
    match is present, and a match only among the names searched.
  */
  lemma MatchRowSpec(r: OfficialRegion, shapeNames: seq<string>, ibgeNames: seq<string>)
    ensures var m := MatchRowOf(r, shapeNames, ibgeNames);
      && m.code == r.code && m.official == r.official
      && (m.shapefileFound <==> m.shapefileMatch.Some?) && (m.ibgeFound <==> m.ibgeMatch.Some?)
      && (m.shapefileMatch.Some? ==> m.shapefileMatch.value in shapeNames)
      && (m.ibgeMatch.Some? ==> m.ibgeMatch.value in ibgeNames)
      && (m.shapefileMatch.None? <==> forall n | n in shapeNames ::
            !Near(NormalizeNameForMatching(Val(r.official)), NormalizeNameForMatching(Val(n))))
  {
    FindBestMatchSpec(r.official, shapeNames);
    FindBestMatchSpec(r.official, ibgeNames);
    var ns := NormalizedNames(shapeNames);
    forall n | n in shapeNames ensures NormalizeNameForMatching(Val(n)) in ns {
      var j :| 0 <= j < |shapeNames| && shapeNames[j] == n;
      assert ns[j] == NormalizeNameForMatching(Val(n));
    }
  }
}
