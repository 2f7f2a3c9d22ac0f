/**
  The IBGE municipal GDP parser: fixed-width records read field by field,
  filtered by year, summed per immediate region, and joined by region code to
  the shapefile's region list to produce the four-sector table the simulators
  consume.
*/
module IbgeParser {
  import opened Wrappers
  import opened Sums
  import opened GroupBy
  import opened Words
  import opened Letters
  import opened Numerals
  import opened Matching
  import opened Lookup
  import opened Leontief
  import opened Economy

  // ---------------------------------------------------------------------------
  // Fixed-width fields
  // ---------------------------------------------------------------------------

  /** A 1-indexed character position. */
  type Position = n: nat | n >= 1 witness 1

  /** A field of the record layout: 1-indexed, inclusive character positions. */
  datatype FieldSpec = FieldSpec(start: Position, end: nat)

  const YearField := FieldSpec(1, 4)
  const CodeField := FieldSpec(276, 281)
  const NameField := FieldSpec(283, 348)
  const AgroField := FieldSpec(821, 839)
  const IndustryField := FieldSpec(840, 858)
  const ServicesField := FieldSpec(859, 877)
  const AdminField := FieldSpec(878, 896)
  const TotalField := FieldSpec(897, 915)

  /** Python's `line[lo:hi]` for non-negative bounds: bounds past the end are clamped, and `lo >= hi` gives "". */
  function Slice(line: string, lo: nat, hi: nat): string {
    var b := if hi <= |line| then hi else |line|;
    var a := if lo <= b then lo else b;
    line[a..b]
  }

  /** `line[start-1:end].strip()`. */
  function FieldText(line: string, f: FieldSpec): string
  {
    Strip(Slice(line, f.start - 1, f.end))
  }

  /** An `int` field: empty text reads as 0; `None` is the ValueError. */
  function IntValue(text: string): Option<int> {
    if text == "" then Some(0) else ParseInt(text)
  }

  /** A `float` field, in thousands of reais, converted to millions: empty text reads as 0. */
  function MillionsValue(text: string): Option<real> {
    if text == "" then Some(0.0)
    else match ParseDecimal(text)
      case Some(v) => Some(v / 1000.0)
      case None => None
  }

  /** The row dictionary built for a kept line. */
  datatype MunicipalRecord = MunicipalRecord(
    year: int, code: int, name: string,
    agro: real, industry: real, servicesExAdmin: real, publicAdmin: real, total: real)

  /** The layout, in the order of the record's fields. */
  const Layout8 := [YearField, CodeField, NameField, AgroField, IndustryField, ServicesField, AdminField, TotalField]

  /** The stripped text of each field of `specs`, in order. */
  function FieldTexts(line: string, specs: seq<FieldSpec>): (ts: seq<string>)
    ensures |ts| == |specs|
    decreases |specs|
  {
    if |specs| == 0 then [] else [FieldText(line, specs[0])] + FieldTexts(line, specs[1..])
  }

  lemma {:induction false} FieldTextsAt(line: string, specs: seq<FieldSpec>, k: nat)
    requires k < |specs|
    ensures FieldTexts(line, specs)[k] == FieldText(line, specs[k])
    decreases k
  {
    if k > 0 {
      FieldTextsAt(line, specs[1..], k - 1);
    }
  }

  /** The record of the eight field texts, or `None` when one of them fails to convert. */
  function ParseTexts(ts: seq<string>): Option<MunicipalRecord>
    requires |ts| == 8
  {
    var year := IntValue(ts[0]);
    var code := IntValue(ts[1]);
    var agro := MillionsValue(ts[3]);
    var industry := MillionsValue(ts[4]);
    var services := MillionsValue(ts[5]);
    var admin := MillionsValue(ts[6]);
    var total := MillionsValue(ts[7]);
    if year.Some? && code.Some? && agro.Some? && industry.Some? && services.Some? && admin.Some? && total.Some?
    then Some(MunicipalRecord(year.value, code.value, ts[2],
      agro.value, industry.value, services.value, admin.value, total.value))
    else None
  }

  /** One line of the file: all eight fields, or `None` when one of them fails to convert. */
  function ParseLine(line: string): Option<MunicipalRecord> {
    ParseTexts(FieldTexts(line, Layout8))
  }

  /** The records parsed by `parse` from `lines` that carry the year `targetYear`, in file order; lines that fail to parse are skipped. */
  function KeptRecords(lines: seq<string>, parse: string -> Option<MunicipalRecord>, targetYear: int): seq<MunicipalRecord> {
    if |lines| == 0 then []
    else
      var n := |lines| - 1;
      var p := parse(lines[n]);
      KeptRecords(lines[..n], parse, targetYear) + (if p.Some? && p.value.year == targetYear then [p.value] else [])
  }

  /** The line loop of `parse_ibge_municipal_data`: convert every field, keep the record if its year matches, skip the line on a conversion error. */
  method ParseMunicipalData(lines: seq<string>, targetYear: int) returns (data: seq<MunicipalRecord>)
    ensures data == KeptRecords(lines, ParseLine, targetYear)
  {
    data := [];
    for i := 0 to |lines|
      invariant data == KeptRecords(lines[..i], ParseLine, targetYear)
    {
      assert lines[..i + 1][..i] == lines[..i];
      var row := ParseLine(lines[i]);
      if row.Some? && row.value.year == targetYear {
        data := data + [row.value];
      }
    }
    assert lines[..|lines|] == lines;
  }

  /** A record is kept exactly when some line parses to it and its year is the target year. */
  lemma {:induction false} KeptRecordsSpec(lines: seq<string>, parse: string -> Option<MunicipalRecord>, targetYear: int, r: MunicipalRecord)
    ensures r in KeptRecords(lines, parse, targetYear) <==>
      r.year == targetYear && exists i :: 0 <= i < |lines| && parse(lines[i]) == Some(r)
    decreases |lines|
  {
    if |lines| > 0 {
      var n := |lines| - 1;
      KeptRecordsSpec(lines[..n], parse, targetYear, r);
      if exists i :: 0 <= i < n && parse(lines[..n][i]) == Some(r) {
        var i :| 0 <= i < n && parse(lines[..n][i]) == Some(r);
        assert parse(lines[i]) == Some(r);
      }
      if exists i :: 0 <= i < |lines| && parse(lines[i]) == Some(r) {
        var i :| 0 <= i < |lines| && parse(lines[i]) == Some(r);
        if i < n {
          assert parse(lines[..n][i]) == Some(r);
        }
      }
    }
  }

  // ---------------------------------------------------------------------------
  // Writing a record in the layout, and reading it back
  // ---------------------------------------------------------------------------

  function PadChar(t: string, j: nat): char {
    if j < |t| then t[j] else ' '
  }

  /** `t` left-aligned in a field of width `w`. */
  function Pad(t: string, w: nat): (p: string)
    ensures |p| == w
  {
    seq(w, j requires 0 <= j < w => PadChar(t, j))
  }

  function Blanks(n: nat): (b: string)
    ensures |b| == n && forall j | 0 <= j < n :: b[j] == ' '
  {
    seq(n, _ => ' ')
  }

  lemma {:induction false} RStripBlanks(t: string, n: nat)
    requires t == [] || !IsSpace(t[|t| - 1])
    ensures RStrip(t + Blanks(n)) == t
    decreases n
  {
    if n > 0 {
      assert (t + Blanks(n))[..|t| + n - 1] == t + Blanks(n - 1);
      RStripBlanks(t, n - 1);
    } else {
      assert t + Blanks(0) == t;
    }
  }

  /** Stripping a left-aligned field gives back text without whitespace at its ends. */
  lemma StripPad(t: string, w: nat)
    requires |t| <= w && NoEdgeSpace(t)
    ensures Strip(Pad(t, w)) == t
  {
    var b := Blanks(w - |t|);
    assert Pad(t, w) == t + b;
    if |t| > 0 {
      assert (t + b)[0] == t[0];
      assert LStrip(t + b) == t + b;
      RStripBlanks(t, w - |t|);
    } else {
      assert t + b == b;
      RStripBlanks([], w);
      LStripBlanks(w);
    }
  }

  lemma {:induction false} LStripBlanks(n: nat)
    ensures LStrip(Blanks(n)) == []
    decreases n
  {
    if n > 0 {
      assert Blanks(n)[1..] == Blanks(n - 1);
      LStripBlanks(n - 1);
    }
  }

  /** The texts of the eight fields of one line. */
  datatype LineTexts = LineTexts(
    year: string, code: string, name: string,
    agro: string, industry: string, services: string, admin: string, total: string)

  function TextList(t: LineTexts): seq<string> {
    [t.year, t.code, t.name, t.agro, t.industry, t.services, t.admin, t.total]
  }

  predicate Fits(t: LineTexts) {
    && |t.year| <= 4 && |t.code| <= 6 && |t.name| <= 66
    && |t.agro| <= 19 && |t.industry| <= 19 && |t.services| <= 19 && |t.admin| <= 19 && |t.total| <= 19
  }

  /** Character `i` (0-based) of the line that holds the texts `t` in their fields, blanks elsewhere. */
  function LayoutChar(t: LineTexts, i: nat): char {
    if i < 4 then PadChar(t.year, i)
    else if 275 <= i < 281 then PadChar(t.code, i - 275)
    else if 282 <= i < 348 then PadChar(t.name, i - 282)
    else if 820 <= i < 839 then PadChar(t.agro, i - 820)
    else if 839 <= i < 858 then PadChar(t.industry, i - 839)
    else if 858 <= i < 877 then PadChar(t.services, i - 858)
    else if 877 <= i < 896 then PadChar(t.admin, i - 877)
    else if 896 <= i < 915 then PadChar(t.total, i - 896)
    else ' '
  }

  /** A 915-character record of the layout. */
  function Layout(t: LineTexts): (line: string)
    ensures |line| == 915
  {
    seq(915, i requires 0 <= i < 915 => LayoutChar(t, i))
  }

  /** Each field of a laid-out line reads back as the text placed in it. */
  lemma LayoutFields(t: LineTexts)
    requires Fits(t)
    requires NoEdgeSpace(t.year) && NoEdgeSpace(t.code) && NoEdgeSpace(t.name)
    requires NoEdgeSpace(t.agro) && NoEdgeSpace(t.industry) && NoEdgeSpace(t.services)
    requires NoEdgeSpace(t.admin) && NoEdgeSpace(t.total)
    ensures FieldText(Layout(t), YearField) == t.year
    ensures FieldText(Layout(t), CodeField) == t.code
    ensures FieldText(Layout(t), NameField) == t.name
    ensures FieldText(Layout(t), AgroField) == t.agro
    ensures FieldText(Layout(t), IndustryField) == t.industry
    ensures FieldText(Layout(t), ServicesField) == t.services
    ensures FieldText(Layout(t), AdminField) == t.admin
    ensures FieldText(Layout(t), TotalField) == t.total
  {
    var line := Layout(t);
    assert line[0..4] == Pad(t.year, 4);
    assert line[275..281] == Pad(t.code, 6);
    assert line[282..348] == Pad(t.name, 66);
    assert line[820..839] == Pad(t.agro, 19);
    assert line[839..858] == Pad(t.industry, 19);
    assert line[858..877] == Pad(t.services, 19);
    assert line[877..896] == Pad(t.admin, 19);
    assert line[896..915] == Pad(t.total, 19);
    StripPad(t.year, 4);
    StripPad(t.code, 6);
    StripPad(t.name, 66);
    StripPad(t.agro, 19);
    StripPad(t.industry, 19);
    StripPad(t.services, 19);
    StripPad(t.admin, 19);
    StripPad(t.total, 19);
  }

  /** The field texts of a line whose fields hold `t`, in layout order. */
  lemma FieldTextsOfLine(line: string, t: LineTexts)
    requires FieldText(line, YearField) == t.year
    requires FieldText(line, CodeField) == t.code
    requires FieldText(line, NameField) == t.name
    requires FieldText(line, AgroField) == t.agro
    requires FieldText(line, IndustryField) == t.industry
    requires FieldText(line, ServicesField) == t.services
    requires FieldText(line, AdminField) == t.admin
    requires FieldText(line, TotalField) == t.total
    ensures FieldTexts(line, Layout8) == TextList(t)
  {
    var ts := FieldTexts(line, Layout8);
    FieldTextsAt(line, Layout8, 0);
    FieldTextsAt(line, Layout8, 1);
    FieldTextsAt(line, Layout8, 2);
    FieldTextsAt(line, Layout8, 3);
    FieldTextsAt(line, Layout8, 4);
    FieldTextsAt(line, Layout8, 5);
    FieldTextsAt(line, Layout8, 6);
    FieldTextsAt(line, Layout8, 7);
    EightTexts(ts, t);
  }

  lemma EightTexts(ts: seq<string>, t: LineTexts)
    requires |ts| == 8
    requires ts[0] == t.year && ts[1] == t.code && ts[2] == t.name && ts[3] == t.agro
    requires ts[4] == t.industry && ts[5] == t.services && ts[6] == t.admin && ts[7] == t.total
    ensures ts == TextList(t)
  {
  }

  /** The field texts of a laid-out line are the texts placed in it. */
  lemma LayoutTextList(t: LineTexts)
    requires Fits(t)
    requires NoEdgeSpace(t.year) && NoEdgeSpace(t.code) && NoEdgeSpace(t.name)
    requires NoEdgeSpace(t.agro) && NoEdgeSpace(t.industry) && NoEdgeSpace(t.services)
    requires NoEdgeSpace(t.admin) && NoEdgeSpace(t.total)
    ensures FieldTexts(Layout(t), Layout8) == TextList(t)
  {
    LayoutFields(t);
    FieldTextsOfLine(Layout(t), t);
  }

  /** Digits have no whitespace at their ends. */
  lemma DigitsNoEdgeSpace(n: nat)
    ensures NoEdgeSpace(NatToString(n))
  {
    var s := NatToString(n);
    assert IsAsciiDigit(s[0]) && IsAsciiDigit(s[|s| - 1]);
  }

  /** A number of thousands written in digits reads back as millions. */
  lemma MillionsOfDigits(n: nat)
    ensures MillionsValue(NatToString(n)) == Some(n as real / 1000.0)
  {
    DecimalOfIntString(n);
  }

  /** Digits read back as the number they write. */
  lemma IntOfDigits(n: nat)
    ensures IntValue(NatToString(n)) == Some(n)
  {
    IntRoundTrip(n);
  }

  /**
    Reading back a line written in the layout: each field is read as the text
    placed in it, so the line parses as its texts do.
  */
  lemma ParseLayout(t: LineTexts)
    requires Fits(t)
    requires NoEdgeSpace(t.year) && NoEdgeSpace(t.code) && NoEdgeSpace(t.name)
    requires NoEdgeSpace(t.agro) && NoEdgeSpace(t.industry) && NoEdgeSpace(t.services)
    requires NoEdgeSpace(t.admin) && NoEdgeSpace(t.total)
    ensures ParseLine(Layout(t)) == ParseTexts(TextList(t))
  {
    LayoutTextList(t);
  }
}
