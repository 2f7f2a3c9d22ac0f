/**
  ASCII-safe region names (ascii_name_converter.py): a name is stripped, put
  through a table of Portuguese letters and mis-decoded sequences, stripped of
  remaining accents and of any non-ASCII character, and re-spaced; the
  shapefile's names are then given codes from the official list and renamed to
  their ASCII forms.
*/
module AsciiNames {
  import opened Wrappers
  import opened Words
  import opened Letters
  import opened Numerals
  import opened Substrings
  import opened Lookup
  import opened RegionLists
  import opened FixMapping
  import opened Matching

  // ---------------------------------------------------------------------------
  // The character table, one constant per line of its dictionary literal
  // ---------------------------------------------------------------------------

  const LowerA: Table := [("\U{E1}", "a"), ("\U{E0}", "a"), ("\U{E3}", "a"), ("\U{E2}", "a"), ("\U{E4}", "a")]
  const LowerE: Table := [("\U{E9}", "e"), ("\U{E8}", "e"), ("\U{EA}", "e"), ("\U{EB}", "e")]
  const LowerI: Table := [("\U{ED}", "i"), ("\U{EC}", "i"), ("\U{EE}", "i"), ("\U{EF}", "i")]
  const LowerO: Table := [("\U{F3}", "o"), ("\U{F2}", "o"), ("\U{F5}", "o"), ("\U{F4}", "o"), ("\U{F6}", "o")]
  const LowerU: Table := [("\U{FA}", "u"), ("\U{F9}", "u"), ("\U{FB}", "u"), ("\U{FC}", "u")]
  const UpperA: Table := [("\U{C1}", "A"), ("\U{C0}", "A"), ("\U{C3}", "A"), ("\U{C2}", "A"), ("\U{C4}", "A")]
  const UpperE: Table := [("\U{C9}", "E"), ("\U{C8}", "E"), ("\U{CA}", "E"), ("\U{CB}", "E")]
  const UpperI: Table := [("\U{CD}", "I"), ("\U{CC}", "I"), ("\U{CE}", "I"), ("\U{CF}", "I")]
  const UpperO: Table := [("\U{D3}", "O"), ("\U{D2}", "O"), ("\U{D5}", "O"), ("\U{D4}", "O"), ("\U{D6}", "O")]
  const UpperU: Table := [("\U{DA}", "U"), ("\U{D9}", "U"), ("\U{DB}", "U"), ("\U{DC}", "U")]
  const Cedillas: Table := [("\U{E7}", "c"), ("\U{C7}", "C")]

  /** UTF-8 accented letters read as Latin-1: 'Ã' and a second character. */
  const MojibakeVowels: Table := [
    ("\U{C3}\U{A1}", "a"), ("\U{C3}\U{A9}", "e"), ("\U{C3}\U{AD}", "i"), ("\U{C3}\U{B3}", "o"), ("\U{C3}\U{BA}", "u")]
  const MojibakeMore: Table := [
    ("\U{C3} ", "a"), ("\U{C3}\U{AA}", "e"), ("\U{C3}\U{A2}", "a"), ("\U{C3}\U{B4}", "o"), ("\U{C3}\U{A7}", "c")]
  const MojibakeLast: Table := [("\U{C3}\U{B5}", "o"), ("\U{C3}\U{B1}", "n")]
  const ReplacementChar: Table := [("\U{FFFD}", "a")]
  const MojibakeSymbols: Table := [("\U{C3}\U{2021}", "C"), ("\U{C3}\U{2020}", "A")]

  /** The single accented letters, lower case then upper case then cedillas. */
  const AccentMap: Table :=
    LowerA + LowerE + LowerI + LowerO + LowerU + UpperA + UpperE + UpperI + UpperO + UpperU + Cedillas

  /** The mis-decoded sequences, all two characters long. */
  const MojibakeMap: Table := MojibakeVowels + MojibakeMore + MojibakeLast + MojibakeSymbols

  /** The table in the order of its dictionary literal. */
  const AsciiMapAsWritten: Table :=
    AccentMap + (MojibakeVowels + MojibakeMore + MojibakeLast) + ReplacementChar + MojibakeSymbols

  /** The table corrected: every two-character sequence ahead of the single letters, so that each can apply. */
  const AsciiMap: Table := MojibakeMap + AccentMap + ReplacementChar

  // ---------------------------------------------------------------------------
  // convert_to_ascii_safe
  // ---------------------------------------------------------------------------

  /** A name converted with table `t`: stripped, mapped, marks dropped, non-ASCII dropped, re-spaced; NaN gives "". */
  function ConvertWith(c: Cell, t: Table): string {
    match c
    case NA => ""
    case Val(text) => Squeeze(KeepAscii(StripMarks(ReplaceAll(Strip(text), t))))
  }

  /** `convert_to_ascii_safe`: the table applied in the order of its dictionary literal. */
  function AsciiSafe(c: Cell): string {
    ConvertWith(c, AsciiMapAsWritten)
  }

  /** The conversion with the table in the corrected order. */
  function AsciiSafeRepaired(c: Cell): string {
    ConvertWith(c, AsciiMap)
  }

  /** The table loop rebinds the text once per entry; the three clean-ups after it are single passes. */
  method ConvertToAsciiSafe(c: Cell) returns (text: string)
    ensures text == AsciiSafe(c)
  {
    if c.NA? {
      return "";
    }
    var s := Strip(c.text);
    text := s;
    for i := 0 to |AsciiMapAsWritten|
      invariant text == ReplaceAll(s, AsciiMapAsWritten[..i])
    {
      ReplaceAllSnoc(s, AsciiMapAsWritten, i);
      text := Replace(text, AsciiMapAsWritten[i].0, AsciiMapAsWritten[i].1);
    }
    assert AsciiMapAsWritten[..|AsciiMapAsWritten|] == AsciiMapAsWritten;
    text := StripMarks(text);
    text := KeepAscii(text);
    text := Squeeze(text);
  }

  /** Squeezing ASCII text keeps it ASCII. */
  lemma SqueezeAscii(s: string)
    requires IsAscii(s)
    ensures IsAscii(Squeeze(s))
  {
    SqueezeChars(s);
    forall i | 0 <= i < |Squeeze(s)| ensures IsAsciiChar(Squeeze(s)[i]) {
      var c := Squeeze(s)[i];
      assert c in Squeeze(s);
      if c != ' ' {
        var j :| 0 <= j < |s| && s[j] == c;
      }
    }
  }

  /** Whatever the table, a converted name is ASCII, trimmed and single-spaced. */
  lemma ConvertWithSpec(c: Cell, t: Table)
    ensures IsAscii(ConvertWith(c, t)) && Normalized(ConvertWith(c, t))
    ensures c.NA? ==> ConvertWith(c, t) == ""
  {
    if c.Val? {
      var k := KeepAscii(StripMarks(ReplaceAll(Strip(c.text), t)));
      SqueezeAscii(k);
      SqueezeNormalized(k);
    }
  }

  // ---------------------------------------------------------------------------
  // What the table's entries are
  // ---------------------------------------------------------------------------

  /** Every key of `t` starts with a non-ASCII character. */
  predicate KeysNonAscii(t: Table) {
    forall i | 0 <= i < |t| :: !IsAsciiChar(t[i].0[0])
  }

  lemma KeysNonAsciiAppend(a: Table, b: Table)
    requires KeysNonAscii(a) && KeysNonAscii(b)
    ensures KeysNonAscii(a + b)
  {
    forall i | 0 <= i < |a + b| ensures !IsAsciiChar((a + b)[i].0[0]) {
      if i >= |a| {
        assert (a + b)[i] == b[i - |a|];
      }
    }
  }

  lemma AccentMapKeysNonAscii()
    ensures KeysNonAscii(AccentMap)
  {
    assert KeysNonAscii(LowerA) && KeysNonAscii(LowerE) && KeysNonAscii(LowerI);
    assert KeysNonAscii(LowerO) && KeysNonAscii(LowerU) && KeysNonAscii(UpperA);
    assert KeysNonAscii(UpperE) && KeysNonAscii(UpperI) && KeysNonAscii(UpperO);
    assert KeysNonAscii(UpperU) && KeysNonAscii(Cedillas);
    KeysNonAsciiAppend(LowerA, LowerE);
    KeysNonAsciiAppend(LowerA + LowerE, LowerI);
    KeysNonAsciiAppend(LowerA + LowerE + LowerI, LowerO);
    KeysNonAsciiAppend(LowerA + LowerE + LowerI + LowerO, LowerU);
    KeysNonAsciiAppend(LowerA + LowerE + LowerI + LowerO + LowerU, UpperA);
    KeysNonAsciiAppend(LowerA + LowerE + LowerI + LowerO + LowerU + UpperA, UpperE);
    KeysNonAsciiAppend(LowerA + LowerE + LowerI + LowerO + LowerU + UpperA + UpperE, UpperI);
    KeysNonAsciiAppend(LowerA + LowerE + LowerI + LowerO + LowerU + UpperA + UpperE + UpperI, UpperO);
    KeysNonAsciiAppend(LowerA + LowerE + LowerI + LowerO + LowerU + UpperA + UpperE + UpperI + UpperO, UpperU);
    KeysNonAsciiAppend(LowerA + LowerE + LowerI + LowerO + LowerU + UpperA + UpperE + UpperI + UpperO + UpperU, Cedillas);
  }

  lemma MojibakeMapKeysNonAscii()
    ensures KeysNonAscii(MojibakeMap)
  {
    assert KeysNonAscii(MojibakeVowels) && KeysNonAscii(MojibakeMore);
    assert KeysNonAscii(MojibakeLast) && KeysNonAscii(MojibakeSymbols);
    KeysNonAsciiAppend(MojibakeVowels, MojibakeMore);
    KeysNonAsciiAppend(MojibakeVowels + MojibakeMore, MojibakeLast);
    KeysNonAsciiAppend(MojibakeVowels + MojibakeMore + MojibakeLast, MojibakeSymbols);
  }

  /** In either order, every key of the table contains a non-ASCII character: its first. */
  lemma AsciiMapKeysNonAscii()
    ensures KeysNonAscii(AsciiMapAsWritten)
    ensures KeysNonAscii(AsciiMap)
  {
    AccentMapKeysNonAscii();
    MojibakeMapKeysNonAscii();
    assert KeysNonAscii(ReplacementChar);
    KeysNonAsciiAppend(MojibakeMap, AccentMap);
    KeysNonAsciiAppend(MojibakeMap + AccentMap, ReplacementChar);
    assert KeysNonAscii(MojibakeVowels + MojibakeMore + MojibakeLast) by {
      KeysNonAsciiAppend(MojibakeVowels, MojibakeMore);
      KeysNonAsciiAppend(MojibakeVowels + MojibakeMore, MojibakeLast);
    }
    KeysNonAsciiAppend(AccentMap, MojibakeVowels + MojibakeMore + MojibakeLast);
    KeysNonAsciiAppend(AccentMap + (MojibakeVowels + MojibakeMore + MojibakeLast), ReplacementChar);
    KeysNonAsciiAppend(AccentMap + (MojibakeVowels + MojibakeMore + MojibakeLast) + ReplacementChar, MojibakeSymbols);
  }

  /** ASCII text passes unchanged through a table whose keys start with non-ASCII characters. */
  lemma AsciiUntouched(s: string, t: Table)
    requires IsAscii(s) && KeysNonAscii(t)
    ensures ReplaceAll(s, t) == s
  {
    forall i | 0 <= i < |t| ensures t[i].0[0] !in s {
    }
    ReplaceAllUntouched(s, t);
  }

  /** ASCII characters are unaccented. */
  lemma AsciiUnaccented(s: string)
    requires IsAscii(s)
    ensures forall i | 0 <= i < |s| :: IsUnaccented(s[i])
  {
    forall i | 0 <= i < |s| ensures IsUnaccented(s[i]) {
      assert IsAsciiChar(s[i]);
    }
  }

  /** Through a table whose keys start with non-ASCII characters, an ASCII, trimmed, single-spaced name is its own conversion. */
  lemma ConvertOfAscii(s: string, t: Table)
    requires IsAscii(s) && Normalized(s) && KeysNonAscii(t)
    ensures ConvertWith(Val(s), t) == s
  {
    assert NoEdgeSpace(s) by {
      if |s| > 0 {
        assert SpaceFlanked(s, 0) && SpaceFlanked(s, |s| - 1);
      }
    }
    StripFixedPoints(s);
    AsciiUntouched(s, t);
    AsciiUnaccented(s);
    StripMarksOfUnaccented(s);
    KeepAsciiOfAscii(s);
    SqueezeOfNormalized(s);
  }

  /** An ASCII, trimmed, single-spaced name is its own conversion. */
  lemma AsciiSafeOfAscii(s: string)
    requires IsAscii(s) && Normalized(s)
    ensures AsciiSafe(Val(s)) == s
  {
    AsciiMapKeysNonAscii();
    ConvertOfAscii(s, AsciiMapAsWritten);
  }

  /** Converting twice is converting once. */
  lemma AsciiSafeIdempotent(c: Cell)
    ensures AsciiSafe(Val(AsciiSafe(c))) == AsciiSafe(c)
  {
    ConvertWithSpec(c, AsciiMapAsWritten);
    AsciiSafeOfAscii(AsciiSafe(c));
  }

  /** The corrected order keeps both guarantees: ASCII names are fixed points, and converting twice is converting once. */
  lemma AsciiSafeRepairedIdempotent(c: Cell)
    ensures AsciiSafeRepaired(Val(AsciiSafeRepaired(c))) == AsciiSafeRepaired(c)
  {
    ConvertWithSpec(c, AsciiMap);
    AsciiMapKeysNonAscii();
    ConvertOfAscii(AsciiSafeRepaired(c), AsciiMap);
  }

  /** A single accented letter is mapped to its base letter, keeping its case. */
  predicate BaseLetterEntries(t: Table) {
    forall i | 0 <= i < |t| ::
      |t[i].0| == 1 && |t[i].1| == 1 && BaseLetter(t[i].0[0]) == Some(t[i].1[0])
  }

  /** Each line of lower-case accented letters maps every letter to its unaccented letter. */
  lemma LowerEntriesAreBaseLetters()
    ensures BaseLetterEntries(LowerA) && BaseLetterEntries(LowerE) && BaseLetterEntries(LowerI)
  {
  }

  lemma LowerBackEntriesAreBaseLetters()
    ensures BaseLetterEntries(LowerO) && BaseLetterEntries(LowerU)
  {
  }

  /** Each line of upper-case accented letters maps every letter to its unaccented letter, and so do the cedillas. */
  lemma UpperEntriesAreBaseLetters()
    ensures BaseLetterEntries(UpperA) && BaseLetterEntries(UpperE) && BaseLetterEntries(UpperI)
    ensures BaseLetterEntries(UpperO) && BaseLetterEntries(UpperU) && BaseLetterEntries(Cedillas)
  {
  }

  // ---------------------------------------------------------------------------
  // Table order: 'á' read as Latin-1
  // ---------------------------------------------------------------------------

  /** A table applied as an untouched part, a part that makes `r`, and a part that leaves `r` alone. */
  lemma ConvertInSteps(s: string, r: string, pre: Table, mid: Table, post: Table)
    requires NoEdgeSpace(s)
    requires ReplaceAll(s, pre) == s && ReplaceAll(s, mid) == r && ReplaceAll(r, post) == r
    ensures ConvertWith(Val(s), pre + mid + post) == Squeeze(KeepAscii(StripMarks(r)))
  {
    StripFixedPoints(s);
    ReplaceAllAppend(s, pre, mid);
    ReplaceAllAppend(s, pre + mid, post);
  }

  /** The lower-case lines have no key starting with 'Ã' or '¡'. */
  lemma LowerLinesMissPair()
    ensures ReplaceAll("\U{C3}\U{A1}", LowerA + LowerE + LowerI + LowerO + LowerU) == "\U{C3}\U{A1}"
  {
    ReplaceAllUntouched("\U{C3}\U{A1}", LowerA + LowerE + LowerI + LowerO + LowerU);
  }

  /** The line of upper-case 'A's turns the 'Ã' of the pair into 'A'. */
  lemma UpperALineOnPair()
    ensures ReplaceAll("\U{C3}\U{A1}", UpperA) == "A\U{A1}"
  {
    var s := "\U{C3}\U{A1}";
    ReplaceAbsent(s, UpperA[0].0, "A", 0);
    ReplaceAbsent(s, UpperA[1].0, "A", 0);
    var r := "A\U{A1}";
    assert Replace(s, "\U{C3}", "A") == r;
    ReplaceAbsent(r, UpperA[3].0, "A", 0);
    ReplaceAbsent(r, UpperA[4].0, "A", 0);
    assert UpperA[1..][1..][1..][1..][1..] == [];
  }

  /** Everything after the line of upper-case 'A's leaves "A¡" alone. */
  lemma RestMissesHalfFixed(post: Table)
    requires post == UpperE + UpperI + UpperO + UpperU + Cedillas + (MojibakeVowels + MojibakeMore + MojibakeLast) + ReplacementChar + MojibakeSymbols
    ensures ReplaceAll("A\U{A1}", post) == "A\U{A1}"
  {
    ReplaceAllUntouched("A\U{A1}", post);
  }

  /** Marks, non-ASCII and spacing turn "A¡" into "A". */
  lemma HalfFixedFinish()
    ensures Squeeze(KeepAscii(StripMarks("A\U{A1}"))) == "A"
  {
    assert StripMarks("A\U{A1}") == "A\U{A1}";
    assert KeepAscii("A\U{A1}") == "A";
    SqueezeOfNormalized("A");
  }

  /** The as-written table around its line of upper-case 'A's. */
  lemma AsWrittenAroundUpperA(pre: Table, post: Table)
    requires pre == LowerA + LowerE + LowerI + LowerO + LowerU
    requires post == UpperE + UpperI + UpperO + UpperU + Cedillas + (MojibakeVowels + MojibakeMore + MojibakeLast) + ReplacementChar + MojibakeSymbols
    ensures AsciiMapAsWritten == pre + UpperA + post
  {
  }

  /**
    As written, the single letters come first, so the 'Ã' of 'á' read as
    Latin-1 is taken for an accented capital A, the '¡' is dropped as non-ASCII,
    and the name's 'á' becomes a capital "A"; the entry meant for the pair never
    applies.
  */
  lemma MojibakeLowerAAsWritten()
    ensures ConvertWith(Val("\U{C3}\U{A1}"), AsciiMapAsWritten) == "A"
  {
    var pre := LowerA + LowerE + LowerI + LowerO + LowerU;
    var post := UpperE + UpperI + UpperO + UpperU + Cedillas + (MojibakeVowels + MojibakeMore + MojibakeLast) + ReplacementChar + MojibakeSymbols;
    AsWrittenAroundUpperA(pre, post);
    LowerLinesMissPair();
    UpperALineOnPair();
    RestMissesHalfFixed(post);
    ConvertInSteps("\U{C3}\U{A1}", "A\U{A1}", pre, UpperA, post);
    HalfFixedFinish();
  }

  /** The first mis-decoded line turns the pair into "a". */
  lemma MojibakeVowelsOnPair()
    ensures ReplaceAll("\U{C3}\U{A1}", MojibakeVowels) == "a"
  {
    assert Replace("\U{C3}\U{A1}", "\U{C3}\U{A1}", "a") == "a";
    ReplaceAllUntouched("a", MojibakeVowels[1..]);
  }

  /** The corrected table after its first line. */
  lemma CorrectedAfterVowels(post: Table)
    requires post == MojibakeMore + MojibakeLast + MojibakeSymbols + AccentMap + ReplacementChar
    ensures AsciiMap == [] + MojibakeVowels + post
  {
    Regroup(MojibakeVowels, MojibakeMore, MojibakeLast, MojibakeSymbols, AccentMap, ReplacementChar);
  }

  lemma Regroup(a: Table, b: Table, c: Table, d: Table, e: Table, f: Table)
    ensures a + b + c + d + e + f == [] + a + (b + c + d + e + f)
  {
  }

  /** The corrected table after its first line leaves "a" alone. */
  lemma RestLeavesA(post: Table)
    requires post == MojibakeMore + MojibakeLast + MojibakeSymbols + AccentMap + ReplacementChar
    ensures ReplaceAll("a", post) == "a"
  {
    assert KeysNonAscii(MojibakeMore) && KeysNonAscii(MojibakeLast);
    assert KeysNonAscii(MojibakeSymbols) && KeysNonAscii(ReplacementChar);
    AccentMapKeysNonAscii();
    KeysNonAsciiAppend(MojibakeMore, MojibakeLast);
    KeysNonAsciiAppend(MojibakeMore + MojibakeLast, MojibakeSymbols);
    KeysNonAsciiAppend(MojibakeMore + MojibakeLast + MojibakeSymbols, AccentMap);
    KeysNonAsciiAppend(MojibakeMore + MojibakeLast + MojibakeSymbols + AccentMap, ReplacementChar);
    AsciiUntouched("a", post);
  }

  /** Marks, non-ASCII and spacing leave "a" alone. */
  lemma FixedFinish()
    ensures Squeeze(KeepAscii(StripMarks("a"))) == "a"
  {
    assert StripMarks("a") == "a" && KeepAscii("a") == "a";
    SqueezeOfNormalized("a");
  }

  /** With the two-character sequences first, 'á' read as Latin-1 becomes "a". */
  lemma MojibakeLowerARepaired()
    ensures AsciiSafeRepaired(Val("\U{C3}\U{A1}")) == "a"
  {
    var post := MojibakeMore + MojibakeLast + MojibakeSymbols + AccentMap + ReplacementChar;
    CorrectedAfterVowels(post);
    MojibakeVowelsOnPair();
    RestLeavesA(post);
    ConvertInSteps("\U{C3}\U{A1}", "a", [], MojibakeVowels, post);
    FixedFinish();
  }

  // ---------------------------------------------------------------------------
  // create_ascii_region_mapping
  // ---------------------------------------------------------------------------

  /** The converted names of the official list, in its order. */
  function ConvertedNames(official: seq<FinalRow>): (cs: seq<string>)
    ensures |cs| == |official|
  {
    AppendedSpec(official, (r: FinalRow) => AsciiSafe(Val(r.name)));
    Appended(official, (r: FinalRow) => AsciiSafe(Val(r.name)))
  }

  /** Position `j` of the converted names is the conversion of row `j`'s name. */
  lemma ConvertedNameAt(official: seq<FinalRow>, j: nat)
    requires j < |official|
    ensures ConvertedNames(official)[j] == AsciiSafe(Val(official[j].name))
  {
    AppendedSpec(official, (r: FinalRow) => AsciiSafe(Val(r.name)));
  }

  /** The code of the first official row whose converted name is `ascii`. */
  function MatchedCode(official: seq<FinalRow>, ascii: string): Option<string> {
    match FirstEqual(ascii, ConvertedNames(official))
    case Some(j) => Some(official[j].code)
    case None => None
  }

  /**
    A code is found exactly when some official name converts to `ascii`, and
    it is the code of the first such row.
  */
  lemma MatchedCodeSpec(official: seq<FinalRow>, ascii: string)
    ensures var cs := ConvertedNames(official);
      && (MatchedCode(official, ascii).None? <==> forall j | 0 <= j < |official| :: cs[j] != ascii)
      && (MatchedCode(official, ascii).Some? ==>
            exists j :: 0 <= j < |official| && cs[j] == ascii && MatchedCode(official, ascii).value == official[j].code
              && forall k | 0 <= k < j :: cs[k] != ascii)
  {
  }

  /** The search over the official list, stopping at the first row whose converted name matches. */
  method FindRegionCode(official: seq<FinalRow>, ascii: string) returns (code: Option<string>)
    ensures code == MatchedCode(official, ascii)
  {
    ghost var cs := ConvertedNames(official);
    code := None;
    var j := 0;
    while j < |official|
      invariant 0 <= j <= |official|
      invariant forall k | 0 <= k < j :: cs[k] != ascii
    {
      var converted := ConvertToAsciiSafe(Val(official[j].name));
      ConvertedNameAt(official, j);
      if converted == ascii {
        FirstEqualAt(ascii, cs, j);
        code := Some(official[j].code);
        return;
      }
      j := j + 1;
    }
  }

  /** `f"99{n:04d}"`: the code given to the `n`-th row when neither the name nor the position gives one. */
  function FallbackCode(n: nat): string {
    "99" + ZFill(IntToString(n), 4)
  }

  /** A fallback code is "99" followed by at least four digits that read back as the row number. */
  lemma FallbackCodeSpec(n: nat)
    ensures |FallbackCode(n)| >= 6 && FallbackCode(n)[..2] == "99"
    ensures ParseInt(FallbackCode(n)[2..]) == Some(n)
  {
    var d := NatToString(n);
    NatToStringRoundTrip(n);
    assert IsAsciiDigit(d[0]);
    assert FallbackCode(n)[2..] == ZFill(d, 4);
    if |d| < 4 {
      var z := seq(4 - |d|, _ => '0');
      assert ZFill(d, 4) == z + d;
      DigitsValueLeadingZeros(z, d);
      ParseIntOfDigits(z + d);
    } else {
      ParseIntOfDigits(d);
    }
  }

  /** Different rows get different fallback codes. */
  lemma FallbackCodeInjective(a: nat, b: nat)
    requires FallbackCode(a) == FallbackCode(b)
    ensures a == b
  {
    FallbackCodeSpec(a);
    FallbackCodeSpec(b);
  }

  /** A row of the complete mapping: code, stripped shapefile name, its ASCII form, and the name again as the UTF-8 reference. */
  datatype AsciiRow = AsciiRow(code: string, original: string, ascii: string, utf8: string)

  /**
    The row made for the `n`-th shapefile name: the code of the first official
    name converting to the same text; failing that (or when that code is
    empty), the code at the same position; failing that, a fallback code.
  */
  function AsciiRowOf(official: seq<FinalRow>, name: string, n: nat): AsciiRow {
    var original := Strip(name);
    var ascii := AsciiSafe(Val(original));
    var found := MatchedCode(official, ascii);
    var byName := if found.Some? then found.value else "";
    var code := if byName != "" then byName else if n < |official| then official[n].code else "";
    AsciiRow(if code != "" then code else FallbackCode(n), original, ascii, original)
  }

  /** The body of the loop over the shapefile's rows: the row for the `n`-th name, `n` rows having been made before it. */
  method AsciiRowFor(official: seq<FinalRow>, name: string, n: nat) returns (row: AsciiRow)
    ensures row == AsciiRowOf(official, name, n)
  {
    var original := Strip(name);
    var ascii := ConvertToAsciiSafe(Val(original));
    var found := FindRegionCode(official, ascii);
    var code := if found.Some? then found.value else "";
    if code == "" && n < |official| {
      code := official[n].code;
    }
    row := AsciiRow(if code != "" then code else FallbackCode(n), original, ascii, original);
  }

  /** The rows made for `names`, one per name in order. */
  function AsciiRows(official: seq<FinalRow>, names: seq<string>): (rows: seq<AsciiRow>)
    ensures |rows| == |names|
  {
    NumberedSpec(names, (name: string, n: nat) => AsciiRowOf(official, name, n));
    Numbered(names, (name: string, n: nat) => AsciiRowOf(official, name, n))
  }

  lemma AsciiRowsSpec(official: seq<FinalRow>, names: seq<string>)
    ensures forall n | 0 <= n < |names| :: AsciiRows(official, names)[n] == AsciiRowOf(official, names[n], n)
  {
    NumberedSpec(names, (name: string, n: nat) => AsciiRowOf(official, name, n));
  }

  /** The loop over the shapefile's rows, in order, one mapping row each. */
  method CreateAsciiRegionMapping(shapeNames: seq<string>, official: seq<FinalRow>) returns (rows: seq<AsciiRow>)
    ensures rows == AsciiRows(official, shapeNames)
  {
    rows := [];
    for n := 0 to |shapeNames|
      invariant |rows| == n
      invariant rows == AsciiRows(official, shapeNames[..n])
    {
      var row := AsciiRowFor(official, shapeNames[n], |rows|);
      assert shapeNames[..n + 1][..n] == shapeNames[..n];
      rows := rows + [row];
    }
    assert shapeNames[..|shapeNames|] == shapeNames;
  }

  /**
    Every row has a non-empty code, the stripped name, and an ASCII,
    single-spaced conversion of it; the code is chosen by name first, then by
    position, then as a fallback.
  */
  lemma AsciiRowSpec(official: seq<FinalRow>, name: string, n: nat)
    ensures var r := AsciiRowOf(official, name, n);
      && r.original == Strip(name) && r.utf8 == r.original && NoEdgeSpace(r.original)
      && r.ascii == AsciiSafe(Val(r.original)) && IsAscii(r.ascii) && Normalized(r.ascii)
      && r.code != ""
      && (MatchedCode(official, r.ascii).Some? && MatchedCode(official, r.ascii).value != "" ==>
            r.code == MatchedCode(official, r.ascii).value)
      && (MatchedCode(official, r.ascii) in {None, Some("")} ==>
            r.code == if n < |official| && official[n].code != "" then official[n].code else FallbackCode(n))
  {
    var r := AsciiRowOf(official, name, n);
    StripSpec(name);
    ConvertWithSpec(Val(r.original), AsciiMapAsWritten);
    FallbackCodeSpec(n);
  }

  // ---------------------------------------------------------------------------
  // create_ascii_region_files
  // ---------------------------------------------------------------------------

  /** The deployment file: the code and the ASCII name, renamed `nome_regiao`. */
  function AsciiRegionFile(rows: seq<AsciiRow>): (f: seq<FinalRow>)
    ensures |f| == |rows|
    ensures forall n | 0 <= n < |rows| :: f[n] == FinalRow(rows[n].code, rows[n].ascii)
  {
    seq(|rows|, n requires 0 <= n < |rows| => FinalRow(rows[n].code, rows[n].ascii))
  }

  /** The names of the file with a character above 127, in order. */
  function NonAsciiNames(f: seq<FinalRow>): seq<string> {
    if |f| == 0 then []
    else
      var k := |f| - 1;
      NonAsciiNames(f[..k]) + (if IsAscii(f[k].name) then [] else [f[k].name])
  }

  lemma {:induction false} NonAsciiNamesSpec(f: seq<FinalRow>)
    ensures forall x :: x in NonAsciiNames(f) <==> exists n :: 0 <= n < |f| && f[n].name == x && !IsAscii(x)
    decreases |f|
  {
    if |f| > 0 {
      var k := |f| - 1;
      NonAsciiNamesSpec(f[..k]);
      forall x ensures x in NonAsciiNames(f) <==> exists n :: 0 <= n < |f| && f[n].name == x && !IsAscii(x) {
        if exists n :: 0 <= n < |f| && f[n].name == x && !IsAscii(x) {
          var n :| 0 <= n < |f| && f[n].name == x && !IsAscii(x);
          if n < k {
            assert f[..k][n].name == x;
          }
        }
        if x in NonAsciiNames(f[..k]) {
          var n :| 0 <= n < k && f[..k][n].name == x && !IsAscii(x);
          assert f[n].name == x;
        }
      }
    }
  }

  /** The check for problematic names, a loop collecting every name with a character above 127. */
  method ProblematicRegions(f: seq<FinalRow>) returns (names: seq<string>)
    ensures names == NonAsciiNames(f)
  {
    names := [];
    for n := 0 to |f|
      invariant names == NonAsciiNames(f[..n])
    {
      assert f[..n + 1][..n] == f[..n];
      if !IsAscii(f[n].name) {
        names := names + [f[n].name];
      }
    }
    assert f[..|f|] == f;
  }

  /** The file made from the mapping has no problematic names: the warning is never printed. */
  lemma AsciiRegionFileIsSafe(shapeNames: seq<string>, official: seq<FinalRow>)
    ensures NonAsciiNames(AsciiRegionFile(AsciiRows(official, shapeNames))) == []
  {
    var rows := AsciiRows(official, shapeNames);
    AsciiRowsSpec(official, shapeNames);
    var f := AsciiRegionFile(rows);
    NonAsciiNamesSpec(f);
    if NonAsciiNames(f) != [] {
      var x := NonAsciiNames(f)[0];
      assert x in NonAsciiNames(f);
      var n :| 0 <= n < |f| && f[n].name == x && !IsAscii(x);
      AsciiRowSpec(official, shapeNames[n], n);
      assert false;
    }
  }

  // ---------------------------------------------------------------------------
  // update_shapefile_with_ascii_names
  // ---------------------------------------------------------------------------

  /** A shapefile row after renaming: the new name and the original kept beside it. */
  datatype RenamedRegion = RenamedRegion(name: string, original: string)

  function Originals(rows: seq<AsciiRow>): (ks: seq<string>)
    ensures |ks| == |rows| && forall n | 0 <= n < |rows| :: ks[n] == rows[n].original
  {
    seq(|rows|, n requires 0 <= n < |rows| => rows[n].original)
  }

  function Asciis(rows: seq<AsciiRow>): (vs: seq<string>)
    ensures |vs| == |rows| && forall n | 0 <= n < |rows| :: vs[n] == rows[n].ascii
  {
    seq(|rows|, n requires 0 <= n < |rows| => rows[n].ascii)
  }

  /**
    `map(name_mapping).fillna(...)`: a name with an entry takes it; a name
    without one, or whose entry is empty (read back from the file as NaN),
    keeps its value.
  */
  function Renamed(names: seq<string>, m: map<string, string>): (r: seq<RenamedRegion>)
    ensures |r| == |names|
  {
    seq(|names|, i requires 0 <= i < |names| =>
      RenamedRegion(if names[i] in m && m[names[i]] != "" then m[names[i]] else names[i], names[i]))
  }

  /** The dictionary is filled row by row from the mapping file, then applied to the shapefile's names. */
  method UpdateShapefileWithAsciiNames(shapeNames: seq<string>, rows: seq<AsciiRow>) returns (renamed: seq<RenamedRegion>)
    ensures renamed == Renamed(shapeNames, IndexMap(Originals(rows), Asciis(rows)))
  {
    var nameMapping := BuildIndex(Originals(rows), Asciis(rows));
    renamed := Renamed(shapeNames, nameMapping);
  }

  /**
    Renaming with the mapping built from the same names: a name without
    whitespace at its ends becomes its ASCII form unless that is empty, and a
    name with whitespace at an end matches no stripped key and is kept. The
    original is kept beside it either way.
  */
  lemma RenamedSpec(shapeNames: seq<string>, official: seq<FinalRow>, i: nat)
    requires i < |shapeNames|
    ensures var rows := AsciiRows(official, shapeNames);
      var r := Renamed(shapeNames, IndexMap(Originals(rows), Asciis(rows)))[i];
      var s := shapeNames[i];
      && r.original == s
      && (NoEdgeSpace(s) ==> r.name == if AsciiSafe(Val(s)) != "" then AsciiSafe(Val(s)) else s)
      && (!NoEdgeSpace(s) ==> r.name == s)
  {
    var rows := AsciiRows(official, shapeNames);
    AsciiRowsSpec(official, shapeNames);
    var ks, vs := Originals(rows), Asciis(rows);
    var s := shapeNames[i];
    IndexMapSpec(ks, vs);
    var lv := LastValue(ks, vs, s);
    if lv.Some? {
      var k :| IsLast(ks, s, k) && vs[k] == lv.value;
      AsciiRowSpec(official, shapeNames[k], k);
      assert lv.value == AsciiSafe(Val(s));
      assert NoEdgeSpace(s);
    }
    if NoEdgeSpace(s) {
      AsciiRowSpec(official, s, i);
      StripFixedPoints(s);
      assert ks[i] == s;
    }
  }
}
