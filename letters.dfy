/**
  Character-level Unicode handling of the scripts: `str.lower`, the
  NFD-and-drop-combining-marks idiom, and keeping only ASCII.

  The case mapping and the canonical decompositions are given for Latin-1 and
  the combining diacritical marks block U+0300..U+036F, the alphabet of
  Brazilian region names; every other character is its own lower case and has
  no decomposition.
*/
module Letters {
  import opened Wrappers

  /** `str.lower` on one character. */
  function LowerChar(c: char): char {
    if 'A' <= c <= 'Z' || ('\U{C0}' <= c <= '\U{DE}' && c != '\U{D7}')
    then (c as int + 32) as char
    else c
  }

  function Lower(s: string): (r: string)
    ensures |r| == |s| && forall i | 0 <= i < |s| :: r[i] == LowerChar(s[i])
  {
    seq(|s|, i requires 0 <= i < |s| => LowerChar(s[i]))
  }

  predicate IsLowerCase(s: string) {
    forall i | 0 <= i < |s| :: LowerChar(s[i]) == s[i]
  }

  lemma LowerCharIdempotent(c: char)
    ensures LowerChar(LowerChar(c)) == LowerChar(c)
  {
  }

  /** Lower-casing keeps letters unaccented. */
  lemma LowerCharUnaccented(c: char)
    requires IsUnaccented(c)
    ensures IsUnaccented(LowerChar(c))
  {
  }

  /** Text already in lower case is its own lower case. */
  lemma LowerOfLowerCase(s: string)
    requires IsLowerCase(s)
    ensures Lower(s) == s
  {
  }

  /** Unicode category Mn within the combining diacritical marks block. */
  predicate IsCombiningMark(c: char) {
    '\U{300}' <= c <= '\U{36F}'
  }

  /** The base letter of a Latin-1 letter whose NFD form is base + combining mark. */
  function BaseLetter(c: char): Option<char> {
    if '\U{C0}' <= c <= '\U{C5}' then Some('A')
    else if c == '\U{C7}' then Some('C')
    else if '\U{C8}' <= c <= '\U{CB}' then Some('E')
    else if '\U{CC}' <= c <= '\U{CF}' then Some('I')
    else if c == '\U{D1}' then Some('N')
    else if '\U{D2}' <= c <= '\U{D6}' then Some('O')
    else if '\U{D9}' <= c <= '\U{DC}' then Some('U')
    else if c == '\U{DD}' then Some('Y')
    else if '\U{E0}' <= c <= '\U{E5}' then Some('a')
    else if c == '\U{E7}' then Some('c')
    else if '\U{E8}' <= c <= '\U{EB}' then Some('e')
    else if '\U{EC}' <= c <= '\U{EF}' then Some('i')
    else if c == '\U{F1}' then Some('n')
    else if '\U{F2}' <= c <= '\U{F6}' then Some('o')
    else if '\U{F9}' <= c <= '\U{FC}' then Some('u')
    else if c == '\U{FD}' || c == '\U{FF}' then Some('y')
    else None
  }

  /** Neither a combining mark nor a letter that decomposes into one. */
  predicate IsUnaccented(c: char) {
    !IsCombiningMark(c) && BaseLetter(c).None?
  }

  /**
    `''.join(ch for ch in unicodedata.normalize('NFD', s) if unicodedata.category(ch) != 'Mn')`:
    decomposable letters become their base letter and combining marks disappear.
  */
  function StripMarks(s: string): (r: string)
    ensures forall i | 0 <= i < |r| :: IsUnaccented(r[i])
    ensures |r| <= |s|
  {
    if |s| == 0 then ""
    else
      var c := s[0];
      if IsCombiningMark(c) then StripMarks(s[1..])
      else [BaseLetter(c).GetOr(c)] + StripMarks(s[1..])
  }

  /** Text without accents is left alone. */
  lemma {:induction false} StripMarksOfUnaccented(s: string)
    requires forall i | 0 <= i < |s| :: IsUnaccented(s[i])
    ensures StripMarks(s) == s
  {
    if |s| > 0 {
      StripMarksOfUnaccented(s[1..]);
    }
  }

  /** `str.lower` gives lower-case text. */
  lemma LowerIsLowerCase(s: string)
    ensures IsLowerCase(Lower(s))
  {
    forall i | 0 <= i < |s| ensures LowerChar(Lower(s)[i]) == Lower(s)[i] {
      LowerCharIdempotent(s[i]);
    }
  }

  /** Dropping the marks of lower-case text leaves it lower-case: lower-case letters have lower-case bases. */
  lemma {:induction false} StripMarksLowerCase(s: string)
    requires IsLowerCase(s)
    ensures IsLowerCase(StripMarks(s))
  {
    if |s| > 0 {
      assert LowerChar(s[0]) == s[0];
      StripMarksLowerCase(s[1..]);
      var r := StripMarks(s[1..]);
      if !IsCombiningMark(s[0]) {
        var c := BaseLetter(s[0]).GetOr(s[0]);
        assert LowerChar(c) == c;
        forall i | 0 <= i < |[c] + r| ensures LowerChar(([c] + r)[i]) == ([c] + r)[i] {
          if i > 0 {
            assert ([c] + r)[i] == r[i - 1];
          }
        }
      }
    }
  }

  // ---------------------------------------------------------------------------
  // ASCII
  // ---------------------------------------------------------------------------

  predicate IsAsciiChar(c: char) {
    (c as int) < 128
  }

  predicate IsAscii(s: string) {
    forall i | 0 <= i < |s| :: IsAsciiChar(s[i])
  }

  /** `''.join(ch if ord(ch) < 128 else '' for ch in s)`. */
  function KeepAscii(s: string): (r: string)
    ensures IsAscii(r)
    ensures |r| <= |s|
  {
    if |s| == 0 then ""
    else if IsAsciiChar(s[0]) then [s[0]] + KeepAscii(s[1..])
    else KeepAscii(s[1..])
  }

  lemma {:induction false} KeepAsciiOfAscii(s: string)
    requires IsAscii(s)
    ensures KeepAscii(s) == s
  {
    if |s| > 0 {
      KeepAsciiOfAscii(s[1..]);
    }
  }
}
