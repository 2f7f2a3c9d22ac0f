/** Python's `in` substring test and `str.replace`, alone and chained through a table. */
module Substrings {

  /** Python `needle in hay`. */
  predicate Contains(hay: string, needle: string)
    decreases |hay|
  {
    if |needle| > |hay| then false
    else if hay[..|needle|] == needle then true
    else |hay| > 0 && Contains(hay[1..], needle)
  }

  /** `needle` occurs in `hay` at offset `i`. */
  predicate OccursAt(hay: string, needle: string, i: int) {
    0 <= i && i + |needle| <= |hay| && hay[i..i + |needle|] == needle
  }

  /** `Contains` is the substring relation: `needle` occurs at some offset of `hay`. */
  lemma {:induction false} ContainsIsSubstring(hay: string, needle: string)
    ensures Contains(hay, needle) <==> exists i :: OccursAt(hay, needle, i)
    decreases |hay|
  {
    if |needle| <= |hay| && hay[..|needle|] != needle && |hay| > 0 {
      ContainsIsSubstring(hay[1..], needle);
      if exists i :: OccursAt(hay, needle, i) {
        var i :| OccursAt(hay, needle, i);
        assert i > 0;
        assert OccursAt(hay[1..], needle, i - 1);
      }
      if exists i :: OccursAt(hay[1..], needle, i) {
        var i :| OccursAt(hay[1..], needle, i);
        assert hay[1..][i..i + |needle|] == hay[i + 1..i + 1 + |needle|];
        assert OccursAt(hay, needle, i + 1);
      }
    } else if |needle| <= |hay| && hay[..|needle|] == needle {
      assert OccursAt(hay, needle, 0);
    }
  }

  /** Python `s.replace(pat, rep)`: non-overlapping occurrences, scanned left to right. */
  function Replace(s: string, pat: string, rep: string): string
    requires |pat| > 0
    decreases |s|
  {
    if |s| < |pat| then s
    else if s[..|pat|] == pat then rep + Replace(s[|pat|..], pat, rep)
    else [s[0]] + Replace(s[1..], pat, rep)
  }

  /** Every character of the result comes from the subject or from the replacement. */
  lemma {:induction false} ReplaceChars(s: string, pat: string, rep: string)
    requires |pat| > 0
    ensures forall c | c in Replace(s, pat, rep) :: c in s || c in rep
    decreases |s|
  {
    if |s| >= |pat| {
      if s[..|pat|] == pat {
        ReplaceChars(s[|pat|..], pat, rep);
        assert forall c | c in s[|pat|..] :: c in s;
      } else {
        ReplaceChars(s[1..], pat, rep);
        assert forall c | c in s[1..] :: c in s;
      }
    }
  }

  /** Replacing a single character by text without it removes every occurrence of it. */
  lemma {:induction false} ReplaceRemoves(s: string, c: char, rep: string)
    requires c !in rep
    ensures c !in Replace(s, [c], rep)
    decreases |s|
  {
    if |s| >= 1 {
      if s[..1] == [c] {
        ReplaceRemoves(s[1..], c, rep);
      } else {
        assert s[0] != c;
        ReplaceRemoves(s[1..], c, rep);
      }
    }
  }

  /** A pattern one of whose characters does not occur in `s` leaves `s` unchanged. */
  lemma {:induction false} ReplaceAbsent(s: string, pat: string, rep: string, k: nat)
    requires |pat| > 0 && k < |pat| && pat[k] !in s
    ensures Replace(s, pat, rep) == s
    decreases |s|
  {
    if |s| >= |pat| {
      assert s[..|pat|] != pat;
      assert pat[k] !in s[1..];
      ReplaceAbsent(s[1..], pat, rep, k);
    }
  }

  /** A text to look for: `str.replace` with an empty pattern is never used. */
  type Pattern = s: string | |s| > 0 witness "?"

  /** A replacement table, applied entry after entry in its order. */
  type Table = seq<(Pattern, string)>

  function ReplaceAll(s: string, t: Table): string
    decreases |t|
  {
    if |t| == 0 then s else ReplaceAll(Replace(s, t[0].0, t[0].1), t[1..])
  }

  /** Applying the first `i + 1` entries is applying the first `i` and then entry `i`: the loop over the table. */
  lemma {:induction false} ReplaceAllSnoc(s: string, t: Table, i: nat)
    requires i < |t|
    ensures ReplaceAll(s, t[..i + 1]) == Replace(ReplaceAll(s, t[..i]), t[i].0, t[i].1)
    decreases i
  {
    if i > 0 {
      var s' := Replace(s, t[0].0, t[0].1);
      assert t[..i + 1][1..] == t[1..][..i] && t[..i][1..] == t[1..][..i - 1];
      assert t[1..][i - 1] == t[i];
      ReplaceAllSnoc(s', t[1..], i - 1);
    }
  }

  /** A table split in two is applied as its first part and then its second. */
  lemma {:induction false} ReplaceAllAppend(s: string, a: Table, b: Table)
    ensures ReplaceAll(s, a + b) == ReplaceAll(ReplaceAll(s, a), b)
    decreases |a|
  {
    if |a| > 0 {
      assert (a + b)[1..] == a[1..] + b;
      ReplaceAllAppend(Replace(s, a[0].0, a[0].1), a[1..], b);
    } else {
      assert a + b == b;
    }
  }

  /** Every key of `t` starts with a character that does not occur in `s`. */
  predicate KeysStartOutside(t: Table, s: string) {
    forall i | 0 <= i < |t| :: t[i].0[0] !in s
  }

  /** Text that no key can start in passes through the table unchanged. */
  lemma ReplaceAllUntouched(s: string, t: Table)
    requires KeysStartOutside(t, s)
    ensures ReplaceAll(s, t) == s
  {
    forall i | 0 <= i < |t| ensures MissesChar(t[i].0, s) {
      assert t[i].0[0] !in s;
    }
    ReplaceAllAbsent(s, t);
  }

  /** All replacement texts of a table, one after the other. */
  function Replacements(t: Table): string
    decreases |t|
  {
    if |t| == 0 then "" else t[0].1 + Replacements(t[1..])
  }

  lemma {:induction false} ReplaceAllChars(s: string, t: Table)
    ensures forall c | c in ReplaceAll(s, t) :: c in s || c in Replacements(t)
    decreases |t|
  {
    if |t| > 0 {
      ReplaceChars(s, t[0].0, t[0].1);
      ReplaceAllChars(Replace(s, t[0].0, t[0].1), t[1..]);
    }
  }

  /** Some character of `key` does not occur in `s`, so `key` cannot occur in `s`. */
  predicate MissesChar(key: string, s: string) {
    exists k :: 0 <= k < |key| && key[k] !in s
  }

  /** Text in which every table key misses a character passes through the table unchanged. */
  lemma {:induction false} ReplaceAllAbsent(s: string, t: Table)
    requires forall i | 0 <= i < |t| :: MissesChar(t[i].0, s)
    ensures ReplaceAll(s, t) == s
    decreases |t|
  {
    if |t| > 0 {
      assert MissesChar(t[0].0, s);
      var k :| 0 <= k < |t[0].0| && t[0].0[k] !in s;
      assert forall i | 0 <= i < |t[1..]| :: t[1..][i] == t[i + 1];
      ReplaceAbsent(s, t[0].0, t[0].1, k);
      ReplaceAllAbsent(s, t[1..]);
    }
  }
}
