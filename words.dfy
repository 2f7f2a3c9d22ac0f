/**
  Python's whitespace handling as the data-preparation scripts use it:
  `str.strip`, `str.split()` with no separator, and the `' '.join(s.split())`
  idiom that collapses runs of whitespace into single spaces.
*/
module Words {

  /** Exactly the characters for which Python's `str.isspace()` holds. */
  predicate IsSpace(c: char) {
    || ('\t' <= c <= '\r')
    || ('\U{1C}' <= c <= '\U{1F}')
    || c == ' '
    || c == '\U{85}'
    || c == '\U{A0}'
    || c == '\U{1680}'
    || ('\U{2000}' <= c <= '\U{200A}')
    || c == '\U{2028}'
    || c == '\U{2029}'
    || c == '\U{202F}'
    || c == '\U{205F}'
    || c == '\U{3000}'
  }

  // ---------------------------------------------------------------------------
  // str.strip
  // ---------------------------------------------------------------------------

  /** Python `s.lstrip()`. */
  function LStrip(s: string): string {
    if |s| > 0 && IsSpace(s[0]) then LStrip(s[1..]) else s
  }

  /** Python `s.rstrip()`. */
  function RStrip(s: string): string {
    if |s| > 0 && IsSpace(s[|s| - 1]) then RStrip(s[..|s| - 1]) else s
  }

  /** Python `s.strip()`. */
  function Strip(s: string): string {
    RStrip(LStrip(s))
  }

  /** `lstrip` removes the leading whitespace and nothing else. */
  lemma {:induction false} LStripSpec(s: string)
    ensures var r := LStrip(s);
      && |r| <= |s| && r == s[|s| - |r|..]
      && (r == [] || !IsSpace(r[0]))
      && forall i | 0 <= i < |s| - |r| :: IsSpace(s[i])
    decreases |s|
  {
    if |s| > 0 && IsSpace(s[0]) {
      LStripSpec(s[1..]);
    }
  }

  /** `rstrip` removes the trailing whitespace and nothing else. */
  lemma {:induction false} RStripSpec(s: string)
    ensures var r := RStrip(s);
      && |r| <= |s| && r == s[..|r|]
      && (r == [] || !IsSpace(r[|r| - 1]))
      && forall i | |r| <= i < |s| :: IsSpace(s[i])
    decreases |s|
  {
    if |s| > 0 && IsSpace(s[|s| - 1]) {
      RStripSpec(s[..|s| - 1]);
    }
  }

  /** `strip` returns the longest infix with no whitespace at either end: everything it cuts off is whitespace. */
  lemma StripSpec(s: string)
    ensures NoEdgeSpace(Strip(s))
    ensures var r, l := Strip(s), LStrip(s);
      var i := |s| - |l|;
      && 0 <= i && i + |r| <= |s|
      && r == s[i..i + |r|]
      && (forall k | 0 <= k < i :: IsSpace(s[k]))
      && (forall k | i + |r| <= k < |s| :: IsSpace(s[k]))
  {
    var l := LStrip(s);
    LStripSpec(s);
    RStripSpec(l);
    var r := RStrip(l);
    assert r == s[|s| - |l|..][..|r|];
    assert r == s[|s| - |l|..|s| - |l| + |r|];
    forall k | |s| - |l| + |r| <= k < |s| ensures IsSpace(s[k]) {
      assert s[k] == l[k - (|s| - |l|)];
    }
  }

  /** No whitespace at either end: what `strip` returns. */
  predicate NoEdgeSpace(s: string) {
    s == [] || (!IsSpace(s[0]) && !IsSpace(s[|s| - 1]))
  }

  /** `strip` is the identity exactly on text without whitespace at its ends. */
  lemma StripFixedPoints(s: string)
    ensures Strip(s) == s <==> NoEdgeSpace(s)
  {
    StripSpec(s);
    if NoEdgeSpace(s) {
      assert LStrip(s) == s;
      assert RStrip(s) == s;
    }
  }

  // ---------------------------------------------------------------------------
  // str.split() and ' '.join(...)
  // ---------------------------------------------------------------------------

  predicate NoSpace(w: string) {
    forall i | 0 <= i < |w| :: !IsSpace(w[i])
  }

  /** A token produced by `str.split()`: non-empty and without whitespace. */
  predicate IsWord(w: string) {
    |w| > 0 && NoSpace(w)
  }

  /** The longest prefix of `s` without whitespace. */
  function Word(s: string): (w: string)
    ensures |w| <= |s| && w == s[..|w|]
    ensures NoSpace(w)
    ensures |w| == |s| || IsSpace(s[|w|])
  {
    if |s| == 0 || IsSpace(s[0]) then [] else [s[0]] + Word(s[1..])
  }

  /** Python `s.split()` with no separator: the maximal runs of non-whitespace. */
  function Split(s: string): seq<string>
    decreases |s|
  {
    if |s| == 0 then []
    else if IsSpace(s[0]) then Split(s[1..])
    else
      var w := Word(s);
      [w] + Split(s[|w|..])
  }

  predicate AllWords(ws: seq<string>) {
    forall k | 0 <= k < |ws| :: IsWord(ws[k])
  }

  lemma ConsWords(w: string, ws: seq<string>)
    requires IsWord(w) && AllWords(ws)
    ensures AllWords([w] + ws)
  {
    var r := [w] + ws;
    forall k | 0 <= k < |r| ensures IsWord(r[k]) {
      if k > 0 {
        assert r[k] == ws[k - 1];
      }
    }
  }

  /** Every token of `s.split()` is non-empty and free of whitespace. */
  lemma {:induction false} SplitWords(s: string)
    ensures AllWords(Split(s))
    decreases |s|
  {
    if |s| > 0 {
      if IsSpace(s[0]) {
        SplitWords(s[1..]);
      } else {
        var w := Word(s);
        SplitWords(s[|w|..]);
        ConsWords(w, Split(s[|w|..]));
      }
    }
  }

  /** Every character of `w` is a non-whitespace character of `s`. */
  predicate CharsFrom(w: string, s: string) {
    forall c | c in w :: c in s && !IsSpace(c)
  }

  predicate AllCharsFrom(ws: seq<string>, s: string) {
    forall k | 0 <= k < |ws| :: CharsFrom(ws[k], s)
  }

  lemma AllCharsFromSuffix(ws: seq<string>, s: string, n: nat)
    requires n <= |s| && AllCharsFrom(ws, s[n..])
    ensures AllCharsFrom(ws, s)
  {
    forall k | 0 <= k < |ws| ensures CharsFrom(ws[k], s) {
      assert CharsFrom(ws[k], s[n..]);
      forall c | c in ws[k] ensures c in s {
        var j :| 0 <= j < |s[n..]| && s[n..][j] == c;
        assert s[n + j] == c;
      }
    }
  }

  lemma ConsCharsFrom(w: string, ws: seq<string>, s: string)
    requires CharsFrom(w, s) && AllCharsFrom(ws, s)
    ensures AllCharsFrom([w] + ws, s)
  {
    var r := [w] + ws;
    forall k | 0 <= k < |r| ensures CharsFrom(r[k], s) {
      if k > 0 {
        assert r[k] == ws[k - 1];
      }
    }
  }

  /** Every token of `s.split()` is made of non-whitespace characters of `s`. */
  lemma {:induction false} SplitChars(s: string)
    ensures AllCharsFrom(Split(s), s)
    decreases |s|
  {
    if |s| > 0 {
      if IsSpace(s[0]) {
        SplitChars(s[1..]);
        AllCharsFromSuffix(Split(s[1..]), s, 1);
      } else {
        var w := Word(s);
        SplitChars(s[|w|..]);
        AllCharsFromSuffix(Split(s[|w|..]), s, |w|);
        forall c | c in w ensures c in s && !IsSpace(c) {
          var j :| 0 <= j < |w| && w[j] == c;
          assert s[j] == c;
        }
        ConsCharsFrom(w, Split(s[|w|..]), s);
      }
    }
  }

  /** Python `' '.join(ws)`. */
  function Join(ws: seq<string>): string {
    if |ws| == 0 then ""
    else if |ws| == 1 then ws[0]
    else ws[0] + " " + Join(ws[1..])
  }

  /** The idiom `' '.join(s.split())`. */
  function Squeeze(s: string): string {
    Join(Split(s))
  }

  /**
    Trimmed and single-spaced: every whitespace character is a plain space with
    a non-whitespace character on each side.
  */
  predicate Normalized(s: string) {
    forall i | 0 <= i < |s| :: SpaceFlanked(s, i)
  }

  /** Position `i` of `s` is not whitespace, or is a plain space between two non-whitespace characters. */
  predicate SpaceFlanked(s: string, i: nat)
    requires i < |s|
  {
    IsSpace(s[i]) ==> s[i] == ' ' && 0 < i < |s| - 1 && !IsSpace(s[i - 1]) && !IsSpace(s[i + 1])
  }

  lemma {:induction false} JoinWordsNormalized(ws: seq<string>)
    requires AllWords(ws)
    ensures Normalized(Join(ws))
    ensures |ws| > 0 ==> |Join(ws)| > 0 && !IsSpace(Join(ws)[0])
  {
    if |ws| == 1 {
      assert IsWord(ws[0]);
    } else if |ws| > 1 {
      assert AllWords(ws[1..]) by {
        forall k | 0 <= k < |ws[1..]| ensures IsWord(ws[1..][k]) {
          assert ws[1..][k] == ws[k + 1];
        }
      }
      JoinWordsNormalized(ws[1..]);
      var w, j := ws[0], Join(ws[1..]);
      assert IsWord(w);
      var s := w + " " + j;
      assert Join(ws) == s;
      forall i | 0 <= i < |s| ensures SpaceFlanked(s, i) {
        if i < |w| {
          assert s[i] == w[i];
        } else if i == |w| {
          assert s[i - 1] == w[|w| - 1];
          assert s[i + 1] == j[0];
        } else {
          var m := i - |w| - 1;
          assert SpaceFlanked(j, m);
          assert s[i] == j[m];
          if IsSpace(s[i]) {
            assert s[i - 1] == j[m - 1];
            assert s[i + 1] == j[m + 1];
          }
        }
      }
    }
  }

  /** `' '.join(s.split())` is trimmed and single-spaced. */
  lemma SqueezeNormalized(s: string)
    ensures Normalized(Squeeze(s))
  {
    SplitWords(s);
    JoinWordsNormalized(Split(s));
  }

  /** Trimmed, single-spaced text is left alone by `' '.join(s.split())`. */
  lemma {:induction false} SqueezeOfNormalized(s: string)
    requires Normalized(s)
    ensures Squeeze(s) == s
    decreases |s|
  {
    if |s| > 0 {
      assert SpaceFlanked(s, 0);
      var w := Word(s);
      assert Split(s) == [w] + Split(s[|w|..]);
      if |w| == |s| {
        assert s[|w|..] == [];
      } else {
        assert SpaceFlanked(s, |w|);
        var rest := s[|w| + 1..];
        assert s[|w|..] == [' '] + rest;
        assert ([' '] + rest)[1..] == rest;
        assert Split(s[|w|..]) == Split(rest);
        NormalizedSuffix(s, |w| + 1);
        SqueezeOfNormalized(rest);
        var ws := Split(rest);
        assert |ws| > 0;
        assert Join([w] + ws) == w + " " + Join(ws);
        assert s == w + " " + rest;
      }
    }
  }

  /** A suffix of normalized text that starts just after a space is normalized. */
  lemma NormalizedSuffix(s: string, n: nat)
    requires Normalized(s) && 0 < n <= |s| && IsSpace(s[n - 1])
    ensures Normalized(s[n..])
  {
    var r := s[n..];
    forall i | 0 <= i < |r| ensures SpaceFlanked(r, i) {
      assert SpaceFlanked(s, n + i);
      assert r[i] == s[n + i];
      if i > 0 {
        assert r[i - 1] == s[n + i - 1];
      }
      if i + 1 < |r| {
        assert r[i + 1] == s[n + i + 1];
      }
    }
  }

  /** `' '.join(s.split())` is idempotent. */
  lemma SqueezeIdempotent(s: string)
    ensures Squeeze(Squeeze(s)) == Squeeze(s)
  {
    SqueezeNormalized(s);
    SqueezeOfNormalized(Squeeze(s));
  }

  lemma {:induction false} JoinChars(ws: seq<string>)
    ensures forall c | c in Join(ws) :: c == ' ' || exists k :: 0 <= k < |ws| && c in ws[k]
  {
    if |ws| > 1 {
      JoinChars(ws[1..]);
      forall c | c in Join(ws) ensures c == ' ' || exists k :: 0 <= k < |ws| && c in ws[k] {
        if c in Join(ws[1..]) && c != ' ' {
          var k :| 0 <= k < |ws[1..]| && c in ws[1..][k];
          assert c in ws[k + 1];
        }
      }
    }
  }

  /** The first word of a word followed by whitespace or by nothing is that word. */
  lemma {:induction false} WordOfWord(w: string, t: string)
    requires NoSpace(w) && (|t| == 0 || IsSpace(t[0]))
    ensures Word(w + t) == w
    decreases |w|
  {
    if |w| > 0 {
      assert (w + t)[1..] == w[1..] + t;
      WordOfWord(w[1..], t);
    } else {
      assert w + t == t;
    }
  }

  /** A word, a space and more text split into that word and the words of the rest. */
  lemma SplitCons(w: string, t: string)
    requires IsWord(w)
    ensures Split(w + " " + t) == [w] + Split(t)
  {
    var s := w + " " + t;
    WordOfWord(w, " " + t);
    assert s == w + (" " + t);
    assert s[0] == w[0];
    assert s[|w|..] == " " + t;
    assert (" " + t)[1..] == t;
  }

  /** Splitting words joined by single spaces gives the words back. */
  lemma {:induction false} SplitJoin(ws: seq<string>)
    requires AllWords(ws)
    ensures Split(Join(ws)) == ws
    decreases |ws|
  {
    if |ws| == 1 {
      assert IsWord(ws[0]);
      WordOfWord(ws[0], "");
      assert ws[0] + "" == ws[0];
      assert ws[0][|ws[0]|..] == [];
    } else if |ws| > 1 {
      var rest := ws[1..];
      assert IsWord(ws[0]);
      assert AllWords(rest) by {
        forall k | 0 <= k < |rest| ensures IsWord(rest[k]) {
          assert rest[k] == ws[k + 1];
        }
      }
      SplitJoin(rest);
      SplitCons(ws[0], Join(rest));
      assert [ws[0]] + rest == ws;
    }
  }

  /** `' '.join(s.split())` keeps only non-whitespace characters of `s`, plus plain spaces. */
  lemma SqueezeChars(s: string)
    ensures forall c | c in Squeeze(s) :: c == ' ' || (c in s && !IsSpace(c))
  {
    var ws := Split(s);
    SplitChars(s);
    JoinChars(ws);
    forall c | c in Squeeze(s) && c != ' ' ensures c in s && !IsSpace(c) {
      var k :| 0 <= k < |ws| && c in ws[k];
      assert CharsFrom(ws[k], s);
    }
  }
}
