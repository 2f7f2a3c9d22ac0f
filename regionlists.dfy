/**
  The official list of immediate regions as pandas hands it to the mapping
  scripts: rows of cells, a name in column 7 and a six-digit code in column 8,
  and the row filter and duplicate report that the scripts share.
*/
module RegionLists {
  import opened Wrappers
  import opened Words
  import opened Numerals
  import opened Sums
  import opened GroupBy

  /** A cell of a pandas row: missing (NaN) or a value whose `str(...)` is `text`. */
  datatype Cell = NA | Val(text: string)

  /** A region of the list: its code and its name, both stripped. */
  datatype CodeName = CodeName(code: string, name: string)

  /** The code of an immediate region: six characters, all digits. */
  predicate IsRegionCode(code: string) {
    IsDigitString(code) && |code| == 6
  }

  /**
    One row of the list: the name in column 7 and the code in column 8, both
    present and stripped, kept only when the code is a region code.
  */
  function CodeRow(row: seq<Cell>): (r: Option<CodeName>)
    ensures r.Some? <==> 8 < |row| && row[7].Val? && row[8].Val? && IsRegionCode(Strip(row[8].text))
    ensures r.Some? ==> r.value.code == Strip(row[8].text) && r.value.name == Strip(row[7].text)
    ensures r.Some? ==> NoEdgeSpace(r.value.code) && NoEdgeSpace(r.value.name)
  {
    if 8 < |row| && row[7].Val? && row[8].Val? then
      var name := Strip(row[7].text);
      var code := Strip(row[8].text);
      StripSpec(row[7].text);
      StripSpec(row[8].text);
      if IsRegionCode(code) then Some(CodeName(code, name)) else None
    else None
  }

  /** The rows after the first one, which the scripts skip as a second header line. */
  function DataRows(rows: seq<seq<Cell>>): seq<seq<Cell>> {
    if |rows| == 0 then [] else rows[1..]
  }

  /** What `keep` makes of each row it accepts, in row order. */
  function KeptRows<T>(rows: seq<seq<Cell>>, keep: seq<Cell> -> Option<T>): seq<T> {
    if |rows| == 0 then []
    else
      var n := |rows| - 1;
      var k := keep(rows[n]);
      KeptRows(rows[..n], keep) + (if k.Some? then [k.value] else [])
  }

  /** A value is kept exactly when some row is accepted with it; no more values than rows. */
  lemma {:induction false} KeptRowsSpec<T>(rows: seq<seq<Cell>>, keep: seq<Cell> -> Option<T>, x: T)
    ensures x in KeptRows(rows, keep) <==> exists i :: 0 <= i < |rows| && keep(rows[i]) == Some(x)
    ensures |KeptRows(rows, keep)| <= |rows|
    decreases |rows|
  {
    if |rows| > 0 {
      var n := |rows| - 1;
      KeptRowsSpec(rows[..n], keep, x);
      if exists i :: 0 <= i < n && keep(rows[..n][i]) == Some(x) {
        var i :| 0 <= i < n && keep(rows[..n][i]) == Some(x);
        assert keep(rows[i]) == Some(x);
      }
      if exists i :: 0 <= i < |rows| && keep(rows[i]) == Some(x) {
        var i :| 0 <= i < |rows| && keep(rows[i]) == Some(x);
        if i < n {
          assert keep(rows[..n][i]) == Some(x);
        }
      }
    }
  }

  /** One more row extends the kept values by what `keep` makes of it. */
  lemma KeptRowsStep<T>(rows: seq<seq<Cell>>, keep: seq<Cell> -> Option<T>, i: nat)
    requires 1 <= i < |rows|
    ensures KeptRows(rows[1..i + 1], keep) ==
      KeptRows(rows[1..i], keep) + (if keep(rows[i]).Some? then [keep(rows[i]).value] else [])
  {
    assert rows[1..i + 1][..i - 1] == rows[1..i];
  }

  /** `f` applied to each element, in order: what a loop appending `f(x)` for each `x` builds. */
  function Appended<A, B>(xs: seq<A>, f: A -> B): seq<B> {
    if |xs| == 0 then [] else var n := |xs| - 1; Appended(xs[..n], f) + [f(xs[n])]
  }

  lemma {:induction false} AppendedSpec<A, B>(xs: seq<A>, f: A -> B)
    ensures |Appended(xs, f)| == |xs|
    ensures forall i | 0 <= i < |xs| :: Appended(xs, f)[i] == f(xs[i])
    decreases |xs|
  {
    if |xs| > 0 {
      AppendedSpec(xs[..|xs| - 1], f);
    }
  }

  /** `f` applied to each element and its position, in order: a loop appending `f(x, n)` for the `n`-th `x`. */
  function Numbered<A, B>(xs: seq<A>, f: (A, nat) -> B): seq<B> {
    if |xs| == 0 then [] else var n := |xs| - 1; Numbered(xs[..n], f) + [f(xs[n], n)]
  }

  lemma {:induction false} NumberedSpec<A, B>(xs: seq<A>, f: (A, nat) -> B)
    ensures |Numbered(xs, f)| == |xs|
    ensures forall i | 0 <= i < |xs| :: Numbered(xs, f)[i] == f(xs[i], i)
    decreases |xs|
  {
    if |xs| > 0 {
      NumberedSpec(xs[..|xs| - 1], f);
    }
  }

  // ---------------------------------------------------------------------------
  // Duplicate report
  // ---------------------------------------------------------------------------

  /** The names of `ns` that occur more than once in `all`, in order: `duplicated(keep=False)`. */
  function Repeated(ns: seq<string>, all: seq<string>): seq<string> {
    if |ns| == 0 then []
    else
      var n := |ns| - 1;
      Repeated(ns[..n], all) + (if multiset(all)[ns[n]] > 1 then [ns[n]] else [])
  }

  lemma {:induction false} RepeatedSpec(ns: seq<string>, all: seq<string>, x: string)
    ensures x in Repeated(ns, all) <==> x in ns && multiset(all)[x] > 1
    decreases |ns|
  {
    if |ns| > 0 {
      var n := |ns| - 1;
      RepeatedSpec(ns[..n], all, x);
      assert ns == ns[..n] + [ns[n]];
    }
  }

  /** The names reported as duplicates: each repeated name once, in order of first appearance. */
  function DuplicateNames(names: seq<string>): seq<string> {
    Unique(Repeated(names, names))
  }

  /** Exactly the names that occur at least twice are reported, each of them once. */
  lemma DuplicateNamesSpec(names: seq<string>, x: string)
    ensures x in DuplicateNames(names) <==> multiset(names)[x] >= 2
    ensures Distinct(DuplicateNames(names))
  {
    RepeatedSpec(names, names, x);
    var r := Repeated(names, names);
    if x in r {
      var i :| 0 <= i < |r| && r[i] == x;
      assert r[i] in DuplicateNames(names);
    }
    if x in DuplicateNames(names) {
      var u := DuplicateNames(names);
      var j :| 0 <= j < |u| && u[j] == x;
      assert u[j] in r;
    }
  }
}
