/**
  The "exact before substring" name lookup shared by the region scripts: the
  first candidate whose normalised name equals the normalised target wins;
  failing that, the first candidate whose normalised name contains the target
  or is contained in it; failing that, nothing.
*/
module Matching {
  import opened Wrappers
  import opened Substrings

  /** `a in b or b in a`. */
  predicate Near(a: string, b: string) {
    Contains(b, a) || Contains(a, b)
  }

  /** The first position of `t` in `ns`. */
  function FirstEqual(t: string, ns: seq<string>): (r: Option<nat>)
    ensures r.Some? ==> r.value < |ns| && ns[r.value] == t && forall j | 0 <= j < r.value :: ns[j] != t
    ensures r.None? <==> forall j | 0 <= j < |ns| :: ns[j] != t
  {
    if |ns| == 0 then None
    else if ns[0] == t then Some(0)
    else match FirstEqual(t, ns[1..])
      case Some(i) => Some(i + 1)
      case None => None
  }

  /** A scan that stops at the first `t` stops where `FirstEqual` says. */
  lemma FirstEqualAt(t: string, ns: seq<string>, j: nat)
    requires j < |ns| && ns[j] == t && forall k | 0 <= k < j :: ns[k] != t
    ensures FirstEqual(t, ns) == Some(j)
  {
  }

  /** The first position in `ns` of a name near `t`. */
  function FirstNear(t: string, ns: seq<string>): (r: Option<nat>)
    ensures r.Some? ==> r.value < |ns| && Near(t, ns[r.value]) && forall j | 0 <= j < r.value :: !Near(t, ns[j])
    ensures r.None? <==> forall j | 0 <= j < |ns| :: !Near(t, ns[j])
  {
    if |ns| == 0 then None
    else if Near(t, ns[0]) then Some(0)
    else match FirstNear(t, ns[1..])
      case Some(i) => Some(i + 1)
      case None => None
  }

  /** The two scans one after the other: the position of the chosen candidate, if any. */
  function BestMatchIndex(t: string, ns: seq<string>): Option<nat> {
    var e := FirstEqual(t, ns);
    if e.Some? then e else FirstNear(t, ns)
  }

  lemma ContainsSelf(s: string)
    ensures Contains(s, s)
  {
    assert s[..|s|] == s;
  }

  /**
    The chosen candidate is the first equal one when there is one, and
    otherwise the first near one; there is none exactly when no candidate is
    near the target (an equal name is near).
  */
  lemma BestMatchIndexSpec(t: string, ns: seq<string>)
    ensures var r := BestMatchIndex(t, ns);
      && (r.Some? ==> r.value < |ns| && Near(t, ns[r.value]))
      && (r.None? <==> forall j | 0 <= j < |ns| :: !Near(t, ns[j]))
      && ((exists j :: 0 <= j < |ns| && ns[j] == t) ==> r == FirstEqual(t, ns) && r.Some? && ns[r.value] == t)
      && ((forall j | 0 <= j < |ns| :: ns[j] != t) ==> r == FirstNear(t, ns))
  {
    ContainsSelf(t);
  }

  /** The value paired with the chosen candidate, if any: `vals[i]` goes with normalised name `ns[i]`. */
  function BestMatch<V>(t: string, ns: seq<string>, vals: seq<V>): Option<V>
    requires |ns| == |vals|
  {
    BestMatchIndexSpec(t, ns);
    match BestMatchIndex(t, ns)
    case Some(i) => Some(vals[i])
    case None => None
  }

  /**
    The value returned is one of `vals`: that of the first candidate equal to
    the target or, when there is none, of the first near it; there is none
    exactly when no candidate is near the target.
  */
  lemma BestMatchSpec<V>(t: string, ns: seq<string>, vals: seq<V>)
    requires |ns| == |vals|
    ensures var r := BestMatch(t, ns, vals);
      && (r.Some? ==> r.value in vals)
      && (r.None? <==> forall j | 0 <= j < |ns| :: !Near(t, ns[j]))
      && (forall i | 0 <= i < |ns| && ns[i] == t && (forall j | 0 <= j < i :: ns[j] != t) :: r == Some(vals[i]))
      && (forall i | 0 <= i < |ns| && (forall j | 0 <= j < |ns| :: ns[j] != t)
            && Near(t, ns[i]) && (forall j | 0 <= j < i :: !Near(t, ns[j])) :: r == Some(vals[i]))
  {
    BestMatchIndexSpec(t, ns);
  }
}
