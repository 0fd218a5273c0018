/**
 * Boolean-mask row selection, `df[mask]`: the rows for which the mask holds,
 * in their original order.  Every filter of the dashboard is an instance.
 */
module Selection {

  /** The elements of `s` that satisfy `keep`, in order. */
  function Select<T>(s: seq<T>, keep: T -> bool): (r: seq<T>)
    ensures |r| <= |s|
    ensures forall i :: 0 <= i < |r| ==> r[i] in s && keep(r[i])
    ensures forall i :: 0 <= i < |s| && keep(s[i]) ==> s[i] in r
  {
    if s == [] then []
    else if keep(s[0]) then [s[0]] + Select(s[1..], keep)
    else Select(s[1..], keep)
  }

  /** `idx` lists positions of `b`, strictly increasing, at which `a` is found. */
  ghost predicate Embeds<T>(idx: seq<nat>, a: seq<T>, b: seq<T>)
  {
    && |idx| == |a|
    && (forall j :: 0 <= j < |idx| ==> idx[j] < |b| && a[j] == b[idx[j]])
    && (forall j1, j2 :: 0 <= j1 < j2 < |idx| ==> idx[j1] < idx[j2])
  }

  /** The positions of `s` whose element satisfies `keep`. */
  function KeptPositions<T>(s: seq<T>, keep: T -> bool): (idx: seq<nat>)
    ensures forall j :: 0 <= j < |idx| ==> idx[j] < |s|
    ensures forall j1, j2 :: 0 <= j1 < j2 < |idx| ==> idx[j1] < idx[j2]
    ensures forall i :: 0 <= i < |s| ==> (i in idx <==> keep(s[i]))
  {
    if s == [] then []
    else
      var rest := KeptPositions(s[1..], keep);
      var shifted := seq(|rest|, j requires 0 <= j < |rest| => rest[j] + 1);
      ShiftedMembership(rest, shifted);
      if keep(s[0]) then [0] + shifted else shifted
  }

  lemma ShiftedMembership(rest: seq<nat>, shifted: seq<nat>)
    requires |shifted| == |rest|
    requires forall j :: 0 <= j < |rest| ==> shifted[j] == rest[j] + 1
    ensures forall i :: i >= 1 ==> (i in shifted <==> i - 1 in rest)
    ensures 0 !in shifted
  {
    forall i | i >= 1
      ensures i in shifted <==> i - 1 in rest
    {
      if i - 1 in rest {
        var j :| 0 <= j < |rest| && rest[j] == i - 1;
        assert shifted[j] == i;
      }
    }
  }

  /**
   * Order preservation: the selection sits in `s` at exactly the positions
   * whose element satisfies `keep`, in increasing order.
   */
  lemma {:induction false} SelectIsOrderedSubsequence<T>(s: seq<T>, keep: T -> bool)
    ensures Embeds(KeptPositions(s, keep), Select(s, keep), s)
  {
    if s != [] {
      SelectIsOrderedSubsequence(s[1..], keep);
      var rest := KeptPositions(s[1..], keep);
      var shifted := seq(|rest|, j requires 0 <= j < |rest| => rest[j] + 1);
      var tail := Select(s[1..], keep);
      assert forall j :: 0 <= j < |shifted| ==> tail[j] == s[shifted[j]];
    }
  }

  /** Applying the same mask twice equals applying it once. */
  lemma {:induction false} SelectIdempotent<T>(s: seq<T>, keep: T -> bool)
    ensures Select(Select(s, keep), keep) == Select(s, keep)
  {
    if s != [] {
      SelectIdempotent(s[1..], keep);
    }
  }

  /**
   * A narrower mask selects from what a wider mask selected, so it never
   * yields more rows.
   */
  lemma {:induction false} SelectNarrower<T>(s: seq<T>, wide: T -> bool, narrow: T -> bool)
    requires forall i :: 0 <= i < |s| && narrow(s[i]) ==> wide(s[i])
    ensures Select(s, narrow) == Select(Select(s, wide), narrow)
    ensures |Select(s, narrow)| <= |Select(s, wide)|
  {
    if s != [] {
      SelectNarrower(s[1..], wide, narrow);
    }
  }

  /** Two masks that agree on every element select the same rows. */
  lemma {:induction false} SelectSameMask<T>(s: seq<T>, p: T -> bool, q: T -> bool)
    requires forall i :: 0 <= i < |s| ==> (p(s[i]) <==> q(s[i]))
    ensures Select(s, p) == Select(s, q)
  {
    if s != [] {
      SelectSameMask(s[1..], p, q);
    }
  }

  /** Two masks applied one after the other select what their conjunction selects. */
  lemma {:induction false} SelectThenSelect<T>(s: seq<T>, p: T -> bool, q: T -> bool, both: T -> bool)
    requires forall i :: 0 <= i < |s| ==> (both(s[i]) <==> p(s[i]) && q(s[i]))
    ensures Select(Select(s, p), q) == Select(s, both)
  {
    if s != [] {
      SelectThenSelect(s[1..], p, q, both);
    }
  }
}
