/** The occupied/virtual partition of the molecular orbitals, read off the occupation vector
    with numpy.where, one selection rule per reference type. */
module Partition {
  import opened LinAlg

  /** The comparisons the stability code applies to `mo_occ`. */
  datatype Rule =
    | Doubly    // `mo_occ == 2`: occupied orbitals of a closed-shell RHF reference
    | Positive  // `mo_occ > 0`: occupied orbitals of one UHF spin channel
    | Singly    // `mo_occ == 1`: occupied orbitals of a GHF reference
    | Empty     // `mo_occ == 0`: virtual orbitals of every reference

  predicate Selects(rule: Rule, x: real) {
    match rule
    case Doubly => x == 2.0
    case Positive => x > 0.0
    case Singly => x == 1.0
    case Empty => x == 0.0
  }

  predicate StrictlyIncreasing(s: seq<nat>) {
    forall i, j :: 0 <= i < j < |s| ==> s[i] < s[j]
  }

  /** numpy.where(rule(occ))[0]: the indices whose occupation the rule selects, ascending. */
  function Where(occ: seq<real>, rule: Rule): (idx: seq<nat>)
    ensures forall k :: 0 <= k < |idx| ==> idx[k] < |occ| && Selects(rule, occ[idx[k]])
    ensures |idx| <= |occ|
    decreases |occ|
  {
    if |occ| == 0 then []
    else
      var front := Where(occ[..|occ| - 1], rule);
      if Selects(rule, occ[|occ| - 1]) then front + [|occ| - 1] else front
  }

  /** Every index the rule selects is listed. */
  lemma {:induction false} WhereComplete(occ: seq<real>, rule: Rule)
    ensures forall i :: 0 <= i < |occ| && Selects(rule, occ[i]) ==> i in Where(occ, rule)
    decreases |occ|
  {
    if |occ| > 0 {
      WhereComplete(occ[..|occ| - 1], rule);
      forall i | 0 <= i < |occ| - 1 && Selects(rule, occ[i])
        ensures i in Where(occ, rule)
      {
        assert occ[..|occ| - 1][i] == occ[i];
      }
    }
  }

  /** The selected indices come out ascending, as numpy.where returns them. Kept out of `Where`'s
      own contract so that proofs mentioning several index lists do not compare every pair. */
  lemma {:induction false} WhereIncreasing(occ: seq<real>, rule: Rule)
    ensures StrictlyIncreasing(Where(occ, rule))
    decreases |occ|
  {
    if |occ| > 0 {
      WhereIncreasing(occ[..|occ| - 1], rule);
    }
  }

  /** The first position of `x` in `s`, or `|s|` when `x` is absent. */
  function Position(s: seq<nat>, x: nat): (k: nat)
    ensures k <= |s|
    ensures k < |s| ==> s[k] == x
    ensures forall j :: 0 <= j < k ==> s[j] != x
    decreases |s|
  {
    if |s| == 0 then 0
    else if s[0] == x then 0
    else 1 + Position(s[1..], x)
  }

  /** In an index list without repeats, the position of its `a`-th entry is `a`. */
  lemma PositionOfEntry(s: seq<nat>, a: nat)
    requires StrictlyIncreasing(s) && a < |s|
    ensures Position(s, s[a]) == a
  {
  }

  /** A non-negative occupation is either occupied (`> 0`) or virtual (`== 0`), never both,
      so the UHF occupied and virtual lists partition the orbitals: nocc + nvir == nmo. */
  lemma {:induction false} SpinPartition(occ: seq<real>)
    requires forall i :: 0 <= i < |occ| ==> occ[i] >= 0.0
    ensures |Where(occ, Positive)| + |Where(occ, Empty)| == |occ|
    ensures forall i :: 0 <= i < |occ| ==> (i in Where(occ, Positive) <==> i !in Where(occ, Empty))
    decreases |occ|
  {
    if |occ| > 0 {
      SpinPartition(occ[..|occ| - 1]);
    }
  }

  /** For a closed-shell occupation (every entry 0 or 2) the RHF lists `== 2` and `== 0`
      partition the orbitals. */
  lemma {:induction false} ClosedShellPartition(occ: seq<real>)
    requires forall i :: 0 <= i < |occ| ==> occ[i] == 0.0 || occ[i] == 2.0
    ensures |Where(occ, Doubly)| + |Where(occ, Empty)| == |occ|
    ensures forall i :: 0 <= i < |occ| ==> (i in Where(occ, Doubly) <==> i !in Where(occ, Empty))
    decreases |occ|
  {
    if |occ| > 0 {
      ClosedShellPartition(occ[..|occ| - 1]);
    }
  }

  /** Aufbau order: no occupied orbital follows a virtual one, and occupations are non-negative. */
  predicate Aufbau(occ: seq<real>) {
    && (forall i :: 0 <= i < |occ| ==> occ[i] >= 0.0)
    && (forall i, j :: 0 <= i < j < |occ| && occ[i] == 0.0 ==> occ[j] == 0.0)
  }

  /** In aufbau order the occupied orbitals are `0 .. nocc-1` and the virtual ones the rest. */
  lemma {:induction false} AufbauWhere(occ: seq<real>)
    requires Aufbau(occ)
    ensures |Where(occ, Positive)| <= |occ|
    ensures Where(occ, Positive) == Range(0, |Where(occ, Positive)|)
    ensures Where(occ, Empty) == Range(|Where(occ, Positive)|, |occ|)
    decreases |occ|
  {
    if |occ| > 0 {
      var n := |occ| - 1;
      var front := occ[..n];
      assert Aufbau(front);
      AufbauWhere(front);
      SpinPartition(front);
      var pos := Where(front, Positive);
      var emp := Where(front, Empty);
      var m := |pos|;
      if occ[n] > 0.0 {
        assert Where(occ, Positive) == pos + [n];
        assert Where(occ, Empty) == emp;
        assert emp == [] by {
          if |emp| > 0 {
            AufbauLastOccupied(occ, emp[0]);
          }
        }
        assert m == n;
        RangeSnoc(0, n);
      } else {
        assert Where(occ, Positive) == pos;
        assert Where(occ, Empty) == emp + [n];
        RangeSnoc(m, n);
      }
    }
  }

  /** If the last orbital is occupied in aufbau order, so is every earlier one. */
  lemma AufbauLastOccupied(occ: seq<real>, i: nat)
    requires Aufbau(occ) && i < |occ| && occ[|occ| - 1] > 0.0
    ensures occ[i] > 0.0
  {
  }

  lemma RangeSnoc(lo: nat, hi: nat)
    requires lo <= hi
    ensures Range(lo, hi) + [hi] == Range(lo, hi + 1)
  {
  }
}
