/** Vectors over virtual x occupied orbital pairs, flattened row-major (numpy `ravel` of a
    `(nvir, nocc)` array): pair `(a, i)` sits at position `a * nocc + i`. This module builds the
    orbital-energy-gap diagonal and the symmetry-forbidden mask on that layout, and the
    masking that the external Hessian-vector products apply on input and on output. */
module VirOcc {
  import opened Partition

  /** Position `a * n + i` of a row-major `rows x n` array lies inside it and decodes back to `(a, i)`. */
  lemma RowMajor(a: nat, i: nat, rows: nat, n: nat)
    requires a < rows && i < n
    ensures a * n + i < rows * n
    ensures (a * n + i) / n == a && (a * n + i) % n == i
  {
    MulMonotone(a + 1, rows, n);
    assert (a + 1) * n == a * n + n;
    DivModUnique(a * n + i, n, a, i);
  }

  lemma MulMonotone(x: nat, y: nat, n: nat)
    requires x <= y
    ensures x * n <= y * n
  {
  }

  /** Euclidean division has one quotient and one remainder. */
  lemma DivModUnique(k: nat, n: nat, q: nat, r: nat)
    requires 0 <= r < n && k == q * n + r
    ensures k / n == q && k % n == r
  {
    var q', r' := k / n, k % n;
    assert k == q' * n + r';
    if q' < q {
      MulMonotone(q' + 1, q, n);
    } else if q < q' {
      MulMonotone(q + 1, q', n);
    }
  }

  /** Position `k` of a row-major `rows x n` array has a row below `rows`. */
  lemma RowMajorBound(k: nat, rows: nat, n: nat)
    requires k < rows * n
    ensures n > 0 && k / n < rows && k % n < n
  {
    if n > 0 && k / n >= rows {
      MulMonotone(rows, k / n, n);
    }
  }

  /** `hdiag = fock_vir.reshape(-1,1) - fock_occ`, raveled: the orbital-energy gap of every
      vir-occ pair, read off the diagonals of the MO Fock matrices. */
  function OrbitalGap(fVir: seq<real>, vir: seq<nat>, fOcc: seq<real>, occ: seq<nat>): (h: seq<real>)
    requires forall a :: 0 <= a < |vir| ==> vir[a] < |fVir|
    requires forall i :: 0 <= i < |occ| ==> occ[i] < |fOcc|
    ensures |h| == |vir| * |occ|
  {
    var n := |occ|;
    seq(|vir| * n, k requires 0 <= k < |vir| * n =>
      RowMajorBound(k, |vir|, n); fVir[vir[k / n]] - fOcc[occ[k % n]])
  }

  /** Entry `(a, i)` of the gap diagonal is `fock_vir[vir[a]] - fock_occ[occ[i]]`. */
  lemma OrbitalGapEntry(fVir: seq<real>, vir: seq<nat>, fOcc: seq<real>, occ: seq<nat>, a: nat, i: nat)
    requires forall a :: 0 <= a < |vir| ==> vir[a] < |fVir|
    requires forall i :: 0 <= i < |occ| ==> occ[i] < |fOcc|
    requires a < |vir| && i < |occ|
    ensures a * |occ| + i < |OrbitalGap(fVir, vir, fOcc, occ)|
    ensures OrbitalGap(fVir, vir, fOcc, occ)[a * |occ| + i] == fVir[vir[a]] - fOcc[occ[i]]
  {
    RowMajor(a, i, |vir|, |occ|);
  }

  /** `sym_forbid = symVir[vir].reshape(-1,1) != symOcc[occ]`, raveled: a vir-occ pair is forbidden
      when the two orbitals carry different irreducible-representation labels. */
  function SymForbid(symVir: seq<int>, vir: seq<nat>, symOcc: seq<int>, occ: seq<nat>): (f: seq<bool>)
    requires forall a :: 0 <= a < |vir| ==> vir[a] < |symVir|
    requires forall i :: 0 <= i < |occ| ==> occ[i] < |symOcc|
    ensures |f| == |vir| * |occ|
  {
    var n := |occ|;
    seq(|vir| * n, k requires 0 <= k < |vir| * n =>
      RowMajorBound(k, |vir|, n); symVir[vir[k / n]] != symOcc[occ[k % n]])
  }

  /** Pair `(a, i)` is forbidden exactly when `vir[a]` and `occ[i]` carry different labels. */
  lemma SymForbidEntry(symVir: seq<int>, vir: seq<nat>, symOcc: seq<int>, occ: seq<nat>, a: nat, i: nat)
    requires forall a :: 0 <= a < |vir| ==> vir[a] < |symVir|
    requires forall i :: 0 <= i < |occ| ==> occ[i] < |symOcc|
    requires a < |vir| && i < |occ|
    ensures a * |occ| + i < |SymForbid(symVir, vir, symOcc, occ)|
    ensures SymForbid(symVir, vir, symOcc, occ)[a * |occ| + i] <==> symVir[vir[a]] != symOcc[occ[i]]
  {
    RowMajor(a, i, |vir|, |occ|);
  }

  /** `x[forbid] = 0` on a copy: forbidden entries become zero, the others are kept. */
  function Mask(x: seq<real>, forbid: seq<bool>): (y: seq<real>)
    requires |x| == |forbid|
    ensures |y| == |x|
    ensures forall k :: 0 <= k < |x| ==> y[k] == (if forbid[k] then 0.0 else x[k])
  {
    seq(|x|, k requires 0 <= k < |x| => if forbid[k] then 0.0 else x[k])
  }

  /** Two vectors agree on every symmetry-allowed entry. */
  predicate AgreeOnAllowed(x: seq<real>, y: seq<real>, forbid: seq<bool>)
    requires |x| == |forbid| && |y| == |forbid|
  {
    forall k :: 0 <= k < |forbid| && !forbid[k] ==> x[k] == y[k]
  }

  /** Masking only looks at the allowed entries: two vectors that agree there mask to the same
      vector, and masking twice is masking once. */
  lemma MaskProjects(x: seq<real>, y: seq<real>, forbid: seq<bool>)
    requires |x| == |forbid| && |y| == |forbid|
    ensures AgreeOnAllowed(x, y, forbid) <==> Mask(x, forbid) == Mask(y, forbid)
    ensures Mask(Mask(x, forbid), forbid) == Mask(x, forbid)
  {
    if Mask(x, forbid) == Mask(y, forbid) {
      forall k | 0 <= k < |forbid| && !forbid[k]
        ensures x[k] == y[k]
      {
        assert Mask(x, forbid)[k] == Mask(y, forbid)[k];
      }
    }
  }
}
