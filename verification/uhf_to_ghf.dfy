/** The orbital rotation of the UHF -> GHF channel: the instability eigenvector is scattered
    into a `2nmo x 2nmo` generator over the block-diagonal (alpha, beta) orbital space, made
    antisymmetric, exponentiated (newton_ah.expmat, not part of this model), applied to
    block_diag(C_alpha, C_beta), and the columns are re-partitioned occupied-first. */
module UhfToGhf {
  import opened Outcomes
  import opened LinAlg
  import opened Partition
  import opened VirOcc

  /** A UHF occupation pair `mo_occ` of shape (2, nmo) with non-negative entries. */
  predicate ValidOccupations(occA: seq<real>, occB: seq<real>) {
    && |occA| == |occB|
    && (forall i :: 0 <= i < |occA| ==> occA[i] >= 0.0)
    && (forall i :: 0 <= i < |occB| ==> occB[i] >= 0.0)
  }

  /** Length of the UHF -> GHF trial vector: `nvira * noccb + nvirb * nocca`. */
  function CrossDim(occA: seq<real>, occB: seq<real>): nat {
    |Where(occA, Empty)| * |Where(occB, Positive)| + |Where(occB, Empty)| * |Where(occA, Positive)|
  }

  /** Row `r` is an alpha virtual and column `c` a beta occupied orbital of the joint space. */
  predicate InAlphaBetaBlock(occA: seq<real>, occB: seq<real>, r: nat, c: nat)
    requires |occA| == |occB|
  {
    var nmo := |occA|;
    r < nmo && occA[r] == 0.0 && nmo <= c < 2 * nmo && occB[c - nmo] > 0.0
  }

  /** Row `r` is a beta virtual and column `c` an alpha occupied orbital of the joint space. */
  predicate InBetaAlphaBlock(occA: seq<real>, occB: seq<real>, r: nat, c: nat)
    requires |occA| == |occB|
  {
    var nmo := |occA|;
    nmo <= r < 2 * nmo && occB[r - nmo] == 0.0 && c < nmo && occA[c] > 0.0
  }

  /** Entry `(r, c)` of a block scattered from `v[offset:]`, reshaped row-major to
      `(|rows|, |cols|)`, into rows `rows` x columns `cols` of a zero matrix. */
  function BlockEntry(v: seq<real>, offset: nat, rows: seq<nat>, cols: seq<nat>, r: nat, c: nat): real
    requires offset + |rows| * |cols| <= |v|
  {
    var a, i := Position(rows, r), Position(cols, c);
    if a < |rows| && i < |cols| then
      RowMajor(a, i, |rows|, |cols|);
      v[offset + a * |cols| + i]
    else 0.0
  }

  lemma BlockEntryAt(v: seq<real>, offset: nat, rows: seq<nat>, cols: seq<nat>, a: nat, i: nat)
    requires offset + |rows| * |cols| <= |v|
    requires StrictlyIncreasing(rows) && StrictlyIncreasing(cols) && a < |rows| && i < |cols|
    ensures offset + a * |cols| + i < |v|
    ensures BlockEntry(v, offset, rows, cols, rows[a], cols[i]) == v[offset + a * |cols| + i]
  {
    RowMajor(a, i, |rows|, |cols|);
    PositionOfEntry(rows, a);
    PositionOfEntry(cols, i);
  }

  lemma ProductNonNegative(x: nat, y: nat)
    ensures x * y >= 0
  {
  }

  function GeneratorEntry(occA: seq<real>, occB: seq<real>, v: seq<real>, r: nat, c: nat): real
    requires ValidOccupations(occA, occB) && |v| == CrossDim(occA, occB)
  {
    var nmo := |occA|;
    var virA, occIdxA := Where(occA, Empty), Where(occA, Positive);
    var virB, occIdxB := Where(occB, Empty), Where(occB, Positive);
    var split := |virA| * |occIdxB|;
    ProductNonNegative(|virB|, |occIdxA|);
    if r < nmo && nmo <= c then BlockEntry(v, 0, virA, occIdxB, r, c - nmo)
    else if nmo <= r && c < nmo then BlockEntry(v, split, virB, occIdxA, r - nmo, c)
    else 0.0
  }

  /** `dx` before antisymmetrisation: zeros, with `v[:nvira*noccb]` written row-major into rows
      `viridxa` x columns `nmo + occidxb` and `v[nvira*noccb:]` into rows `nmo + viridxb` x
      columns `occidxa`. */
  function Generator(occA: seq<real>, occB: seq<real>, v: seq<real>): (dx: Matrix)
    requires ValidOccupations(occA, occB) && |v| == CrossDim(occA, occB)
    ensures IsMatrix(dx, 2 * |occA|, 2 * |occA|)
  {
    var n := 2 * |occA|;
    seq(n, r requires 0 <= r < n => seq(n, c requires 0 <= c < n => GeneratorEntry(occA, occB, v, r, c)))
  }

  /** The alpha-virtual x beta-occupied block holds `v[:nvira*noccb]` in row-major order. */
  lemma GeneratorAlphaBetaBlock(occA: seq<real>, occB: seq<real>, v: seq<real>, a: nat, i: nat)
    requires ValidOccupations(occA, occB) && |v| == CrossDim(occA, occB)
    requires a < |Where(occA, Empty)| && i < |Where(occB, Positive)|
    ensures a * |Where(occB, Positive)| + i < |v|
    ensures Where(occA, Empty)[a] < 2 * |occA| && |occA| + Where(occB, Positive)[i] < 2 * |occA|
    ensures Generator(occA, occB, v)[Where(occA, Empty)[a]][|occA| + Where(occB, Positive)[i]]
            == v[a * |Where(occB, Positive)| + i]
  {
    var virA, occIdxB := Where(occA, Empty), Where(occB, Positive);
    ProductNonNegative(|Where(occB, Empty)|, |Where(occA, Positive)|);
    WhereIncreasing(occA, Empty);
    WhereIncreasing(occB, Positive);
    BlockEntryAt(v, 0, virA, occIdxB, a, i);
    assert |occA| + occIdxB[i] - |occA| == occIdxB[i];
  }

  /** The beta-virtual x alpha-occupied block holds `v[nvira*noccb:]` in row-major order. */
  lemma GeneratorBetaAlphaBlock(occA: seq<real>, occB: seq<real>, v: seq<real>, b: nat, j: nat)
    requires ValidOccupations(occA, occB) && |v| == CrossDim(occA, occB)
    requires b < |Where(occB, Empty)| && j < |Where(occA, Positive)|
    ensures |Where(occA, Empty)| * |Where(occB, Positive)| + b * |Where(occA, Positive)| + j < |v|
    ensures |occA| + Where(occB, Empty)[b] < 2 * |occA| && Where(occA, Positive)[j] < 2 * |occA|
    ensures Generator(occA, occB, v)[|occA| + Where(occB, Empty)[b]][Where(occA, Positive)[j]]
            == v[|Where(occA, Empty)| * |Where(occB, Positive)| + b * |Where(occA, Positive)| + j]
  {
    var virB, occIdxA := Where(occB, Empty), Where(occA, Positive);
    var split := |Where(occA, Empty)| * |Where(occB, Positive)|;
    ProductNonNegative(|virB|, |occIdxA|);
    ProductNonNegative(|Where(occA, Empty)|, |Where(occB, Positive)|);
    WhereIncreasing(occB, Empty);
    WhereIncreasing(occA, Positive);
    BlockEntryAt(v, split, virB, occIdxA, b, j);
    GeneratorLowerEntry(occA, occB, v, virB[b], occIdxA[j]);
  }

  /** A generator entry in the beta-row x alpha-column quadrant reads the second block. */
  lemma GeneratorLowerEntry(occA: seq<real>, occB: seq<real>, v: seq<real>, x: nat, c: nat)
    requires ValidOccupations(occA, occB) && |v| == CrossDim(occA, occB)
    requires x < |occA| && c < |occA|
    ensures |Where(occA, Empty)| * |Where(occB, Positive)| + |Where(occB, Empty)| * |Where(occA, Positive)| <= |v|
    ensures Generator(occA, occB, v)[|occA| + x][c]
            == BlockEntry(v, |Where(occA, Empty)| * |Where(occB, Positive)|, Where(occB, Empty), Where(occA, Positive), x, c)
  {
    var r := |occA| + x;
    assert Generator(occA, occB, v)[r][c] == GeneratorEntry(occA, occB, v, r, c);
    assert r - |occA| == x;
  }

  /** Outside the two blocks the generator is zero. */
  lemma GeneratorZeroOutside(occA: seq<real>, occB: seq<real>, v: seq<real>, r: nat, c: nat)
    requires ValidOccupations(occA, occB) && |v| == CrossDim(occA, occB)
    requires r < 2 * |occA| && c < 2 * |occA|
    requires !InAlphaBetaBlock(occA, occB, r, c) && !InBetaAlphaBlock(occA, occB, r, c)
    ensures Generator(occA, occB, v)[r][c] == 0.0
  {
  }

  /** `dx - dx.T` */
  function Antisymmetrize(dx: Matrix, n: nat): (k: Matrix)
    requires IsMatrix(dx, n, n)
    ensures IsMatrix(k, n, n)
    ensures forall i, j :: 0 <= i < n && 0 <= j < n ==> k[i][j] == -k[j][i]
  {
    seq(n, i requires 0 <= i < n => seq(n, j requires 0 <= j < n => dx[i][j] - dx[j][i]))
  }

  /** The antisymmetric generator carries `v` on the alpha-virtual x beta-occupied block and
      `-v` on the mirrored block: the transpose never overlaps the scattered blocks. */
  lemma AntisymmetricGeneratorBlocks(occA: seq<real>, occB: seq<real>, v: seq<real>, r: nat, c: nat)
    requires ValidOccupations(occA, occB) && |v| == CrossDim(occA, occB)
    requires InAlphaBetaBlock(occA, occB, r, c) || InBetaAlphaBlock(occA, occB, r, c)
    ensures Antisymmetrize(Generator(occA, occB, v), 2 * |occA|)[r][c] == Generator(occA, occB, v)[r][c]
    ensures Antisymmetrize(Generator(occA, occB, v), 2 * |occA|)[c][r] == -Generator(occA, occB, v)[r][c]
  {
    GeneratorZeroOutside(occA, occB, v, c, r);
  }

  /** Column `c` of block_diag(C_alpha, C_beta) is an occupied spin orbital. */
  predicate IsOccupiedColumn(occA: seq<real>, occB: seq<real>, c: nat)
    requires |occA| == |occB|
  {
    var nmo := |occA|;
    (c < nmo && occA[c] > 0.0) || (nmo <= c < 2 * nmo && occB[c - nmo] > 0.0)
  }

  /** The source's re-partition `[:nocca] ++ [nmo:nmo+noccb] ++ [nocca:nmo] ++ [nmo+noccb:]`. */
  function ColumnOrder(nocca: nat, noccb: nat, nmo: nat): (order: seq<nat>)
    requires nocca <= nmo && noccb <= nmo
    ensures IsPermutation(order, 2 * nmo)
    ensures forall k :: 0 <= k < nocca ==> order[k] == k
    ensures forall k :: nocca <= k < nocca + noccb ==> order[k] == nmo + k - nocca
  {
    var order := Range(0, nocca) + Range(nmo, nmo + noccb) + Range(nocca, nmo) + Range(nmo + noccb, 2 * nmo);
    ColumnOrderIsPermutation(nocca, noccb, nmo, order);
    order
  }

  lemma ColumnOrderIsPermutation(nocca: nat, noccb: nat, nmo: nat, order: seq<nat>)
    requires nocca <= nmo && noccb <= nmo
    requires order == Range(0, nocca) + Range(nmo, nmo + noccb) + Range(nocca, nmo) + Range(nmo + noccb, 2 * nmo)
    ensures IsPermutation(order, 2 * nmo)
  {
    var p1, p2, p3 := nocca, nocca + noccb, nmo + noccb;
    assert forall k :: 0 <= k < p1 ==> order[k] == k;
    assert forall k :: p1 <= k < p2 ==> order[k] == nmo + k - nocca;
    assert forall k :: p2 <= k < p3 ==> order[k] == k - noccb;
    assert forall k :: p3 <= k < 2 * nmo ==> order[k] == k;
    forall c | 0 <= c < 2 * nmo
      ensures c in order
    {
      if c < nocca {
        assert order[c] == c;
      } else if c < nmo {
        assert order[c + noccb] == c;
      } else if c < nmo + noccb {
        assert order[c - nmo + nocca] == c;
      } else {
        assert order[c] == c;
      }
    }
  }

  /** The occupied-first order built from the index lists themselves:
      `occidxa ++ nmo+occidxb ++ viridxa ++ nmo+viridxb`. */
  function OccupiedFirstOrder(occA: seq<real>, occB: seq<real>): (order: seq<nat>)
    requires ValidOccupations(occA, occB)
    ensures IsPermutation(order, 2 * |occA|)
    ensures forall k :: 0 <= k < |order| ==>
              (IsOccupiedColumn(occA, occB, order[k]) <==> k < |Where(occA, Positive)| + |Where(occB, Positive)|)
  {
    var nmo := |occA|;
    var order := Where(occA, Positive) + Shift(Where(occB, Positive), nmo)
               + Where(occA, Empty) + Shift(Where(occB, Empty), nmo);
    OccupiedFirstOrderFacts(occA, occB, order);
    order
  }

  lemma OccupiedFirstOrderFacts(occA: seq<real>, occB: seq<real>, order: seq<nat>)
    requires ValidOccupations(occA, occB)
    requires order == Where(occA, Positive) + Shift(Where(occB, Positive), |occA|)
                    + Where(occA, Empty) + Shift(Where(occB, Empty), |occA|)
    ensures IsPermutation(order, 2 * |occA|)
    ensures forall k :: 0 <= k < |order| ==>
              (IsOccupiedColumn(occA, occB, order[k]) <==> k < |Where(occA, Positive)| + |Where(occB, Positive)|)
  {
    SpinPartition(occA);
    SpinPartition(occB);
    WhereIncreasing(occA, Positive);
    WhereIncreasing(occA, Empty);
    WhereIncreasing(occB, Positive);
    WhereIncreasing(occB, Empty);
    InterleavedPermutation(occA, occB, Where(occA, Positive), Where(occA, Empty),
                           Where(occB, Positive), Where(occB, Empty));
  }

  /** `pos` and `emp` list, ascending, the occupied and the virtual orbitals of `occ`. */
  predicate SplitBy(occ: seq<real>, pos: seq<nat>, emp: seq<nat>) {
    && (forall i :: 0 <= i < |occ| ==> occ[i] >= 0.0)
    && (forall k :: 0 <= k < |pos| ==> pos[k] < |occ| && occ[pos[k]] > 0.0)
    && (forall k :: 0 <= k < |emp| ==> emp[k] < |occ| && occ[emp[k]] == 0.0)
    && (forall i :: 0 <= i < |occ| && occ[i] > 0.0 ==> i in pos)
    && (forall i :: 0 <= i < |occ| && occ[i] == 0.0 ==> i in emp)
    && StrictlyIncreasing(pos) && StrictlyIncreasing(emp)
    && |pos| + |emp| == |occ|
  }

  predicate Distinct(s: seq<nat>) {
    forall i, j :: 0 <= i < j < |s| ==> s[i] != s[j]
  }

  lemma DistinctConcat(s: seq<nat>, t: seq<nat>)
    requires Distinct(s) && Distinct(t)
    requires forall i, j :: 0 <= i < |s| && 0 <= j < |t| ==> s[i] != t[j]
    ensures Distinct(s + t)
  {
    forall i, j | 0 <= i < j < |s + t|
      ensures (s + t)[i] != (s + t)[j]
    {
      if j < |s| {
      } else if i < |s| {
        assert (s + t)[j] == t[j - |s|];
      } else {
        assert (s + t)[i] == t[i - |s|] && (s + t)[j] == t[j - |s|];
      }
    }
  }

  lemma InterleavedPermutation(occA: seq<real>, occB: seq<real>, oa: seq<nat>, va: seq<nat>, ob: seq<nat>, vb: seq<nat>)
    requires |occA| == |occB| && SplitBy(occA, oa, va) && SplitBy(occB, ob, vb)
    ensures var order := oa + Shift(ob, |occA|) + va + Shift(vb, |occA|);
            && IsPermutation(order, 2 * |occA|)
            && forall k :: 0 <= k < |order| ==> (IsOccupiedColumn(occA, occB, order[k]) <==> k < |oa| + |ob|)
  {
    var nmo := |occA|;
    var order := oa + Shift(ob, nmo) + va + Shift(vb, nmo);
    InterleavedDistinct(occA, occB, oa, va, ob, vb);
    InterleavedCovers(occA, occB, oa, va, ob, vb);
    forall k | 0 <= k < |order|
      ensures order[k] < 2 * nmo
      ensures IsOccupiedColumn(occA, occB, order[k]) <==> k < |oa| + |ob|
    {
      InterleavedEntry(occA, occB, oa, va, ob, vb, k);
    }
  }

  lemma InterleavedDistinct(occA: seq<real>, occB: seq<real>, oa: seq<nat>, va: seq<nat>, ob: seq<nat>, vb: seq<nat>)
    requires |occA| == |occB| && SplitBy(occA, oa, va) && SplitBy(occB, ob, vb)
    ensures Distinct(oa + Shift(ob, |occA|) + va + Shift(vb, |occA|))
  {
    var nmo := |occA|;
    var sob, svb := Shift(ob, nmo), Shift(vb, nmo);
    var p1 := oa + sob;
    var p2 := p1 + va;
    DistinctConcat(oa, sob);
    forall i, j | 0 <= i < |p1| && 0 <= j < |va|
      ensures p1[i] != va[j]
    {
      if i < |oa| {
        assert p1[i] == oa[i];
      } else {
        assert p1[i] == sob[i - |oa|];
      }
    }
    DistinctConcat(p1, va);
    forall i, j | 0 <= i < |p2| && 0 <= j < |svb|
      ensures p2[i] != svb[j]
    {
      if i < |oa| {
        assert p2[i] == oa[i];
      } else if i < |p1| {
        assert p2[i] == sob[i - |oa|];
      } else {
        assert p2[i] == va[i - |p1|];
      }
    }
    DistinctConcat(p2, svb);
  }

  lemma InterleavedCovers(occA: seq<real>, occB: seq<real>, oa: seq<nat>, va: seq<nat>, ob: seq<nat>, vb: seq<nat>)
    requires |occA| == |occB| && SplitBy(occA, oa, va) && SplitBy(occB, ob, vb)
    ensures forall c :: 0 <= c < 2 * |occA| ==> c in oa + Shift(ob, |occA|) + va + Shift(vb, |occA|)
  {
    var nmo := |occA|;
    var sob, svb := Shift(ob, nmo), Shift(vb, nmo);
    forall c | 0 <= c < 2 * nmo
      ensures c in oa + sob + va + svb
    {
      if c < nmo {
        if occA[c] > 0.0 {
          assert c in oa;
        } else {
          assert c in va;
        }
      } else {
        if occB[c - nmo] > 0.0 {
          var k :| 0 <= k < |ob| && ob[k] == c - nmo;
          assert sob[k] == c;
        } else {
          var k :| 0 <= k < |vb| && vb[k] == c - nmo;
          assert svb[k] == c;
        }
      }
    }
  }

  lemma InterleavedEntry(occA: seq<real>, occB: seq<real>, oa: seq<nat>, va: seq<nat>, ob: seq<nat>, vb: seq<nat>, k: nat)
    requires |occA| == |occB| && SplitBy(occA, oa, va) && SplitBy(occB, ob, vb)
    requires k < 2 * |occA|
    ensures var order := oa + Shift(ob, |occA|) + va + Shift(vb, |occA|);
            && order[k] < 2 * |occA|
            && (IsOccupiedColumn(occA, occB, order[k]) <==> k < |oa| + |ob|)
  {
    var nmo := |occA|;
    var order := oa + Shift(ob, nmo) + va + Shift(vb, nmo);
    if k < |oa| {
      assert order[k] == oa[k];
    } else if k < |oa| + |ob| {
      assert order[k] == ob[k - |oa|] + nmo;
    } else if k < |oa| + |ob| + |va| {
      assert order[k] == va[k - |oa| - |ob|];
    } else {
      assert order[k] == vb[k - |oa| - |ob| - |va|] + nmo;
    }
  }

  /** With aufbau occupations the source's fixed re-partition and the occupied-first order agree. */
  lemma ColumnOrderAufbau(occA: seq<real>, occB: seq<real>)
    requires |occA| == |occB| && Aufbau(occA) && Aufbau(occB)
    ensures ValidOccupations(occA, occB)
    ensures |Where(occA, Positive)| <= |occA| && |Where(occB, Positive)| <= |occA|
    ensures OccupiedFirstOrder(occA, occB)
            == ColumnOrder(|Where(occA, Positive)|, |Where(occB, Positive)|, |occA|)
  {
    var nmo := |occA|;
    AufbauWhere(occA);
    AufbauWhere(occB);
    var oa, va := Where(occA, Positive), Where(occA, Empty);
    var ob, vb := Where(occB, Positive), Where(occB, Empty);
    assert OccupiedFirstOrder(occA, occB) == oa + Shift(ob, nmo) + va + Shift(vb, nmo);
    ConcatRanges(oa, ob, va, vb, |oa|, |ob|, nmo);
  }

  lemma ConcatRanges(oa: seq<nat>, ob: seq<nat>, va: seq<nat>, vb: seq<nat>, na: nat, nb: nat, nmo: nat)
    requires na <= nmo && nb <= nmo
    requires oa == Range(0, na) && ob == Range(0, nb) && va == Range(na, nmo) && vb == Range(nb, nmo)
    ensures oa + Shift(ob, nmo) + va + Shift(vb, nmo) == ColumnOrder(na, nb, nmo)
  {
    ShiftRange(0, nb, nmo);
    ShiftRange(nb, nmo, nmo);
  }

  lemma ShiftRange(lo: nat, hi: nat, n: nat)
    requires lo <= hi
    ensures Shift(Range(lo, hi), n) == Range(lo + n, hi + n)
  {
  }

  /** Without aufbau order the source's re-partition puts a virtual column among the first
      `nocca + noccb`: for alpha occupations (1, 0, 1) and beta (1, 0, 0), column 1 (an alpha
      virtual) lands in the occupied part. */
  lemma ColumnOrderNonAufbauCounterexample()
    ensures var occA, occB := [1.0, 0.0, 1.0], [1.0, 0.0, 0.0];
            && |Where(occA, Positive)| == 2 && |Where(occB, Positive)| == 1
            && ColumnOrder(2, 1, 3)[1] == 1
            && !IsOccupiedColumn(occA, occB, ColumnOrder(2, 1, 3)[1])
            && IsOccupiedColumn(occA, occB, 2)
  {
    var occA, occB := [1.0, 0.0, 1.0], [1.0, 0.0, 0.0];
    assert occA[..2] == [1.0, 0.0] && occA[..2][..1] == [1.0];
    assert occB[..2] == [1.0, 0.0] && occB[..2][..1] == [1.0];
  }

  /** `mo = block_diag(C_alpha, C_beta) @ expmat(dx - dx.T)`, columns then re-partitioned by the
      fixed slices of `ColumnOrder`, counting `nocca` and `noccb` from the occupations.
      `expmat` is a parameter; an exponential of the wrong shape makes numpy.dot raise. */
  function Rotate(ca: Matrix, cb: Matrix, occA: seq<real>, occB: seq<real>, v: seq<real>,
                  expmat: Matrix -> Matrix): (r: Result<Matrix>)
    requires ValidOccupations(occA, occB) && |v| == CrossDim(occA, occB)
    requires IsMatrix(ca, |ca|, |occA|) && IsMatrix(cb, |cb|, |occB|)
    ensures var n := 2 * |occA|;
            r.Success? <==> IsMatrix(expmat(Antisymmetrize(Generator(occA, occB, v), n)), n, n)
    ensures r.Success? ==> IsMatrix(r.value, |ca| + |cb|, 2 * |occA|)
    ensures r.Success? ==>
              var n := 2 * |occA|;
              var u := expmat(Antisymmetrize(Generator(occA, occB, v), n));
              var mo := BlockDiag(ca, cb, |ca|, |occA|, |cb|, |occB|);
              var order := ColumnOrder(|Where(occA, Positive)|, |Where(occB, Positive)|, |occA|);
              forall i, k :: 0 <= i < |ca| + |cb| && 0 <= k < n ==>
                r.value[i][k] == Dot(mo[i], Column(u, n, n, order[k]))
  {
    var n := 2 * |occA|;
    var u := expmat(Antisymmetrize(Generator(occA, occB, v), n));
    if !IsMatrix(u, n, n) then Failure(ShapeMismatch)
    else
      var rows := |ca| + |cb|;
      var mo := BlockDiag(ca, cb, |ca|, |occA|, |cb|, |occB|);
      Success(SelectColumns(MatMul(mo, u, rows, n, n), rows, n,
                            ColumnOrder(|Where(occA, Positive)|, |Where(occB, Positive)|, |occA|)))
  }

  /** Under aufbau order the rotated orbitals come out occupied-first: column `k` is the rotated
      column `OccupiedFirstOrder[k]`, so the first `nocca + noccb` are the occupied spin orbitals. */
  lemma RotateAufbau(ca: Matrix, cb: Matrix, occA: seq<real>, occB: seq<real>, v: seq<real>,
                     expmat: Matrix -> Matrix)
    requires |occA| == |occB| && Aufbau(occA) && Aufbau(occB) && |v| == CrossDim(occA, occB)
    requires IsMatrix(ca, |ca|, |occA|) && IsMatrix(cb, |cb|, |occB|)
    ensures ValidOccupations(occA, occB)
    ensures var r := Rotate(ca, cb, occA, occB, v, expmat);
            r.Success? ==>
              var n := 2 * |occA|;
              var u := expmat(Antisymmetrize(Generator(occA, occB, v), n));
              var mo := BlockDiag(ca, cb, |ca|, |occA|, |cb|, |occB|);
              forall i, k :: 0 <= i < |ca| + |cb| && 0 <= k < n ==>
                r.value[i][k] == Dot(mo[i], Column(u, n, n, OccupiedFirstOrder(occA, occB)[k]))
  {
    ColumnOrderAufbau(occA, occB);
  }

  /** A zero instability vector leaves the orbitals untouched up to the fixed re-partition, when
      the exponential maps the zero generator to the identity. */
  lemma RotateZeroVector(ca: Matrix, cb: Matrix, occA: seq<real>, occB: seq<real>, v: seq<real>,
                         expmat: Matrix -> Matrix)
    requires ValidOccupations(occA, occB) && |v| == CrossDim(occA, occB)
    requires IsMatrix(ca, |ca|, |occA|) && IsMatrix(cb, |cb|, |occB|)
    requires forall k :: 0 <= k < |v| ==> v[k] == 0.0
    requires expmat(ZeroMatrix(2 * |occA|)) == Identity(2 * |occA|)
    ensures Rotate(ca, cb, occA, occB, v, expmat)
            == Success(SelectColumns(BlockDiag(ca, cb, |ca|, |occA|, |cb|, |occB|), |ca| + |cb|, 2 * |occA|,
                                     ColumnOrder(|Where(occA, Positive)|, |Where(occB, Positive)|, |occA|)))
  {
    var nmo := |occA|;
    var n := 2 * nmo;
    var dx := Generator(occA, occB, v);
    var k := Antisymmetrize(dx, n);
    forall i, j | 0 <= i < n && 0 <= j < n
      ensures dx[i][j] == 0.0
    {
      ZeroVectorEntry(occA, occB, v, i, j);
    }
    assert k == ZeroMatrix(n) by {
      forall i | 0 <= i < n
        ensures k[i] == ZeroMatrix(n)[i]
      {
      }
    }
    MatMulIdentity(BlockDiag(ca, cb, |ca|, |occA|, |cb|, |occB|), |ca| + |cb|, n);
  }

  lemma ZeroVectorEntry(occA: seq<real>, occB: seq<real>, v: seq<real>, r: nat, c: nat)
    requires ValidOccupations(occA, occB) && |v| == CrossDim(occA, occB)
    requires forall k :: 0 <= k < |v| ==> v[k] == 0.0
    ensures GeneratorEntry(occA, occB, v, r, c) == 0.0
  {
    var nmo := |occA|;
    ProductNonNegative(|Where(occB, Empty)|, |Where(occA, Positive)|);
    if r < nmo && nmo <= c {
      BlockEntryZero(v, 0, Where(occA, Empty), Where(occB, Positive), r, c - nmo);
    } else if nmo <= r && c < nmo {
      BlockEntryZero(v, |Where(occA, Empty)| * |Where(occB, Positive)|, Where(occB, Empty), Where(occA, Positive), r - nmo, c);
    }
  }

  lemma BlockEntryZero(v: seq<real>, offset: nat, rows: seq<nat>, cols: seq<nat>, r: nat, c: nat)
    requires offset + |rows| * |cols| <= |v|
    requires forall k :: 0 <= k < |v| ==> v[k] == 0.0
    ensures BlockEntry(v, offset, rows, cols, r, c) == 0.0
  {
    var a, i := Position(rows, r), Position(cols, c);
    if a < |rows| && i < |cols| {
      RowMajor(a, i, |rows|, |cols|);
      assert v[offset + a * |cols| + i] == 0.0;
    }
  }
}
