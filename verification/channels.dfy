/** The stability channels of pyscf/scf/stability.py: for each reference type, the problem
    handed to the Davidson solver (a parameter here), the verdict read from its lowest root,
    and the orbitals handed back. */
module Channels {
  import opened Outcomes
  import opened LinAlg
  import opened Partition
  import opened VirOcc
  import opened Davidson
  import opened UhfToGhf

  /** The orbitals a channel hands back: one coefficient matrix, or an (alpha, beta) pair. */
  datatype Orbitals = Coeff(c: Matrix) | SpinPair(alpha: Matrix, beta: Matrix)

  /** `(mo, stable)` of one channel. */
  datatype ChannelResult = ChannelResult(mo: Orbitals, stable: bool)

  /** What a `newton_ah.gen_g_hop_*` builder returns: the orbital gradient, the Hessian-vector
      product and the Hessian diagonal. */
  datatype GHop = GHop(g: seq<real>, hop: seq<real> -> seq<real>, hdiag: seq<real>)

  /** The code the channels call but this model does not contain: lib.davidson, `_rotate_mo`
      (unpack_uniq_var, expmat and a matrix product) and newton_ah.expmat. */
  datatype Oracles = Oracles(
    solve: SolverCall -> Spectrum,
    rotate: (Matrix, seq<real>, seq<real>) -> Matrix,
    expmat: Matrix -> Matrix)

  // ---------------------------------------------------------------------------------------
  // Internal channels

  /** The solver call of an internal channel: `hdiag *= 2`, the floored preconditioner on it,
      `hessian_x = hop(x).real * 2` and the gradient-driven initial guess. */
  function InternalCall(gh: GHop, withSymmetry: bool, tol: real, nroots: nat): (r: Result<SolverCall>)
    ensures r.Success? <==> |gh.g| == |gh.hdiag| && (withSymmetry || |gh.hdiag| > 0)
    ensures r.Success? ==> r.value.op == Doubled(gh.hop) && r.value.tol == tol && r.value.nroots == nroots
    ensures r.Success? ==> |r.value.precond.hdiag| == |gh.hdiag|
    ensures r.Success? ==> forall i :: 0 <= i < |gh.hdiag| ==> r.value.precond.hdiag[i] == 2.0 * gh.hdiag[i]
    ensures r.Success? ==> Success(r.value.guess) == InternalGuess(gh.g, r.value.precond.hdiag, withSymmetry)
  {
    var hdiag := Scale(2.0, gh.hdiag);
    var x0 :- InternalGuess(gh.g, hdiag, withSymmetry);
    Success(SolverCall(Doubled(gh.hop), Preconditioner(hdiag), x0, tol, nroots))
  }

  /** rhf_internal, rohf_internal and the internal half of ghf_real: one solve; a stable
      reference keeps its coefficients, an unstable one is rotated along the lowest root. */
  function SameReferenceInternal(c: Matrix, occ: seq<real>, gh: GHop, withSymmetry: bool, tol: real, nroots: nat,
                                 oracles: Oracles): (r: Result<ChannelResult>)
    ensures r.Success? <==> InternalCall(gh, withSymmetry, tol, nroots).Success?
    ensures r.Success? ==>
              var root := Lowest(oracles.solve(InternalCall(gh, withSymmetry, tol, nroots).value));
              && (r.value.stable <==> InstabilityThreshold <= root.value)
              && (r.value.stable ==> r.value.mo == Coeff(c))
              && (!r.value.stable ==> r.value.mo == Coeff(oracles.rotate(c, occ, root.vector)))
  {
    var call :- InternalCall(gh, withSymmetry, tol, nroots);
    var root := Lowest(oracles.solve(call));
    if IsStable(root.value) then Success(ChannelResult(Coeff(c), true))
    else Success(ChannelResult(Coeff(oracles.rotate(c, occ, root.vector)), false))
  }

  /** Python's `(v[:k], v[k:])`: slicing clamps a bound past the end. */
  function SplitAt(v: seq<real>, k: nat): (parts: (seq<real>, seq<real>))
    ensures parts.0 + parts.1 == v
    ensures |parts.0| == if k <= |v| then k else |v|
  {
    var m := if k <= |v| then k else |v|;
    (v[..m], v[m..])
  }

  /** uhf_internal: an unstable root is split after `nocca * nvira` entries, the alpha part
      rotating the alpha orbitals and the rest the beta orbitals. */
  function UhfInternal(ca: Matrix, cb: Matrix, occA: seq<real>, occB: seq<real>, gh: GHop, withSymmetry: bool,
                       tol: real, nroots: nat, oracles: Oracles): (r: Result<ChannelResult>)
    ensures r.Success? <==> InternalCall(gh, withSymmetry, tol, nroots).Success?
    ensures r.Success? ==>
              var root := Lowest(oracles.solve(InternalCall(gh, withSymmetry, tol, nroots).value));
              var k := |Where(occA, Positive)| * |Where(occA, Empty)|;
              && (r.value.stable <==> InstabilityThreshold <= root.value)
              && (r.value.stable ==> r.value.mo == SpinPair(ca, cb))
              && (!r.value.stable ==>
                    exists va, vb :: va + vb == root.vector && |va| == (if k <= |root.vector| then k else |root.vector|)
                                  && r.value.mo == SpinPair(oracles.rotate(ca, occA, va), oracles.rotate(cb, occB, vb)))
  {
    var call :- InternalCall(gh, withSymmetry, tol, nroots);
    var root := Lowest(oracles.solve(call));
    if IsStable(root.value) then Success(ChannelResult(SpinPair(ca, cb), true))
    else
      var parts := SplitAt(root.vector, |Where(occA, Positive)| * |Where(occA, Empty)|);
      Success(ChannelResult(SpinPair(oracles.rotate(ca, occA, parts.0), oracles.rotate(cb, occB, parts.1)), false))
  }

  // ---------------------------------------------------------------------------------------
  // External problems

  /** `x[forbid] = 0` when a symmetry mask is in force, `x` otherwise. */
  function MaskOpt(x: seq<real>, forbid: Option<seq<bool>>): (y: seq<real>)
    requires forbid.Some? ==> |forbid.value| == |x|
    ensures |y| == |x|
    ensures forall k :: 0 <= k < |x| ==> y[k] == (if forbid.Some? && forbid.value[k] then 0.0 else x[k])
  {
    match forbid
    case None => x
    case Some(m) => Mask(x, m)
  }

  /** One vir x occ block of an external problem: the virtual and occupied orbital indices, the
      MO Fock diagonals they are read from and, when symmetry is in force, the orbital symmetry
      labels of the virtual and of the occupied side. */
  datatype PairBlock = PairBlock(vir: seq<nat>, occ: seq<nat>, fVir: seq<real>, fOcc: seq<real>,
                                 sym: Option<(seq<int>, seq<int>)>)
  {
    predicate Valid() {
      && (forall a :: 0 <= a < |vir| ==> vir[a] < |fVir|)
      && (forall i :: 0 <= i < |occ| ==> occ[i] < |fOcc|)
      && (sym.Some? ==>
            && (forall a :: 0 <= a < |vir| ==> vir[a] < |sym.value.0|)
            && (forall i :: 0 <= i < |occ| ==> occ[i] < |sym.value.1|))
    }

    function Size(): nat {
      |vir| * |occ|
    }

    /** `sym_forbid` of the block, raveled, when symmetry is in force. */
    function Forbid(): (f: Option<seq<bool>>)
      requires Valid()
      ensures f.Some? <==> sym.Some?
      ensures f.Some? ==> |f.value| == Size()
    {
      if sym.Some? then Some(SymForbid(sym.value.0, vir, sym.value.1, occ)) else None
    }

    /** The block's Hessian diagonal: orbital-energy gaps, zero where symmetry forbids the pair. */
    function Diagonal(): (h: seq<real>)
      requires Valid()
      ensures |h| == Size()
    {
      MaskOpt(OrbitalGap(fVir, vir, fOcc, occ), Forbid())
    }
  }

  /** Entry `(a, i)` of a block diagonal is the gap `f_vir[vir[a]] - f_occ[occ[i]]`, or zero when
      symmetry is in force and the two orbitals carry different labels. */
  lemma DiagonalEntry(b: PairBlock, a: nat, i: nat)
    requires b.Valid() && a < |b.vir| && i < |b.occ|
    ensures a * |b.occ| + i < b.Size()
    ensures b.Diagonal()[a * |b.occ| + i]
            == if b.sym.Some? && b.sym.value.0[b.vir[a]] != b.sym.value.1[b.occ[i]] then 0.0
               else b.fVir[b.vir[a]] - b.fOcc[b.occ[i]]
  {
    OrbitalGapEntry(b.fVir, b.vir, b.fOcc, b.occ, a, i);
    if b.sym.Some? {
      SymForbidEntry(b.sym.value.0, b.vir, b.sym.value.1, b.occ, a, i);
    }
  }

  /** An external solve's ingredients: trial-vector dimension, symmetry mask and diagonal. */
  datatype ExternalProblem = ExternalProblem(dim: nat, forbid: Option<seq<bool>>, hdiag: seq<real>) {
    predicate Valid() {
      && |hdiag| == dim
      && (forbid.Some? ==> |forbid.value| == dim)
    }
  }

  function SingleBlock(b: PairBlock): (p: ExternalProblem)
    requires b.Valid()
    ensures p.Valid() && p.dim == b.Size() && p.forbid == b.Forbid() && p.hdiag == b.Diagonal()
  {
    ExternalProblem(b.Size(), b.Forbid(), b.Diagonal())
  }

  /** Two blocks side by side (`numpy.hstack` of the raveled blocks); the diagonal is masked
      after stacking. */
  function TwoBlocks(b1: PairBlock, b2: PairBlock): (p: ExternalProblem)
    requires b1.Valid() && b2.Valid() && (b1.sym.Some? <==> b2.sym.Some?)
    ensures p.Valid() && p.dim == b1.Size() + b2.Size()
    ensures p.forbid.Some? <==> b1.sym.Some?
    ensures forall k :: 0 <= k < p.dim && p.forbid.Some? && p.forbid.value[k] ==> p.hdiag[k] == 0.0
  {
    var forbid := if b1.sym.Some? then Some(b1.Forbid().value + b2.Forbid().value) else None;
    ExternalProblem(b1.Size() + b2.Size(), forbid,
                    MaskOpt(OrbitalGap(b1.fVir, b1.vir, b1.fOcc, b1.occ) + OrbitalGap(b2.fVir, b2.vir, b2.fOcc, b2.occ), forbid))
  }

  /** Masking the stacked diagonal is masking each block on its own: the stacked problem is the
      two block problems side by side. */
  lemma TwoBlocksSplit(b1: PairBlock, b2: PairBlock)
    requires b1.Valid() && b2.Valid() && (b1.sym.Some? <==> b2.sym.Some?)
    ensures TwoBlocks(b1, b2).hdiag == b1.Diagonal() + b2.Diagonal()
    ensures TwoBlocks(b1, b2).forbid.Some? ==> TwoBlocks(b1, b2).forbid.value == b1.Forbid().value + b2.Forbid().value
  {
    var p := TwoBlocks(b1, b2);
    var d := b1.Diagonal() + b2.Diagonal();
    forall k | 0 <= k < p.dim
      ensures p.hdiag[k] == d[k]
    {
      if k < b1.Size() {
        assert d[k] == b1.Diagonal()[k];
      } else {
        assert d[k] == b2.Diagonal()[k - b1.Size()];
      }
    }
  }

  /** Symmetry labels in force: `with_symmetry and mol.symmetry`. */
  function Labels(orbsym: Option<seq<int>>, withSymmetry: bool): Option<seq<int>> {
    if withSymmetry then orbsym else None
  }

  /** `_gen_hop_rhf_external` (occupied rule `== 2`) and `_gen_hop_ghf_real2complex` (rule
      `== 1`): one vir x occ block over a single set of orbitals. */
  function RestrictedBlock(occ: seq<real>, rule: Rule, fockDiag: seq<real>, orbsym: Option<seq<int>>,
                           withSymmetry: bool): (b: PairBlock)
    requires |fockDiag| == |occ|
    requires orbsym.Some? ==> |orbsym.value| == |occ|
    ensures b.Valid()
    ensures b.vir == Where(occ, Empty) && b.occ == Where(occ, rule)
    ensures b.sym.Some? <==> withSymmetry && orbsym.Some?
    ensures b.sym.Some? ==> b.sym.value == (orbsym.value, orbsym.value)
    ensures b.fVir == fockDiag && b.fOcc == fockDiag
  {
    var labels := Labels(orbsym, withSymmetry);
    PairBlock(Where(occ, Empty), Where(occ, rule), fockDiag, fockDiag,
              if labels.Some? then Some((labels.value, labels.value)) else None)
  }

  /** UHF orbital symmetry labels, one sequence per spin. */
  datatype SpinLabels = SpinLabels(alpha: seq<int>, beta: seq<int>)

  /** The four UHF index lists and the per-spin Fock diagonals. */
  datatype SpinOrbitals = SpinOrbitals(occA: seq<real>, occB: seq<real>, fockA: seq<real>, fockB: seq<real>,
                                       orbsym: Option<SpinLabels>)
  {
    predicate Valid() {
      && ValidOccupations(occA, occB)
      && |fockA| == |occA| && |fockB| == |occB|
      && (orbsym.Some? ==> |orbsym.value.alpha| == |occA| && |orbsym.value.beta| == |occB|)
    }

    /** A block pairing the virtual orbitals of one spin with the occupied orbitals of a spin. */
    function Block(virAlpha: bool, occAlpha: bool, withSymmetry: bool): (b: PairBlock)
      requires Valid()
      ensures b.Valid()
      ensures b.vir == Where(if virAlpha then occA else occB, Empty)
      ensures b.occ == Where(if occAlpha then occA else occB, Positive)
      ensures b.fVir == (if virAlpha then fockA else fockB) && b.fOcc == (if occAlpha then fockA else fockB)
      ensures b.sym.Some? <==> withSymmetry && orbsym.Some?
      ensures b.sym.Some? ==>
                b.sym.value == (if virAlpha then orbsym.value.alpha else orbsym.value.beta,
                                if occAlpha then orbsym.value.alpha else orbsym.value.beta)
    {
      var vir := Where(if virAlpha then occA else occB, Empty);
      var occ := Where(if occAlpha then occA else occB, Positive);
      var sym := if withSymmetry && orbsym.Some? then
                   Some((if virAlpha then orbsym.value.alpha else orbsym.value.beta,
                         if occAlpha then orbsym.value.alpha else orbsym.value.beta))
                 else None;
      PairBlock(vir, occ, if virAlpha then fockA else fockB, if occAlpha then fockA else fockB, sym)
    }
  }

  /** UHF real -> complex problem: the alpha->alpha then the beta->beta blocks. */
  function UhfRealToComplexProblem(s: SpinOrbitals, withSymmetry: bool): (p: ExternalProblem)
    requires s.Valid()
    ensures p.Valid()
    ensures p.dim == |Where(s.occA, Empty)| * |Where(s.occA, Positive)| + |Where(s.occB, Empty)| * |Where(s.occB, Positive)|
  {
    TwoBlocks(s.Block(true, true, withSymmetry), s.Block(false, false, withSymmetry))
  }

  /** UHF -> GHF problem: the alpha-vir x beta-occ then the beta-vir x alpha-occ blocks, whose
      dimension is the length the generator scatters. */
  function UhfToGhfProblem(s: SpinOrbitals, withSymmetry: bool): (p: ExternalProblem)
    requires s.Valid()
    ensures p.Valid()
    ensures p.dim == CrossDim(s.occA, s.occB)
  {
    TwoBlocks(s.Block(true, false, withSymmetry), s.Block(false, true, withSymmetry))
  }

  /** Entries of the UHF -> GHF diagonal: the alpha->beta gap `fockA[viridxa[a]] - fockB[occidxb[i]]`
      at `a * noccb + i`, zero when the alpha and beta labels differ under symmetry. */
  lemma UhfToGhfDiagonalEntry(s: SpinOrbitals, withSymmetry: bool, a: nat, i: nat)
    requires s.Valid() && a < |Where(s.occA, Empty)| && i < |Where(s.occB, Positive)|
    ensures a * |Where(s.occB, Positive)| + i < UhfToGhfProblem(s, withSymmetry).dim
    ensures UhfToGhfProblem(s, withSymmetry).hdiag[a * |Where(s.occB, Positive)| + i]
            == if withSymmetry && s.orbsym.Some?
                  && s.orbsym.value.alpha[Where(s.occA, Empty)[a]] != s.orbsym.value.beta[Where(s.occB, Positive)[i]]
               then 0.0
               else s.fockA[Where(s.occA, Empty)[a]] - s.fockB[Where(s.occB, Positive)[i]]
  {
    TwoBlocksFirstEntry(s.Block(true, false, withSymmetry), s.Block(false, true, withSymmetry), a, i);
  }

  /** Entry `(a, i)` of the first of two stacked blocks sits at `a * |occ| + i` of the stacked
      diagonal. */
  /** The beta -> alpha block follows at offset `nvira * noccb`: its entry `(b, j)` is
      `fockB[viridxb[b]] - fockA[occidxa[j]]`, zero when the beta and alpha labels differ. */
  lemma UhfToGhfDiagonalSecondEntry(s: SpinOrbitals, withSymmetry: bool, b: nat, j: nat)
    requires s.Valid() && b < |Where(s.occB, Empty)| && j < |Where(s.occA, Positive)|
    ensures var offset := |Where(s.occA, Empty)| * |Where(s.occB, Positive)|;
            offset + b * |Where(s.occA, Positive)| + j < UhfToGhfProblem(s, withSymmetry).dim
    ensures var offset := |Where(s.occA, Empty)| * |Where(s.occB, Positive)|;
            UhfToGhfProblem(s, withSymmetry).hdiag[offset + b * |Where(s.occA, Positive)| + j]
            == if withSymmetry && s.orbsym.Some?
                  && s.orbsym.value.beta[Where(s.occB, Empty)[b]] != s.orbsym.value.alpha[Where(s.occA, Positive)[j]]
               then 0.0
               else s.fockB[Where(s.occB, Empty)[b]] - s.fockA[Where(s.occA, Positive)[j]]
  {
    TwoBlocksSecondEntry(s.Block(true, false, withSymmetry), s.Block(false, true, withSymmetry), b, j);
  }

  lemma TwoBlocksSecondEntry(b1: PairBlock, b2: PairBlock, b: nat, j: nat)
    requires b1.Valid() && b2.Valid() && (b1.sym.Some? <==> b2.sym.Some?)
    requires b < |b2.vir| && j < |b2.occ|
    ensures |b1.vir| * |b1.occ| + b * |b2.occ| + j < TwoBlocks(b1, b2).dim
    ensures TwoBlocks(b1, b2).hdiag[|b1.vir| * |b1.occ| + b * |b2.occ| + j]
            == if b2.sym.Some? && b2.sym.value.0[b2.vir[b]] != b2.sym.value.1[b2.occ[j]] then 0.0
               else b2.fVir[b2.vir[b]] - b2.fOcc[b2.occ[j]]
  {
    var k := b * |b2.occ| + j;
    DiagonalEntry(b2, b, j);
    TwoBlocksSplit(b1, b2);
    var d1, d2 := b1.Diagonal(), b2.Diagonal();
    assert (d1 + d2)[|d1| + k] == d2[k];
  }

  lemma TwoBlocksFirstEntry(b1: PairBlock, b2: PairBlock, a: nat, i: nat)
    requires b1.Valid() && b2.Valid() && (b1.sym.Some? <==> b2.sym.Some?)
    requires a < |b1.vir| && i < |b1.occ|
    ensures a * |b1.occ| + i < TwoBlocks(b1, b2).dim
    ensures TwoBlocks(b1, b2).hdiag[a * |b1.occ| + i]
            == if b1.sym.Some? && b1.sym.value.0[b1.vir[a]] != b1.sym.value.1[b1.occ[i]] then 0.0
               else b1.fVir[b1.vir[a]] - b1.fOcc[b1.occ[i]]
  {
    var k := a * |b1.occ| + i;
    DiagonalEntry(b1, a, i);
    TwoBlocksSplit(b1, b2);
    var d1, d2 := b1.Diagonal(), b2.Diagonal();
    assert (d1 + d2)[k] == d1[k];
  }

  // ---------------------------------------------------------------------------------------
  // External channels

  /** The solver call of an external channel: the floored preconditioner on the problem's
      diagonal and the `1 / hdiag` guess on entries above 1e-5. */
  function ExternalCall(p: ExternalProblem, product: seq<real> -> seq<real>, withSymmetry: bool, tol: real,
                        nroots: nat): (r: Result<SolverCall>)
    requires p.Valid()
    ensures r.Success? <==> withSymmetry || p.dim > 0
    ensures r.Success? ==> r.value.op == Projected(p.dim, product, p.forbid)
    ensures r.Success? ==> r.value.precond == Preconditioner(p.hdiag) && r.value.tol == tol && r.value.nroots == nroots
    ensures r.Success? ==> Success(r.value.guess) == ExternalGuess(p.hdiag, withSymmetry)
  {
    var x0 :- ExternalGuess(p.hdiag, withSymmetry);
    Success(SolverCall(Projected(p.dim, product, p.forbid), Preconditioner(p.hdiag), x0, tol, nroots))
  }

  /** The second RHF external solve: the RHF -> UHF product on the same diagonal, seeded with
      the lowest real -> complex eigenvector (`x0 = v1`). */
  function RhfToUhfCall(p: ExternalProblem, realToComplex: seq<real> -> seq<real>, toUnrestricted: seq<real> -> seq<real>,
                        withSymmetry: bool, tol: real, nroots: nat, solve: SolverCall -> Spectrum): (r: Result<SolverCall>)
    requires p.Valid()
    ensures r.Success? <==> withSymmetry || p.dim > 0
    ensures r.Success? ==> r.value.op == Projected(p.dim, toUnrestricted, p.forbid)
    ensures r.Success? ==> r.value.precond == Preconditioner(p.hdiag) && r.value.tol == tol && r.value.nroots == nroots
    ensures r.Success? ==>
              r.value.guess == Lift(Lowest(solve(ExternalCall(p, realToComplex, withSymmetry, tol, nroots).value)).vector)
  {
    var first :- ExternalCall(p, realToComplex, withSymmetry, tol, nroots);
    var v1 := Lowest(solve(first));
    Success(SolverCall(Projected(p.dim, toUnrestricted, p.forbid), Preconditioner(p.hdiag), Lift(v1.vector), tol, nroots))
  }

  /** rhf_external: the verdict is the RHF -> UHF one; both spins keep the RHF coefficients when
      stable, and only the alpha spin is rotated when not. */
  function RhfExternal(c: Matrix, occ: seq<real>, fockDiag: seq<real>, orbsym: Option<seq<int>>, withSymmetry: bool,
                       realToComplex: seq<real> -> seq<real>, toUnrestricted: seq<real> -> seq<real>,
                       tol: real, nroots: nat, oracles: Oracles): (r: Result<ChannelResult>)
    requires |fockDiag| == |occ|
    requires orbsym.Some? ==> |orbsym.value| == |occ|
    ensures r.Success? <==> withSymmetry || |Where(occ, Empty)| * |Where(occ, Doubly)| > 0
    ensures r.Success? ==>
              var p := SingleBlock(RestrictedBlock(occ, Doubly, fockDiag, orbsym, withSymmetry));
              var root := Lowest(oracles.solve(RhfToUhfCall(p, realToComplex, toUnrestricted, withSymmetry, tol, nroots, oracles.solve).value));
              && (r.value.stable <==> InstabilityThreshold <= root.value)
              && (r.value.stable ==> r.value.mo == SpinPair(c, c))
              && (!r.value.stable ==> r.value.mo == SpinPair(oracles.rotate(c, occ, root.vector), c))
  {
    var p := SingleBlock(RestrictedBlock(occ, Doubly, fockDiag, orbsym, withSymmetry));
    var second :- RhfToUhfCall(p, realToComplex, toUnrestricted, withSymmetry, tol, nroots, oracles.solve);
    var root := Lowest(oracles.solve(second));
    if IsStable(root.value) then Success(ChannelResult(SpinPair(c, c), true))
    else Success(ChannelResult(SpinPair(oracles.rotate(c, occ, root.vector), c), false))
  }

  /** With symmetry in force, every RHF external solve sees zero at the forbidden pairs, both in
      the diagonal and in the product, whatever the trial vector's forbidden entries hold. */
  lemma RhfExternalMasked(occ: seq<real>, fockDiag: seq<real>, orbsym: seq<int>, product: seq<real> -> seq<real>,
                          x: seq<real>, y: seq<real>)
    requires |fockDiag| == |occ| && |orbsym| == |occ|
    requires var p := SingleBlock(RestrictedBlock(occ, Doubly, fockDiag, Some(orbsym), true));
             |x| == p.dim && |y| == p.dim && AgreeOnAllowed(x, y, p.forbid.value)
    ensures var p := SingleBlock(RestrictedBlock(occ, Doubly, fockDiag, Some(orbsym), true));
            && ApplyOperator(Projected(p.dim, product, p.forbid), x) == ApplyOperator(Projected(p.dim, product, p.forbid), y)
            && forall k :: 0 <= k < p.dim && p.forbid.value[k] ==> p.hdiag[k] == 0.0
  {
    var p := SingleBlock(RestrictedBlock(occ, Doubly, fockDiag, Some(orbsym), true));
    ProjectedIgnoresForbidden(Projected(p.dim, product, p.forbid), x, y);
  }

  /** Everything uhf_external needs besides the coefficients. */
  predicate UhfExternalSucceeds(ca: Matrix, cb: Matrix, s: SpinOrbitals, withSymmetry: bool,
                                toGeneralized: seq<real> -> seq<real>, tol: real, nroots: nat, oracles: Oracles)
    requires s.Valid()
  {
    var p1, p2 := UhfRealToComplexProblem(s, withSymmetry), UhfToGhfProblem(s, withSymmetry);
    && (withSymmetry || (p1.dim > 0 && p2.dim > 0))
    && var root := Lowest(oracles.solve(ExternalCall(p2, toGeneralized, withSymmetry, tol, nroots).value));
       (InstabilityThreshold <= root.value
        || (|root.vector| == CrossDim(s.occA, s.occB)
            && IsMatrix(oracles.expmat(Antisymmetrize(Generator(s.occA, s.occB, root.vector), 2 * |s.occA|)),
                        2 * |s.occA|, 2 * |s.occA|)))
  }

  /** uhf_external: a real -> complex solve whose verdict is only logged, then the UHF -> GHF
      solve; the orbitals come back as the block-diagonal GHF coefficients, rotated and
      re-partitioned by the fixed slices when unstable. */
  function UhfExternal(ca: Matrix, cb: Matrix, s: SpinOrbitals, withSymmetry: bool,
                       realToComplex: seq<real> -> seq<real>, toGeneralized: seq<real> -> seq<real>,
                       tol: real, nroots: nat, oracles: Oracles): (r: Result<ChannelResult>)
    requires s.Valid() && IsMatrix(ca, |ca|, |s.occA|) && IsMatrix(cb, |cb|, |s.occB|)
    ensures r.Success? <==> UhfExternalSucceeds(ca, cb, s, withSymmetry, toGeneralized, tol, nroots, oracles)
    ensures r.Success? ==>
              var p2 := UhfToGhfProblem(s, withSymmetry);
              var root := Lowest(oracles.solve(ExternalCall(p2, toGeneralized, withSymmetry, tol, nroots).value));
              && (r.value.stable <==> InstabilityThreshold <= root.value)
              && (r.value.stable ==> r.value.mo == Coeff(BlockDiag(ca, cb, |ca|, |s.occA|, |cb|, |s.occB|)))
              && (!r.value.stable ==>
                    r.value.mo == Coeff(Rotate(ca, cb, s.occA, s.occB, root.vector, oracles.expmat).value))
  {
    var p1 := UhfRealToComplexProblem(s, withSymmetry);
    var _ :- ExternalCall(p1, realToComplex, withSymmetry, tol, nroots);
    var p2 := UhfToGhfProblem(s, withSymmetry);
    var call :- ExternalCall(p2, toGeneralized, withSymmetry, tol, nroots);
    var root := Lowest(oracles.solve(call));
    if IsStable(root.value) then
      Success(ChannelResult(Coeff(BlockDiag(ca, cb, |ca|, |s.occA|, |cb|, |s.occB|)), true))
    else if |root.vector| != CrossDim(s.occA, s.occB) then Failure(ShapeMismatch)
    else
      var mo :- Rotate(ca, cb, s.occA, s.occB, root.vector, oracles.expmat);
      Success(ChannelResult(Coeff(mo), false))
  }

  /** ghf_real: the internal solve decides the result; the real -> complex solve after it can
      only make the call fail, never change the orbitals or the verdict. */
  function GhfReal(c: Matrix, occ: seq<real>, gh: GHop, fockDiag: seq<real>, orbsym: Option<seq<int>>,
                   withSymmetry: bool, realToComplex: seq<real> -> seq<real>, tol: real, nroots: nat,
                   oracles: Oracles): (r: Result<ChannelResult>)
    requires |fockDiag| == |occ|
    requires orbsym.Some? ==> |orbsym.value| == |occ|
    ensures r.Success? <==>
              && SameReferenceInternal(c, occ, gh, withSymmetry, tol, nroots, oracles).Success?
              && (withSymmetry || |Where(occ, Empty)| * |Where(occ, Singly)| > 0)
    ensures r.Success? ==> r == SameReferenceInternal(c, occ, gh, withSymmetry, tol, nroots, oracles)
  {
    var result :- SameReferenceInternal(c, occ, gh, withSymmetry, tol, nroots, oracles);
    var p := SingleBlock(RestrictedBlock(occ, Singly, fockDiag, orbsym, withSymmetry));
    var _ :- ExternalCall(p, realToComplex, withSymmetry, tol, nroots);
    Success(result)
  }

  /** ghf_complex: symmetry is always kept, so the `1 / hdiag` guess has no argmin override and
      the channel cannot fail. */
  function GhfComplex(c: Matrix, occ: seq<real>, hop: seq<real> -> seq<real>, hdiag: seq<real>, tol: real, nroots: nat,
                      oracles: Oracles): (r: Result<ChannelResult>)
    ensures r.Success?
    ensures var root := Lowest(oracles.solve(SolverCall(Direct(hop), Preconditioner(hdiag),
                                                        ExternalGuess(hdiag, true).value, tol, nroots)));
            && (r.value.stable <==> InstabilityThreshold <= root.value)
            && (r.value.stable ==> r.value.mo == Coeff(c))
            && (!r.value.stable ==> r.value.mo == Coeff(oracles.rotate(c, occ, root.vector)))
  {
    var x0 := ExternalGuess(hdiag, true).value;
    var root := Lowest(oracles.solve(SolverCall(Direct(hop), Preconditioner(hdiag), x0, tol, nroots)));
    if IsStable(root.value) then Success(ChannelResult(Coeff(c), true))
    else Success(ChannelResult(Coeff(oracles.rotate(c, occ, root.vector)), false))
  }

  // ---------------------------------------------------------------------------------------
  // DHF

  /** dhf_stability as written: the argmin override is always applied, and the eigenvalues are
      compared without taking the lowest root, so with several roots `e < -1e-5` is an array
      comparison whose truth value numpy refuses. */
  function DhfAsWritten(c: Matrix, occ: seq<real>, gh: GHop, tol: real, nroots: nat, oracles: Oracles): (r: Result<ChannelResult>)
    ensures r.Success? <==>
              && InternalCall(gh, false, tol, nroots).Success?
              && (nroots == 1 || |oracles.solve(InternalCall(gh, false, tol, nroots).value)| == 1)
    ensures InternalCall(gh, false, tol, nroots).Success? && nroots != 1
            && |oracles.solve(InternalCall(gh, false, tol, nroots).value)| > 1
            ==> r == Failure(AmbiguousTruthValue)
    ensures r.Success? ==>
              var root := Lowest(oracles.solve(InternalCall(gh, false, tol, nroots).value));
              && (r.value.stable <==> InstabilityThreshold <= root.value)
              && (r.value.stable ==> r.value.mo == Coeff(c))
              && (!r.value.stable ==> r.value.mo == Coeff(oracles.rotate(c, occ, root.vector)))
  {
    var call :- InternalCall(gh, false, tol, nroots);
    var spectrum := oracles.solve(call);
    if nroots != 1 && |spectrum| > 1 then Failure(AmbiguousTruthValue)
    else
      var root := spectrum[0];
      if IsStable(root.value) then Success(ChannelResult(Coeff(c), true))
      else Success(ChannelResult(Coeff(oracles.rotate(c, occ, root.vector)), false))
  }

  /** dhf_stability as intended: the internal channel with the symmetry-breaking guess, reading
      the lowest root like every other channel. */
  function Dhf(c: Matrix, occ: seq<real>, gh: GHop, tol: real, nroots: nat, oracles: Oracles): (r: Result<ChannelResult>)
    ensures r.Success? <==> |gh.g| == |gh.hdiag| && |gh.hdiag| > 0
    ensures r.Success? ==>
              var root := Lowest(oracles.solve(InternalCall(gh, false, tol, nroots).value));
              && (r.value.stable <==> InstabilityThreshold <= root.value)
              && (r.value.stable ==> r.value.mo == Coeff(c))
              && (!r.value.stable ==> r.value.mo == Coeff(oracles.rotate(c, occ, root.vector)))
  {
    SameReferenceInternal(c, occ, gh, false, tol, nroots, oracles)
  }

  /** Wherever the code as written returns, it returns what the intended channel does. */
  lemma DhfAsWrittenAgrees(c: Matrix, occ: seq<real>, gh: GHop, tol: real, nroots: nat, oracles: Oracles)
    ensures DhfAsWritten(c, occ, gh, tol, nroots, oracles).Success? ==>
              DhfAsWritten(c, occ, gh, tol, nroots, oracles) == Dhf(c, occ, gh, tol, nroots, oracles)
  {
  }

  /** With the default three roots and a solver that returns more than one, the code as written
      raises while the intended channel returns a verdict. */
  lemma DhfDefaultRootsCounterexample()
    ensures var gh := GHop([1.0], x => x, [1.0]);
            var oracles := Oracles(_ => [EigenPair(1.0, [1.0]), EigenPair(2.0, [0.0])], (m, _, _) => m, m => m);
            && DhfAsWritten([[1.0]], [1.0], gh, DefaultTolerance, DefaultRoots, oracles) == Failure(AmbiguousTruthValue)
            && Dhf([[1.0]], [1.0], gh, DefaultTolerance, DefaultRoots, oracles) == Success(ChannelResult(Coeff([[1.0]]), true))
  {
    var gh := GHop([1.0], x => x, [1.0]);
    assert InternalCall(gh, false, DefaultTolerance, DefaultRoots).Success?;
  }
}
