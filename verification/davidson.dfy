/** The adapter around the Davidson eigensolver (lib.davidson, not part of this model): the
    operator handed to it, the diagonal preconditioner, the initial guess, the root it reads
    back and the stability verdict drawn from that root. */
module Davidson {
  import opened Outcomes
  import opened LinAlg
  import opened VirOcc

  /** Magnitude below which a preconditioner denominator is replaced (1e-8). */
  const PreconditionerFloor: real := 0.00000001
  /** Diagonal entries above this (1e-5) seed the external-channel guess. */
  const GuessThreshold: real := 0.00001
  /** An eigenvalue below this (-1e-5) is an instability. */
  const InstabilityThreshold: real := -0.00001
  /** STAB_NROOTS: roots requested from the solver unless the caller says otherwise. */
  const DefaultRoots: nat := 3
  /** Default convergence tolerance handed to the solver (1e-4). */
  const DefaultTolerance: real := 0.0001

  function Abs(x: real): real {
    if x < 0.0 then -x else x
  }

  /** A float entry of the initial guess: numpy's `1. / 0.` is an infinity, not an error. */
  datatype Float = Finite(value: real) | Infinite

  function Lift(v: seq<real>): (x: seq<Float>)
    ensures |x| == |v|
    ensures forall i :: 0 <= i < |v| ==> x[i] == Finite(v[i])
  {
    seq(|v|, i requires 0 <= i < |v| => Finite(v[i]))
  }

  /** The diagonal preconditioner `precond(dx, e, x0)` of every stability channel. */
  datatype Preconditioner = Preconditioner(hdiag: seq<real>)

  /** `hdiagd = hdiag - e` with every entry of magnitude below 1e-8 replaced by +1e-8. */
  function Denominator(hdiag: seq<real>, e: real): (d: seq<real>)
    ensures |d| == |hdiag|
    ensures forall i :: 0 <= i < |d| ==> PreconditionerFloor <= Abs(d[i])
    ensures forall i :: 0 <= i < |d| && Abs(hdiag[i] - e) < PreconditionerFloor ==> d[i] == PreconditionerFloor
    ensures forall i :: 0 <= i < |d| && PreconditionerFloor <= Abs(hdiag[i] - e) ==> d[i] == hdiag[i] - e
  {
    seq(|hdiag|, i requires 0 <= i < |hdiag| =>
      if Abs(hdiag[i] - e) < PreconditionerFloor then PreconditionerFloor else hdiag[i] - e)
  }

  /** `dx / hdiagd`: the preconditioned residual solves the floored diagonal system. */
  function Precondition(p: Preconditioner, dx: seq<real>, e: real): (r: seq<real>)
    requires |dx| == |p.hdiag|
    ensures |r| == |dx|
    ensures forall i :: 0 <= i < |dx| ==> r[i] * Denominator(p.hdiag, e)[i] == dx[i]
  {
    var d := Denominator(p.hdiag, e);
    seq(|dx|, i requires 0 <= i < |dx| => dx[i] / d[i])
  }

  /** The Hessian-vector product handed to the solver, as a value rather than a closure. */
  datatype Operator =
      /** `hessian_x(x) = hop(x).real * 2` around a gen_g_hop_* product (internal channels) */
    | Doubled(hop: seq<real> -> seq<real>)
      /** a product handed over as built (complex GHF) */
    | Direct(hop: seq<real> -> seq<real>)
      /** an external vir-occ block product of dimension `dim`; with a symmetry mask the trial
          vector is masked on a copy before the product and the product is masked after it */
    | Projected(dim: nat, product: seq<real> -> seq<real>, forbid: Option<seq<bool>>)

  /** One application of the operator; the reshape to `(nvir, nocc)` and the boolean-mask
      assignments raise on a vector of the wrong length. */
  function ApplyOperator(op: Operator, x: seq<real>): (r: Result<seq<real>>)
    ensures op.Doubled? ==>
              && r.Success? && |r.value| == |op.hop(x)|
              && forall k :: 0 <= k < |r.value| ==> r.value[k] == 2.0 * op.hop(x)[k]
    ensures op.Direct? ==> r == Success(op.hop(x))
    ensures op.Projected? && r.Success? ==> |x| == op.dim
    ensures op.Projected? && |x| != op.dim ==> r == Failure(ShapeMismatch)
    ensures op.Projected? && op.forbid.None? && |x| == op.dim ==> r == Success(op.product(x))
    ensures op.Projected? && op.forbid.Some? ==>
              (r.Success? <==> |x| == op.dim && |op.forbid.value| == op.dim
                               && |op.product(Mask(x, op.forbid.value))| == op.dim)
    ensures op.Projected? && op.forbid.Some? && r.Success? ==>
              && |r.value| == op.dim && |op.forbid.value| == op.dim
              && (forall k :: 0 <= k < op.dim && op.forbid.value[k] ==> r.value[k] == 0.0)
              && forall k :: 0 <= k < op.dim && !op.forbid.value[k] ==>
                   r.value[k] == op.product(Mask(x, op.forbid.value))[k]
  {
    match op
    case Doubled(hop) => Success(Scale(2.0, hop(x)))
    case Direct(hop) => Success(hop(x))
    case Projected(dim, product, forbid) =>
      if |x| != dim then Failure(ShapeMismatch)
      else match forbid
        case None => Success(product(x))
        case Some(m) =>
          if |m| != dim then Failure(ShapeMismatch)
          else
            var y := product(Mask(x, m));
            if |y| != dim then Failure(ShapeMismatch) else Success(Mask(y, m))
  }

  /** With a symmetry mask, the product does not depend on the trial vector's forbidden
      entries: two trial vectors that agree on the allowed entries give the same result. */
  lemma ProjectedIgnoresForbidden(op: Operator, x: seq<real>, y: seq<real>)
    requires op.Projected? && op.forbid.Some? && |op.forbid.value| == op.dim
    requires |x| == op.dim && |y| == op.dim
    requires AgreeOnAllowed(x, y, op.forbid.value)
    ensures ApplyOperator(op, x) == ApplyOperator(op, y)
  {
    MaskProjects(x, y, op.forbid.value);
  }

  /** A trial vector populated only in symmetry-forbidden entries is mapped to the zero vector
      when the raw product is linear (maps zero to zero). */
  lemma ForbiddenOnlyGivesZero(op: Operator, x: seq<real>)
    requires op.Projected? && op.forbid.Some? && |op.forbid.value| == op.dim && |x| == op.dim
    requires forall k :: 0 <= k < op.dim && !op.forbid.value[k] ==> x[k] == 0.0
    requires op.product(Zeros(op.dim)) == Zeros(op.dim)
    ensures ApplyOperator(op, x) == Success(Zeros(op.dim))
  {
    var m := op.forbid.value;
    assert Mask(x, m) == Zeros(op.dim);
    assert Mask(Zeros(op.dim), m) == Zeros(op.dim);
  }

  /** numpy.argmin: position `k` holds a minimum and no earlier position does. */
  predicate IsFirstMin(h: seq<real>, k: nat) {
    && k < |h|
    && (forall j :: 0 <= j < |h| ==> h[k] <= h[j])
    && (forall j :: 0 <= j < k ==> h[k] < h[j])
  }

  function ArgMin(h: seq<real>): (k: nat)
    requires |h| > 0
    ensures IsFirstMin(h, k)
    decreases |h|
  {
    if |h| == 1 then 0
    else
      var k := ArgMin(h[..|h| - 1]);
      if h[|h| - 1] < h[k] then |h| - 1 else k
  }

  /** The first minimum is unique, so the argmin override hits exactly one entry. */
  lemma FirstMinUnique(h: seq<real>, k: nat, k': nat)
    requires IsFirstMin(h, k) && IsFirstMin(h, k')
    ensures k == k'
  {
    assert h[k] <= h[k'] && h[k'] <= h[k];
  }

  /** `x0[argmin(hdiag)] = 1` when `with_symmetry` is off; numpy.argmin of an empty array raises. */
  function BreakSymmetry(x0: seq<Float>, hdiag: seq<real>, withSymmetry: bool): (r: Result<seq<Float>>)
    requires |x0| == |hdiag|
    ensures r.Success? <==> withSymmetry || |hdiag| > 0
    ensures r.Failure? ==> r.error == EmptyArgMin
    ensures r.Success? ==> |r.value| == |x0|
    ensures r.Success? ==> forall i :: 0 <= i < |x0| ==>
              r.value[i] == (if !withSymmetry && IsFirstMin(hdiag, i) then Finite(1.0) else x0[i])
  {
    if withSymmetry then Success(x0)
    else if |hdiag| == 0 then Failure(EmptyArgMin)
    else
      var k := ArgMin(hdiag);
      assert forall i :: 0 <= i < |hdiag| && IsFirstMin(hdiag, i) ==> i == k by {
        forall i | 0 <= i < |hdiag| && IsFirstMin(hdiag, i)
          ensures i == k
        {
          FirstMinUnique(hdiag, i, k);
        }
      }
      Success(x0[k := Finite(1.0)])
  }

  /** Internal-channel guess: `x0[g != 0] = 1. / hdiag[g != 0]`, zero elsewhere, then the
      argmin override when symmetry breaking is allowed. */
  function InternalGuess(g: seq<real>, hdiag: seq<real>, withSymmetry: bool): (r: Result<seq<Float>>)
    ensures r.Success? <==> |g| == |hdiag| && (withSymmetry || |hdiag| > 0)
    ensures r.Success? ==> |r.value| == |hdiag|
    ensures r.Success? ==> forall i :: 0 <= i < |hdiag| && (withSymmetry || !IsFirstMin(hdiag, i)) ==>
              && (g[i] == 0.0 ==> r.value[i] == Finite(0.0))
              && (g[i] != 0.0 && hdiag[i] == 0.0 ==> r.value[i] == Infinite)
              && (g[i] != 0.0 && hdiag[i] != 0.0 ==> r.value[i] == Finite(1.0 / hdiag[i]))
    ensures r.Success? && !withSymmetry ==> forall i :: 0 <= i < |hdiag| && IsFirstMin(hdiag, i) ==> r.value[i] == Finite(1.0)
  {
    if |g| != |hdiag| then Failure(ShapeMismatch)
    else
      var x0 := seq(|g|, i requires 0 <= i < |g| =>
        if g[i] == 0.0 then Finite(0.0) else if hdiag[i] == 0.0 then Infinite else Finite(1.0 / hdiag[i]));
      BreakSymmetry(x0, hdiag, withSymmetry)
  }

  /** External-channel guess: `x0[hdiag > 1e-5] = 1. / hdiag[hdiag > 1e-5]`, zero elsewhere,
      then the argmin override when symmetry breaking is allowed. */
  function ExternalGuess(hdiag: seq<real>, withSymmetry: bool): (r: Result<seq<Float>>)
    ensures r.Success? <==> withSymmetry || |hdiag| > 0
    ensures r.Success? ==> |r.value| == |hdiag|
    ensures r.Success? ==> forall i :: 0 <= i < |hdiag| && (withSymmetry || !IsFirstMin(hdiag, i)) ==>
              && (GuessThreshold < hdiag[i] ==> r.value[i] == Finite(1.0 / hdiag[i]))
              && (hdiag[i] <= GuessThreshold ==> r.value[i] == Finite(0.0))
    ensures r.Success? && !withSymmetry ==> forall i :: 0 <= i < |hdiag| && IsFirstMin(hdiag, i) ==> r.value[i] == Finite(1.0)
    ensures r.Success? ==> forall i :: 0 <= i < |hdiag| ==> r.value[i].Finite? && r.value[i].value >= 0.0
  {
    var x0 := seq(|hdiag|, i requires 0 <= i < |hdiag| =>
      if GuessThreshold < hdiag[i] then Finite(1.0 / hdiag[i]) else Finite(0.0));
    assert forall i :: 0 <= i < |x0| ==> x0[i].Finite? && x0[i].value >= 0.0 by {
      forall i | 0 <= i < |x0|
        ensures x0[i].Finite? && x0[i].value >= 0.0
      {
        if GuessThreshold < hdiag[i] {
          ReciprocalPositive(hdiag[i]);
        }
      }
    }
    BreakSymmetry(x0, hdiag, withSymmetry)
  }

  /** One eigenpair returned by the solver. */
  datatype EigenPair = EigenPair(value: real, vector: seq<real>)

  /** The solver's roots, in the order it returns them; there is always at least one. */
  type Spectrum = s: seq<EigenPair> | |s| > 0 witness [EigenPair(0.0, [])]

  /** Everything lib.davidson is called with. */
  datatype SolverCall = SolverCall(op: Operator, precond: Preconditioner, guess: seq<Float>, tol: real, nroots: nat)

  /** The root the stability decision reads: the unwrapped root when nroots == 1, `e[0], v[0]`
      otherwise. Nothing here assumes the solver sorts its roots; the code reads the first one. */
  function Lowest(s: Spectrum): EigenPair {
    s[0]
  }

  /** `stable = not (e < -1e-5)` */
  predicate IsStable(e: real) {
    !(e < InstabilityThreshold)
  }

  lemma ReciprocalPositive(h: real)
    requires h > 0.0
    ensures 1.0 / h > 0.0
  {
  }
}
