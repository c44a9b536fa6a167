/** The per-reference stability entry points (`rhf_stability`, `uhf_stability`,
    `rohf_stability`, `ghf_stability`, `dhf_stability`): which channels run, in which order,
    and the shape of what comes back. */
module Dispatch {
  import opened Outcomes
  import opened LinAlg
  import opened Davidson
  import opened UhfToGhf
  import opened Channels

  /** The keyword arguments of the entry points. `internal` and `external` are read only by
      the RHF, UHF and ROHF entry points. */
  datatype Request = Request(internal: bool, external: bool, returnStatus: bool, nroots: nat, tol: real)

  /** `internal=True, external=False, return_status=False, nroots=STAB_NROOTS, tol=1e-4` */
  const DefaultRequest := Request(true, false, false, DefaultRoots, DefaultTolerance)

  /** What `return_status=True` returns: `(mo_i, mo_e, stable_i, stable_e)` or `(mo, stable)`. */
  datatype StatusTuple =
    | Four(moI: Option<Orbitals>, moE: Option<Orbitals>, stableI: Option<bool>, stableE: Option<bool>)
    | Two(mo: Option<Orbitals>, stable: Option<bool>)

  /** What an entry point returns: the status tuple, or the orbitals alone. */
  datatype Returned =
    | WithStatus(status: StatusTuple)
    | OrbitalsPair(moI: Option<Orbitals>, moE: Option<Orbitals>)
    | OrbitalsOnly(mo: Orbitals)

  /** Runs a channel only when it is enabled; a disabled channel contributes `None`. */
  function RunIf(enabled: bool, channel: Result<ChannelResult>): (r: Result<Option<ChannelResult>>)
    ensures !enabled ==> r == Success(None)
    ensures enabled && channel.Success? ==> r == Success(Some(channel.value))
    ensures enabled && channel.Failure? ==> r == Failure(channel.error)
  {
    if !enabled then Success(None)
    else
      var x :- channel;
      Success(Some(x))
  }

  function MoOf(x: Option<ChannelResult>): Option<Orbitals> {
    if x.Some? then Some(x.value.mo) else None
  }

  function StableOf(x: Option<ChannelResult>): Option<bool> {
    if x.Some? then Some(x.value.stable) else None
  }

  /** The slots of a two-channel result agree with the request and the channels: an enabled
      channel fills its orbital (and status) slot with its result, a disabled one leaves `None`. */
  predicate Shaped(req: Request, internal: Result<ChannelResult>, external: Result<ChannelResult>, ret: Returned)
    requires req.internal ==> internal.Success?
    requires req.external ==> external.Success?
  {
    if req.returnStatus then
      && ret.WithStatus? && ret.status.Four?
      && ret.status.moI == (if req.internal then Some(internal.value.mo) else None)
      && ret.status.stableI == (if req.internal then Some(internal.value.stable) else None)
      && ret.status.moE == (if req.external then Some(external.value.mo) else None)
      && ret.status.stableE == (if req.external then Some(external.value.stable) else None)
    else
      && ret.OrbitalsPair?
      && ret.moI == (if req.internal then Some(internal.value.mo) else None)
      && ret.moE == (if req.external then Some(external.value.mo) else None)
  }

  /** The body shared by rhf_stability, uhf_stability and rohf_stability: the internal channel
      runs first, then the external one; the first failure ends the call. */
  function Assemble(req: Request, internal: Result<ChannelResult>, external: Result<ChannelResult>): (r: Result<Returned>)
    ensures r.Success? <==> (req.internal ==> internal.Success?) && (req.external ==> external.Success?)
    ensures req.internal && internal.Failure? ==> r == Failure(internal.error)
    ensures (req.internal ==> internal.Success?) && req.external && external.Failure? ==> r == Failure(external.error)
    ensures r.Success? ==> Shaped(req, internal, external, r.value)
  {
    var i :- RunIf(req.internal, internal);
    var e :- RunIf(req.external, external);
    if req.returnStatus then Success(WithStatus(Four(MoOf(i), MoOf(e), StableOf(i), StableOf(e))))
    else Success(OrbitalsPair(MoOf(i), MoOf(e)))
  }

  /** An RHF/RKS (or ROHF/ROKS) object as the stability code sees it. */
  datatype RestrictedScf = RestrictedScf(
    c: Matrix, occ: seq<real>, fockDiag: seq<real>, orbsym: Option<seq<int>>,
    gHop: bool -> GHop,                         // gen_g_hop_rhf / gen_g_hop_rohf, by with_symmetry
    realToComplex: seq<real> -> seq<real>,      // raw real -> complex block product
    toUnrestricted: seq<real> -> seq<real>)     // raw RHF -> UHF block product
  {
    predicate Valid() {
      |fockDiag| == |occ| && (orbsym.Some? ==> |orbsym.value| == |occ|)
    }
  }

  /** rhf_stability: the entry point calls both channels with their default `with_symmetry=True`. */
  function RhfStability(mf: RestrictedScf, req: Request, oracles: Oracles): (r: Result<Returned>)
    requires mf.Valid()
    ensures var internal := SameReferenceInternal(mf.c, mf.occ, mf.gHop(true), true, req.tol, req.nroots, oracles);
            var external := RhfExternal(mf.c, mf.occ, mf.fockDiag, mf.orbsym, true, mf.realToComplex, mf.toUnrestricted,
                                        req.tol, req.nroots, oracles);
            && (r.Success? <==> (req.internal ==> internal.Success?) && (req.external ==> external.Success?))
            && (r.Success? ==> Shaped(req, internal, external, r.value))
  {
    Assemble(req,
             SameReferenceInternal(mf.c, mf.occ, mf.gHop(true), true, req.tol, req.nroots, oracles),
             RhfExternal(mf.c, mf.occ, mf.fockDiag, mf.orbsym, true, mf.realToComplex, mf.toUnrestricted,
                         req.tol, req.nroots, oracles))
  }

  /** rohf_stability: the external channel is not implemented, so asking for it always fails
      (after the internal channel, when that is requested and itself fails first). */
  function RohfStability(mf: RestrictedScf, req: Request, oracles: Oracles): (r: Result<Returned>)
    ensures req.external ==> r.Failure?
    ensures var internal := SameReferenceInternal(mf.c, mf.occ, mf.gHop(true), true, req.tol, req.nroots, oracles);
            && (req.external && (req.internal ==> internal.Success?) ==> r == Failure(NotImplemented))
            && (!req.external ==> (r.Success? <==> (req.internal ==> internal.Success?)))
            && (r.Success? ==> Shaped(req, internal, Failure(NotImplemented), r.value))
  {
    Assemble(req, SameReferenceInternal(mf.c, mf.occ, mf.gHop(true), true, req.tol, req.nroots, oracles),
             Failure(NotImplemented))
  }

  /** A UHF/UKS object as the stability code sees it. */
  datatype UnrestrictedScf = UnrestrictedScf(
    ca: Matrix, cb: Matrix, orbitals: SpinOrbitals,
    gHop: bool -> GHop,                         // gen_g_hop_uhf, by with_symmetry
    realToComplex: seq<real> -> seq<real>,      // raw real -> complex block product
    toGeneralized: seq<real> -> seq<real>)      // raw UHF -> GHF block product
  {
    predicate Valid() {
      && orbitals.Valid()
      && IsMatrix(ca, |ca|, |orbitals.occA|) && IsMatrix(cb, |cb|, |orbitals.occB|)
    }
  }

  /** uhf_stability */
  function UhfStability(mf: UnrestrictedScf, req: Request, oracles: Oracles): (r: Result<Returned>)
    requires mf.Valid()
    ensures var internal := UhfInternal(mf.ca, mf.cb, mf.orbitals.occA, mf.orbitals.occB, mf.gHop(true), true,
                                        req.tol, req.nroots, oracles);
            var external := UhfExternal(mf.ca, mf.cb, mf.orbitals, true, mf.realToComplex, mf.toGeneralized,
                                        req.tol, req.nroots, oracles);
            && (r.Success? <==> (req.internal ==> internal.Success?) && (req.external ==> external.Success?))
            && (r.Success? ==> Shaped(req, internal, external, r.value))
  {
    Assemble(req,
             UhfInternal(mf.ca, mf.cb, mf.orbitals.occA, mf.orbitals.occB, mf.gHop(true), true, req.tol, req.nroots, oracles),
             UhfExternal(mf.ca, mf.cb, mf.orbitals, true, mf.realToComplex, mf.toGeneralized, req.tol, req.nroots, oracles))
  }

  /** One-channel result: `(mo, stable)` with `return_status`, `mo` alone otherwise. */
  function Single(returnStatus: bool, channel: Result<ChannelResult>): (r: Result<Returned>)
    ensures r.Success? <==> channel.Success?
    ensures r.Success? && returnStatus ==>
              r.value == WithStatus(Two(Some(channel.value.mo), Some(channel.value.stable)))
    ensures r.Success? && !returnStatus ==> r.value == OrbitalsOnly(channel.value.mo)
  {
    var x :- channel;
    if returnStatus then Success(WithStatus(Two(Some(x.mo), Some(x.stable)))) else Success(OrbitalsOnly(x.mo))
  }

  /** A GHF/GKS object; whether its coefficients are complex (`is_complex`) is an input. */
  datatype GeneralizedScf = GeneralizedScf(
    c: Matrix, occ: seq<real>, fockDiag: seq<real>, orbsym: Option<seq<int>>, isComplex: bool,
    gHop: GHop,                                 // gen_g_hop_ghf
    realToComplex: seq<real> -> seq<real>,      // raw real -> complex block product
    complexHop: seq<real> -> seq<real>,         // complex internal product
    complexDiag: seq<real>)                     // complex internal Hessian diagonal
  {
    predicate Valid() {
      |fockDiag| == |occ| && (orbsym.Some? ==> |orbsym.value| == |occ|)
    }
  }

  /** ghf_stability: the complex channel for complex coefficients, the real one otherwise. */
  function GhfStability(mf: GeneralizedScf, req: Request, oracles: Oracles): (r: Result<Returned>)
    requires mf.Valid()
    ensures mf.isComplex ==> r.Success?
    ensures var channel := if mf.isComplex then GhfComplex(mf.c, mf.occ, mf.complexHop, mf.complexDiag, req.tol, req.nroots, oracles)
                           else GhfReal(mf.c, mf.occ, mf.gHop, mf.fockDiag, mf.orbsym, true, mf.realToComplex,
                                        req.tol, req.nroots, oracles);
            && (r.Success? <==> channel.Success?)
            && (r.Success? && req.returnStatus ==> r.value == WithStatus(Two(Some(channel.value.mo), Some(channel.value.stable))))
            && (r.Success? && !req.returnStatus ==> r.value == OrbitalsOnly(channel.value.mo))
  {
    var channel := if mf.isComplex then GhfComplex(mf.c, mf.occ, mf.complexHop, mf.complexDiag, req.tol, req.nroots, oracles)
                   else GhfReal(mf.c, mf.occ, mf.gHop, mf.fockDiag, mf.orbsym, true, mf.realToComplex,
                                req.tol, req.nroots, oracles);
    Single(req.returnStatus, channel)
  }

  /** dhf_stability as written: the DHF internal channel, which raises when more than one root
      is requested and more than one comes back. */
  function DhfStability(c: Matrix, occ: seq<real>, gh: GHop, req: Request, oracles: Oracles): (r: Result<Returned>)
    ensures r.Success? <==>
              && |gh.g| == |gh.hdiag| && |gh.hdiag| > 0
              && (req.nroots == 1 || |oracles.solve(InternalCall(gh, false, req.tol, req.nroots).value)| == 1)
    ensures |gh.g| == |gh.hdiag| && |gh.hdiag| > 0 && req.nroots != 1
            && |oracles.solve(InternalCall(gh, false, req.tol, req.nroots).value)| > 1
            ==> r == Failure(AmbiguousTruthValue)
    ensures r.Success? ==>
              var root := Lowest(oracles.solve(InternalCall(gh, false, req.tol, req.nroots).value));
              var stable := InstabilityThreshold <= root.value;
              var mo := if stable then Coeff(c) else Coeff(oracles.rotate(c, occ, root.vector));
              r.value == if req.returnStatus then WithStatus(Two(Some(mo), Some(stable))) else OrbitalsOnly(mo)
  {
    Single(req.returnStatus, DhfAsWritten(c, occ, gh, req.tol, req.nroots, oracles))
  }

  /** `_get_internal_stability_status`: a 4-tuple is projected to `(res[0], res[2])`, a 2-tuple
      is passed through. */
  function InternalStatus(t: StatusTuple): (Option<Orbitals>, Option<bool>) {
    match t
    case Four(moI, _, stableI, _) => (moI, stableI)
    case Two(mo, stable) => (mo, stable)
  }

  /** Projecting a two-channel status tuple recovers exactly the internal channel's result. */
  lemma InternalStatusOfAssemble(req: Request, internal: Result<ChannelResult>, external: Result<ChannelResult>)
    requires req.returnStatus && req.internal
    requires Assemble(req, internal, external).Success?
    ensures internal.Success?
    ensures Assemble(req, internal, external).value.WithStatus?
    ensures InternalStatus(Assemble(req, internal, external).value.status)
            == (Some(internal.value.mo), Some(internal.value.stable))
  {
  }

  /** Projecting a one-channel status tuple recovers that channel's result. */
  lemma InternalStatusOfSingle(channel: Result<ChannelResult>)
    requires channel.Success?
    ensures Single(true, channel).Success? && Single(true, channel).value.WithStatus?
    ensures InternalStatus(Single(true, channel).value.status) == (Some(channel.value.mo), Some(channel.value.stable))
  {
  }
}
