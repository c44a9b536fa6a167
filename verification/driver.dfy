/** `stable_opt_internal`: re-run the SCF from the internal channel's orbitals until the
    internal analysis reports stable or the attempts run out. The SCF object, its `stability`
    method and its re-run (`make_rdm1` then `run`) are parameters. */
module Driver {
  import opened Outcomes
  import opened Channels
  import opened Dispatch

  /** The default `max_attempt`. */
  const DefaultMaxAttempt: int := 10

  /** Python truthiness of the `stable` slot: `None` counts as not stable. */
  predicate Truthy(b: Option<bool>) {
    b.Some? && b.value
  }

  /** The SCF object after `k` re-optimisations, each seeded with the internal orbitals its
      predecessor's analysis returned. */
  function Reoptimized<S>(mf0: S, k: nat, stability: S -> Result<StatusTuple>, rerun: (S, Option<Orbitals>) -> S): Result<S>
    decreases k
  {
    if k == 0 then Success(mf0)
    else
      var prev :- Reoptimized(mf0, k - 1, stability, rerun);
      var t :- stability(prev);
      Success(rerun(prev, InternalStatus(t).0))
  }

  /** `_get_internal_stability_status` of the SCF object after `k` re-optimisations. */
  function StatusAt<S>(mf0: S, k: nat, stability: S -> Result<StatusTuple>, rerun: (S, Option<Orbitals>) -> S)
    : Result<(Option<Orbitals>, Option<bool>)>
  {
    var mf :- Reoptimized(mf0, k, stability, rerun);
    var t :- stability(mf);
    Success(InternalStatus(t))
  }

  /** Re-optimises at most `maxAttempt` times (never, when it is not positive), stopping at the
      first stable status; the last SCF object is returned whether or not it is stable. */
  method StableOptInternal<S>(mf0: S, maxAttempt: int, stability: S -> Result<StatusTuple>,
                              rerun: (S, Option<Orbitals>) -> S)
    returns (r: Result<S>, attempts: nat)
    ensures attempts <= if maxAttempt > 0 then maxAttempt else 0
    ensures forall k :: 0 <= k < attempts ==>
              StatusAt(mf0, k, stability, rerun).Success? && !Truthy(StatusAt(mf0, k, stability, rerun).value.1)
    ensures r.Success? ==> r == Reoptimized(mf0, attempts, stability, rerun)
    ensures r.Success? ==>
              StatusAt(mf0, attempts, stability, rerun).Success?
              && (Truthy(StatusAt(mf0, attempts, stability, rerun).value.1) || attempts >= maxAttempt)
    ensures r.Failure? ==>
              StatusAt(mf0, attempts, stability, rerun).Failure?
              && r.error == StatusAt(mf0, attempts, stability, rerun).error
  {
    var mf := mf0;
    var status := stability(mf);
    if status.Failure? {
      return Failure(status.error), 0;
    }
    var current := InternalStatus(status.value);
    attempts := 0;
    while !Truthy(current.1) && attempts < maxAttempt
      invariant attempts <= if maxAttempt > 0 then maxAttempt else 0
      invariant Reoptimized(mf0, attempts, stability, rerun) == Success(mf)
      invariant StatusAt(mf0, attempts, stability, rerun) == Success(current)
      invariant forall k :: 0 <= k < attempts ==>
                  StatusAt(mf0, k, stability, rerun).Success? && !Truthy(StatusAt(mf0, k, stability, rerun).value.1)
      decreases maxAttempt - attempts
    {
      mf := rerun(mf, current.0);
      status := stability(mf);
      if status.Failure? {
        return Failure(status.error), attempts + 1;
      }
      attempts := attempts + 1;
      current := InternalStatus(status.value);
    }
    return Success(mf), attempts;
  }
}
