# Wavefunction stability analysis of pyscf (`pyscf/scf/stability.py`), modelled in Dafny

pyscf checks whether a converged SCF wavefunction is a true minimum. For each reference
type (RHF/RKS, ROHF/ROKS, UHF/UKS, GHF/GKS, DHF/DKS) it builds an orbital-rotation Hessian
problem and hands it to a Davidson eigensolver. It reads the lowest root and calls the
reference unstable when that root is below -1e-5. An unstable reference gets its orbitals
rotated along the root's eigenvector. `stable_opt_internal` re-runs the SCF from those
orbitals until the internal analysis reports stable or the attempts run out.

This project models the exact, discrete logic around the numerics:

- the occupied/virtual partition read off `mo_occ` (`Partition`);
- the row-major vir x occ layout, the orbital-gap Hessian diagonal and the symmetry masks (`VirOcc`);
- the Davidson adapter (`Davidson`): floored preconditioner, initial guesses, argmin override, verdict;
- every stability channel, with its problem and verdict and the orbitals it returns (`Channels`);
- the UHF -> GHF rotation generator and the column re-partition (`UhfToGhf`);
- the entry points' return shapes and the internal-status projection (`Dispatch`);
- the re-optimisation loop (`Driver`).

Dense matrices are `seq<seq<real>>` with exact arithmetic (`LinAlg`). numpy exceptions
(reshape and boolean-index shape errors, `argmin` of an empty array, the truth value of an
array, `NotImplementedError`) are `Failure` values of `Outcomes.Result`. `1. / 0.` in a guess
is `Float.Infinite`, as numpy computes it.

Code that the stability module calls but does not define enters as a value:

- `lib.davidson` is `Oracles.solve`, from a solver call to a non-empty spectrum whose first root the channels read;
- `_rotate_mo` is `Oracles.rotate`, and `newton_ah.expmat` is `Oracles.expmat`;
- the `newton_ah.gen_g_hop_*` results are `Channels.GHop`;
- the Fock/response parts of the `hop_*` closures are raw block products, wrapped by the modelled masking;
- the MO Fock diagonal and the orbital symmetry labels (`get_orbsym`) are input sequences;
- the SCF object, its `stability` method and its re-run are parameters of the driver.

## Model

| member | source | states |
|---|---|---|
| Partition.Where | pyscf/scf/stability.py:355-356 | `numpy.where(rule(mo_occ))[0]` lists only orbitals the rule selects, and no more of them than there are orbitals |
| Partition.WhereComplete | pyscf/scf/stability.py:355-356 | every orbital the rule selects appears in the `numpy.where` list |
| Partition.WhereIncreasing | pyscf/scf/stability.py:355-356 | the `numpy.where` list is strictly ascending, so no orbital appears twice |
| Partition.SpinPartition | pyscf/scf/stability.py:532-539 | for non-negative occupations the `> 0` and `== 0` lists split the orbitals: `nocc + nvir == nmo`, and every orbital is in exactly one list |
| Partition.ClosedShellPartition | pyscf/scf/stability.py:355-358 | for closed-shell occupations (0 or 2) the `== 2` and `== 0` lists split the orbitals |
| Partition.AufbauWhere | pyscf/scf/stability.py:673-680 | under aufbau order the occupied orbitals are `0..nocc-1` and the virtual ones `nocc..nmo-1`, which is what the fixed re-partition assumes |
| VirOcc.RowMajor | pyscf/scf/stability.py:373-376 | pair `(a, i)` of a raveled `(nvir, nocc)` array sits at `a*nocc+i`, inside the array, and decodes back to `(a, i)` |
| VirOcc.OrbitalGapEntry | pyscf/scf/stability.py:373-376 | entry `(a, i)` of the gap diagonal is `f_vir[vir[a]] - f_occ[occ[i]]` |
| VirOcc.SymForbidEntry | pyscf/scf/stability.py:364 | pair `(a, i)` is forbidden exactly when `vir[a]` and `occ[i]` carry different symmetry labels |
| VirOcc.MaskProjects | pyscf/scf/stability.py:380-383 | masking looks only at allowed entries: two vectors mask alike iff they agree on every allowed entry, and masking is idempotent |
| Davidson.Denominator | pyscf/scf/stability.py:315-318 | every entry of `hdiag - e` below 1e-8 in magnitude becomes exactly 1e-8, the rest are unchanged, so no divisor is zero |
| Davidson.Precondition | pyscf/scf/stability.py:315-318 | the preconditioned vector has the length of `dx` and solves the floored diagonal system entry by entry |
| Davidson.ApplyOperator | pyscf/scf/stability.py:379-394 | the internal product is twice `hop(x)` entry by entry and the external one is `hop(x)`; a masked product rejects a vector of the wrong length, succeeds exactly when the lengths agree, is zero at every forbidden pair and equals the raw product of the masked vector at every allowed one |
| Davidson.ProjectedIgnoresForbidden | pyscf/scf/stability.py:380-383 | the masked product does not depend on the trial vector's forbidden entries |
| Davidson.ForbiddenOnlyGivesZero | pyscf/scf/stability.py:392-393 | a trial vector living only on forbidden pairs is mapped to zero by a linear product |
| Davidson.ArgMin | pyscf/scf/stability.py:330 | `numpy.argmin` returns the first position holding the minimum |
| Davidson.FirstMinUnique | pyscf/scf/stability.py:330 | the first minimum is unique, so the override writes one entry |
| Davidson.BreakSymmetry | pyscf/scf/stability.py:329-330 | the argmin entry is set to 1 only when symmetry breaking is allowed; with an empty diagonal that raises |
| Davidson.InternalGuess | pyscf/scf/stability.py:327-330 | internal guess: `1/hdiag` where the gradient is non-zero (infinite on a zero diagonal), zero where it is zero, then the override; a gradient of another length raises |
| Davidson.ExternalGuess | pyscf/scf/stability.py:426-429 | external guess: `1/hdiag` where `hdiag > 1e-5`, zero elsewhere, then the override; every entry is finite and non-negative |
| Channels.InternalCall | pyscf/scf/stability.py:314-331 | an internal solve doubles the diagonal, preconditions on it, doubles the product, and seeds with the internal guess |
| Channels.SameReferenceInternal | pyscf/scf/stability.py:331-344 | internal channel: stable iff the lowest root is at least -1e-5; stable keeps the coefficients, unstable rotates them along the lowest root |
| Channels.SplitAt | pyscf/scf/stability.py:521-522 | the UHF eigenvector split is a clamped Python slice: the two parts concatenate back to the vector |
| Channels.UhfInternal | pyscf/scf/stability.py:510-526 | UHF internal verdict; an unstable root is split after `nocca*nvira` entries into the alpha and beta rotations |
| Channels.DiagonalEntry | pyscf/scf/stability.py:364-376 | an external diagonal entry is the orbital gap, or zero when symmetry is on and the labels differ |
| Channels.TwoBlocks | pyscf/scf/stability.py:595-600 | the stacked two-block problem has the summed dimension and a zero diagonal at every forbidden pair |
| Channels.TwoBlocksSplit | pyscf/scf/stability.py:561-565 | masking the stacked diagonal equals stacking the separately masked blocks |
| Channels.UhfRealToComplexProblem | pyscf/scf/stability.py:545-565 | the UHF real -> complex problem has dimension `nvira*nocca + nvirb*noccb` |
| Channels.UhfToGhfProblem | pyscf/scf/stability.py:591-600 | the UHF -> GHF problem has the dimension the generator scatters, `nvira*noccb + nvirb*nocca` |
| Channels.UhfToGhfDiagonalEntry | pyscf/scf/stability.py:593-600 | UHF -> GHF diagonal entry `(a, i)` is `fockA[viridxa[a]] - fockB[occidxb[i]]`, zero when the alpha and beta labels differ under symmetry |
| Channels.UhfToGhfDiagonalSecondEntry | pyscf/scf/stability.py:594-600 | entry `(b, j)` of the second block, at `nvira*noccb + b*nocca + j`, is `fockB[viridxb[b]] - fockA[occidxa[j]]`, zero when the beta and alpha labels differ under symmetry |
| Channels.ExternalCall | pyscf/scf/stability.py:422-430 | an external solve preconditions on the problem diagonal, wraps the masked product and seeds with the external guess; it fails only on an empty diagonal with symmetry breaking |
| Channels.RhfToUhfCall | pyscf/scf/stability.py:437-442 | the RHF -> UHF solve reuses the diagonal and is seeded with the lowest real -> complex eigenvector |
| Channels.RhfExternal | pyscf/scf/stability.py:446-451 | RHF external verdict from the RHF -> UHF root; stable returns `(C, C)`, unstable rotates only the alpha coefficients |
| Channels.RhfExternalMasked | pyscf/scf/stability.py:374-383 | with symmetry, the RHF external product ignores forbidden trial entries and the diagonal is zero at every forbidden pair |
| Channels.UhfExternal | pyscf/scf/stability.py:629-684 | UHF external verdict from the UHF -> GHF root; stable returns block_diag(Ca, Cb), unstable the rotated matrix with the fixed column re-partition; failure exactly on an empty guess or a rotation of the wrong shape |
| Channels.GhfReal | pyscf/scf/stability.py:794-840 | the real GHF result is the internal one; the real -> complex solve can only make the call fail |
| Channels.GhfComplex | pyscf/scf/stability.py:842-869 | the complex GHF channel always succeeds (symmetry kept, no argmin) and has the internal verdict rule |
| Channels.DhfAsWritten | pyscf/scf/stability.py:281-303 | DHF channel as written: it fails exactly when the internal solve cannot be set up or more than one root is requested and returned; otherwise stable iff the first root is at least -1e-5, keeping the coefficients or rotating along that root |
| Channels.Dhf | pyscf/scf/stability.py:281-307 | intended DHF channel: argmin override always applied, verdict from the lowest root |
| Channels.DhfAsWrittenAgrees | pyscf/scf/stability.py:295-303 | whenever the code as written returns, it returns what the intended channel does |
| Channels.DhfDefaultRootsCounterexample | pyscf/scf/stability.py:295-296 | with the default three roots and a two-root spectrum the code as written raises while the intended channel answers |
| UhfToGhf.GeneratorAlphaBetaBlock | pyscf/scf/stability.py:675 | rows `viridxa` x columns `nmo+occidxb` of `dx` hold `v[:nvira*noccb]` row-major |
| UhfToGhf.GeneratorBetaAlphaBlock | pyscf/scf/stability.py:676 | rows `nmo+viridxb` x columns `occidxa` of `dx` hold `v[nvira*noccb:]` row-major |
| UhfToGhf.GeneratorZeroOutside | pyscf/scf/stability.py:674-676 | `dx` is zero outside the two scattered blocks |
| UhfToGhf.Antisymmetrize | pyscf/scf/stability.py:677 | `dx - dx.T` is antisymmetric |
| UhfToGhf.AntisymmetricGeneratorBlocks | pyscf/scf/stability.py:674-677 | the antisymmetric generator keeps each block value and carries its negative at the mirrored position |
| UhfToGhf.ColumnOrder | pyscf/scf/stability.py:679-680 | the fixed re-partition `[0,nocca) ++ [nmo,nmo+noccb) ++ [nocca,nmo) ++ [nmo+noccb,2nmo)` is a permutation of the columns |
| UhfToGhf.ColumnOrderNonAufbauCounterexample | pyscf/scf/stability.py:679-680 | without aufbau order the fixed re-partition puts a virtual column among the first `nocca+noccb` |
| UhfToGhf.OccupiedFirstOrder | pyscf/scf/stability.py:664-680 | corrected re-partition: a permutation whose first `nocca+noccb` columns are exactly the occupied spin orbitals |
| UhfToGhf.ColumnOrderAufbau | pyscf/scf/stability.py:673-680 | under aufbau order the corrected and the fixed re-partition coincide |
| UhfToGhf.Rotate | pyscf/scf/stability.py:677-680 | the rotation succeeds iff the exponential is `2nmo x 2nmo`; column `k` of the result is column `ColumnOrder[k]` of `block_diag(Ca, Cb) @ expmat(dx - dx.T)`, with `nocca` and `noccb` counted from the occupations |
| UhfToGhf.RotateAufbau | pyscf/scf/stability.py:673-680 | under aufbau order the rotated columns come out in the corrected occupied-first order |
| UhfToGhf.RotateZeroVector | pyscf/scf/stability.py:663-680 | a zero eigenvector with `expmat(0) = I` returns block_diag(Ca, Cb), only re-partitioned by the fixed slices |
| Dispatch.Assemble | pyscf/scf/stability.py:101-114 | a disabled channel leaves its slots None; `return_status` gives the 4-tuple, otherwise the orbital pair; the first failing enabled channel decides the error |
| Dispatch.RhfStability | pyscf/scf/stability.py:69-114 | rhf_stability fills its slots from the RHF internal and external channels, called with symmetry on |
| Dispatch.UhfStability | pyscf/scf/stability.py:116-161 | uhf_stability fills its slots from the UHF internal and external channels |
| Dispatch.RohfStability | pyscf/scf/stability.py:194-207 | requesting the ROHF external channel always fails, with NotImplementedError once the internal channel has passed |
| Dispatch.Single | pyscf/scf/stability.py:304-307 | a one-channel entry point returns `(mo, stable)` with `return_status` and `mo` alone otherwise |
| Dispatch.GhfStability | pyscf/scf/stability.py:242-255 | ghf_stability picks the complex or the real channel, and never fails for complex coefficients |
| Dispatch.DhfStability | pyscf/scf/stability.py:258-307 | dhf_stability fails exactly on an empty or mismatched Hessian diagonal, or when more than one root is requested and returned (the array truth value); otherwise it returns the first root's verdict and orbitals in the `return_status` shape |
| Dispatch.InternalStatusOfAssemble | pyscf/scf/stability.py:40-45 | projecting the 4-tuple `(res[0], res[2])` recovers exactly the internal channel's `(mo, stable)` |
| Dispatch.InternalStatusOfSingle | pyscf/scf/stability.py:40-45 | a 2-tuple passes through as the channel's `(mo, stable)` |
| Driver.StableOptInternal | pyscf/scf/stability.py:47-59 | at most `max_attempt` re-optimisations, each from an unstable status; it returns the last SCF object, which is stable or used up the attempts; a failing analysis ends the loop with that error |

## Left out

- Floating point: all arithmetic is exact `real`. The only modelled float artefact is `1. / 0.` giving infinity in the internal guess.
- Complex numbers: `.real`, `.conj()` and complex coefficients are not modelled. The complex GHF Hessian product and diagonal are inputs, because `_gen_hop_ghf_complex_internal` is not part of this model.
- `is_complex` (pyscf/scf/stability.py:209-214): dtype inspection and the imaginary part of a density matrix. It is a boolean input of `GeneralizedScf`.
- `lib.davidson`, `newton_ah.gen_g_hop_*`, `newton_ah.expmat`, `hf.unpack_uniq_var` and `_rotate_mo` are code this model does not contain. They are the parameters listed above. Their own contracts (for example that expmat of an antisymmetric matrix is orthogonal) are not assumed.
- The Fock and response arithmetic inside the `hop_*` closures (`einsum`, `gen_response`, `get_veff`, `get_hcore`, `make_rdm1`) is a raw block product. Only its masking and shape checks are modelled.
- `get_orbsym` symmetry labelling and the MO Fock diagonal are inputs; `mol.symmetry` is whether labels are given.
- Logging (`dump_status`, `log.info`, `log.note`) and the `__main__` demo. The real -> complex verdicts of the RHF, UHF and GHF-real channels are only logged, so the model keeps only their possible failure.
- Channels.DhfAsWritten: when more roots are requested but the solver returns a single one, the source passes a `(1, n)` eigenvector array to `_rotate_mo`. The model passes that root's vector.
- Channels.RhfExternal, Channels.GhfReal: an `orbsym` or Fock diagonal shorter than the orbitals makes numpy raise an IndexError. The model requires one label and one diagonal entry per orbital, which is what the SCF object supplies.
- UhfToGhf.Rotate: the block-diagonal matrix and the exponential are multiplied exactly; the model does not state that the product is orthonormal.
- Dispatch.GhfStability, Dispatch.DhfStability: the `Request` fields `internal` and `external` are ignored, as those entry points do not take them.
- Driver.StableOptInternal: `_get_internal_stability_status` returns `None` for a tuple of another length. The model's `stability` parameter returns only the two `return_status=True` shapes, which is all the entry points produce.

## Findings

| source | as written | input that shows it | evidently intended | confidence | as-written member | corrected member |
|---|---|---|---|---|---|---|
| pyscf/scf/stability.py:295-296 | `dhf_stability` compares the whole eigenvalue array `e < -1e-5`, without the `if nroots != 1: e, v = e[0], v[0]` that every other channel has | the default `nroots=3`, with the solver returning more than one root: numpy refuses the truth value of the comparison array | read the lowest root, as the other channels do | not executed; high | Channels.DhfAsWritten, Channels.DhfDefaultRootsCounterexample, Dispatch.DhfStability | Channels.Dhf, Channels.DhfAsWrittenAgrees |
| pyscf/scf/stability.py:679-680 | the UHF -> GHF columns are re-partitioned as `[:nocca] ++ [nmo:nmo+noccb] ++ [nocca:nmo] ++ [nmo+noccb:]`, assuming aufbau order | alpha occupations (1, 0, 1) and beta (1, 0, 0): column 1, an alpha virtual, lands among the first `nocca+noccb = 3` columns, and the occupied column 2 does not | occupied alpha and beta columns first (`occidxa ++ nmo+occidxb ++ viridxa ++ nmo+viridxb`), which coincides with the code under aufbau order | not executed; medium | UhfToGhf.ColumnOrder, UhfToGhf.ColumnOrderNonAufbauCounterexample, UhfToGhf.Rotate | UhfToGhf.OccupiedFirstOrder, UhfToGhf.ColumnOrderAufbau, UhfToGhf.RotateAufbau |

The channels and entry points follow the code as written: `Channels.UhfExternal` rotates with
the fixed `ColumnOrder`, and `Dispatch.DhfStability` runs `Channels.DhfAsWritten`. The corrected
halves are stated beside them. `UhfToGhf.RotateAufbau` shows the rotation already yields the
occupied-first order when the occupations are in aufbau order. `Channels.DhfAsWrittenAgrees`
shows the DHF code, whenever it returns, returns what `Channels.Dhf` does.
