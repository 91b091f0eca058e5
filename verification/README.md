# Verified models of the encrypted state-space-model planner

The repository plans encrypted linear algebra on CKKS slot vectors. Below its GPU and OpenFHE calls lies exact logic:
certifiers over rationals, cyclic slot programs, schedulers, a concurrent queue, a cache, a lowering to a small node language
and reassociated recurrences. This project models that logic in Dafny and proves what it is for. `dafny verify dfyconfig.toml`
checks all of it.

| files | what they model |
|---|---|
| `Sums`, `Chebyshev`, `Bernstein` | sums and series, Chebyshev identities, the Bernstein basis, de Casteljau subdivision |
| `PolynomialCertificate`, `IntegerCertificate`, `CertificateCompleteness`, `SearchOrder`, `GateCertificates`, `GateCompleteness` | the polynomial bound certifier, its integer version, what it is sure to find and in which order, the recurrence certificates built on it |
| `InverseSqrt`, `ScheduleCompleteness` | scheduled inverse square roots: three evaluation forms, their interval certificate and what it is sure to certify |
| `SlotVectors`, `ReplicatedMatmul`, `StateLayout` | cyclic slot vectors, replicated-diagonal and BSGS products, state and head expansions |
| `RotationSteps`, `RotationBatch`, `MonotoneRouting`, `PackedDiagonals` | signed-digit rotations, prefix sharing, radix routing, baby/giant diagonals |
| `ReadySchedule`, `DepthPlanner`, `CeilingPolicy` | the ready frontier with feedback barriers, level simulation and refresh planning, the level policies that keep their ceiling |
| `BoundedPrefetch`, `SinglePrefetch`, `PlaintextCache` | the bounded producer queue (module `ParallelPrefetch` and `SinglePrefetch`), the plaintext cache |
| `PatersonStockmeyer`, `ParitySplit` | vector Paterson-Stockmeyer over a shared basis, its level count, the parity split |
| `TensorIndex`, `PackedTensors`, `PackedNodes`, `PackedRuns`, `LoweringRuns`, `PackedLowering`, `LoweredExpressions` | row-major tensors, the node language with its reader checks, runs on any inputs, the lowering and whole computations built with it |
| `AffineScan`, `RankOne`, `DeferredState`, `StateUpdate`, `FactoredState` | chunked scans, deferred, tiled and factored recurrent states |
| `NttTail` | the lane-exchange NTT tail and the lazy butterfly |

Numbers are exact: binary64 values that the code reads as rationals are reals or integer fractions here. Where the code rounds
a public constant, the rounded value is a parameter whose assumed property stands in the contract (`nearest`, `next`, `up`,
`inverseRoot`, `ratios`). Raised errors are `None` or an error constructor. Code that updates state is a class or a method with
the same loop; each such method is tied to a specification function about which the lemmas speak. Products inside inductions
carry names (`Times`, `Axpy`, `Place`, ...) so that the nonlinear algebra stays in small lemmas over plain numbers.

Findings where the code promises less than its prose or its checks suggest:

* `replicated_state_blocks` accepts geometries on which it is wrong. It equals its reference for all data if and only if
  `group_block >= 2 * state_size` (`StateLayout.ReplicatedExactWhen`); below that, one source slot leaks into a block that must
  stay zero (`ShortBlocksLeak`).
* `shared_grouped_head_expansion` passes its geometry check and then stores outside the batch exactly when there are more groups
  than `state_size` (`StateLayout.SharedGroupedHeadExpansion`, outcome `OutOfSlots`; `SecondGroupHasNoSlot` is a smallest input).
* A replicated layout whose masks stay in the batch computes `W*x` for all data if and only if no replica's outputs fall on
  another's and every diagonal read lands in a filled slot that holds the right entry (`ReplicatedMatmul.LayoutExact`). For the
  tight window of `choose_interleaved_window` one guard window is always enough (`InterleavedSafe`); without it the layout is right
  if and only if `m + r*(n/r) <= window + 1`, with the quotient rounded down (`UnguardedExact`). `GuardNeeded` is a small matrix
  whose product is wrong without the guard.
* A level policy that the planner accepts keeps its own ceiling on all programs if and only if ceiling and refreshed level are at
  least 13 apart (`CeilingPolicy.CeilingExact`); the default is 17. With a smaller gap a chain of multiplications up to the
  ceiling, followed by a polynomial with 1025 coefficients, ends above it, whatever plan the planner may return for it.
* A completed value that nobody reads and that is no output stays counted as live for good. The live values are exactly the outputs
  and the values still to be read if and only if every node that has run is an output or has a reader
  (`ReadySchedule.LiveCountsWanted`), and only live outputs are left at the end if and only if that holds of every live node
  (`OnlyOutputsLeft`); `UnreadStays` is a program with one node that ends with a live value and no output. The marking of the depth
  planner never produces such a node (`DepthPlanner.LiveSuitsScheduler`).
* A client feedback node is emitted without checking that the answer has the size of the decrypted value, which the reader
  requires. The reader accepts an emitted program if and only if all client answers have the sizes of the values they answer
  (`PackedLowering.ReadableExactly`); `MismatchedAnswer` is an emitted program of two nodes that it refuses.
* `normalization_inverse_bound` caps its bound by `nextafter(1/sqrt(lo))`. The cap covers every admissible `y` if and only if
  `lo * cap^2 >= 1` (`InverseSqrt.RootExact`). Square root and division are both rounded before the one step upwards, so the code
  does not guarantee this: `OneStepIsNotEnough` gives an interval end, slightly above 1, where correctly rounded operations followed
  by one step stay below.

## Model

| member | source | states |
|---|---|---|
| Chebyshev.ProductSplits | native/fideslib_stage0/include/stage1_joint_gates.hpp:78-85 | 2*T_a*T_b = T_(a+b) + T_(a-b) for all degrees and points, the law every cached basis product relies on |
| Chebyshev.UnitBound | src/fhemamba/polynomial_certificate.py:206-229 | every T_n stays in [-1,1] on [-1,1] |
| Chebyshev.SeriesBound | src/fhemamba/polynomial_certificate.py:206-229 | a Chebyshev series on [-1,1] is bounded by the sum of the magnitudes of its coefficients |
| Bernstein.PowerToBernsteinKeepsValue | src/fhemamba/polynomial_certificate.py:41-49 | the change of basis describes the same polynomial at every t |
| Bernstein.SubdivideMidpoint | src/fhemamba/polynomial_certificate.py:52-59 | the row loop computes the left and right de Casteljau edges |
| Bernstein.LeftHalf | src/fhemamba/polynomial_certificate.py:52-59 | the left half is the polynomial on [0,1/2] |
| Bernstein.RightHalf | src/fhemamba/polynomial_certificate.py:52-59 | the right half is the polynomial on [1/2,1] |
| Bernstein.ConvexHull | src/fhemamba/polynomial_certificate.py:84-96 | on [0,1] the value lies between any bounds of the coefficients |
| PolynomialCertificate.PolynomialProduct | src/fhemamba/polynomial_certificate.py:16-21 | the double loop returns the coefficients of the product |
| PolynomialCertificate.ProductValue | src/fhemamba/polynomial_certificate.py:16-21 | the product list evaluates to the product of the values |
| PolynomialCertificate.ChebyshevUnitPower | src/fhemamba/polynomial_certificate.py:24-38 | the recurrence loop returns the power coefficients of the series, None for an empty series |
| PolynomialCertificate.UnitPowerValue | src/fhemamba/polynomial_certificate.py:24-38 | those coefficients at t give the Chebyshev series at 2t - 1 |
| PolynomialCertificate.CertifyBounds | src/fhemamba/polynomial_certificate.py:62-111 | the work queue makes the specified decision, which is that of the left-to-right walk (SearchOrder.DecisionMeans); certified means bounded at every t in [0,1], a counterexample means violated at some t in [0,1], an error exactly for invalid queries |
| PolynomialCertificate.ExploreSound | src/fhemamba/polynomial_certificate.py:75-111 | a certificate bounds every segment still pending |
| PolynomialCertificate.DecisionCounts | src/fhemamba/polynomial_certificate.py:75-111 | certified runs visit 2*leaves - 1 nodes within both limits; a node limit is hit exactly at the limit |
| SearchOrder.DecisionWalks | src/fhemamba/polynomial_certificate.py:75-111 | the queue answers as a recursive walk that visits a segment, then all of its left half, then all of its right half, cut off at the node limit: same outcome, node, leaf and depth counts |
| SearchOrder.DecisionMeans | src/fhemamba/polynomial_certificate.py:75-111 | a counterexample is a segment [a, a + 2^-depth] with a violating end and all of [0,a) inside the bounds; at the depth limit the segment is undecided and [0,a) inside; nodes counts the walk up to there |
| SearchOrder.ViolationFound | src/fhemamba/polynomial_certificate.py:75-111 | a violation at the end of a dyadic segment is reported if the bounds hold with a margin up to the start of the segment and the limits admit the depth that flattens segments |
| SearchOrder.InsideAtOnce | src/fhemamba/polynomial_certificate.py:79-86 | one node, one leaf and depth 0 exactly when all coefficients lie inside the bounds, equality included |
| CertificateCompleteness.ClearIsCertified | src/fhemamba/polynomial_certificate.py:62-111 | bounds that hold on [0,1] with a margin are certified whenever the limits admit the depth at which the halved coefficient differences fall below the margin |
| CertificateCompleteness.CertifiedEventually | src/fhemamba/polynomial_certificate.py:62-111 | for every polynomial and margin there is such a depth: all larger limits certify |
| CertificateCompleteness.SeriesCertifiedEventually | src/fhemamba/polynomial_certificate.py:114-203 | the same for a Chebyshev series on [-1,1] |
| CertificateCompleteness.LeftSmooth | src/fhemamba/polynomial_certificate.py:52-59 | subdivision halves the differences of neighbouring coefficients |
| IntegerCertificate.IntegerUnitPower | src/fhemamba/polynomial_certificate.py:140-152 | the integer recurrence keeps every entry equal to the rational one times the common denominator |
| IntegerCertificate.IntegerBernsteinRepresents | src/fhemamba/polynomial_certificate.py:153-159 | the integer change of basis represents the rational one over the scaled denominator |
| IntegerCertificate.RowsRepresent | src/fhemamba/polynomial_certificate.py:187-193 | scaled subdivision rows are the rational de Casteljau rows over a doubled divisor, on both sides |
| IntegerCertificate.InsideMeans | src/fhemamba/polynomial_certificate.py:169-173 | the cross-multiplied test is the test on the represented value |
| IntegerCertificate.ExploreScaled | src/fhemamba/polynomial_certificate.py:160-203 | the integer queue reaches the outcome, node, leaf and depth counts of the rational one |
| IntegerCertificate.CertifyChebyshevBounds | src/fhemamba/polynomial_certificate.py:114-203 | the integer certifier decides as certify_bounds on the converted series; certified bounds the series on all of [-1,1] |
| GateCertificates.RunBounded | src/fhemamba/polynomial_certificate.py:268-299 | gates with 0 <= a <= 1 and \|b\| <= gain*(1 - a) keep every run of any length within gain*V when \|v\| <= V |
| GateCertificates.CertifyAffineStateInvariant | src/fhemamba/polynomial_certificate.py:268-299 | the three verdicts are the decisions on the stated polynomials and bounds at the default limits; certified implies the gate is safe on the domain, any reported counterexample implies it is not |
| GateCertificates.AffineMeans | src/fhemamba/polynomial_certificate.py:268-299 | the three polynomial bounds together are equivalent to safety at every point of the domain |
| GateCertificates.SeriesRunBounded | src/fhemamba/polynomial_certificate.py:268-299 | every run of a safe affine gate started within gain*V and driven by \|v\| <= V stays there |
| GateCertificates.CertifyDissipativeGate | src/fhemamba/polynomial_certificate.py:206-229 | certified exactly when the contraction bound at the default limits is; the gain is the converted squared norm or its upward neighbour and covers the norm; certified gates are safe |
| GateCertificates.DissipativeMeans | src/fhemamba/polynomial_certificate.py:206-229 | \|p\| <= 1 and the l1 norm of q make the factored gate safe |
| GateCertificates.DissipativeRunBounded | src/fhemamba/polynomial_certificate.py:206-229 | every run of a certified dissipative gate stays within gain*V |
| GateCertificates.CertifyBernsteinStateInvariant | src/fhemamba/polynomial_certificate.py:302-332 | the failed list is exactly the indices that break the coefficient inequality; certified gates are safe at every t in [0,1] |
| GateCertificates.BernsteinRunBounded | src/fhemamba/polynomial_certificate.py:302-332 | every run of a certified Bernstein gate stays within gain*V |
| GateCertificates.CertifyNewtonInitializer | src/fhemamba/polynomial_certificate.py:232-265 | the verdicts are the decisions on y0 >= 0 and v*y0^2 <= 3 at the default limits; certified implies a nonnegative seed in the Newton basin at every variance of the interval; errors exactly for invalid specs |
| GateCertificates.NewtonStaysSafe | src/fhemamba/polynomial_certificate.py:232-265 | from such a seed every Newton iterate keeps y >= 0 and 0 <= v*y^2 <= 1 after any number of steps |
| GateCompleteness.ClearAffineCertified | src/fhemamba/polynomial_certificate.py:268-299 | a gate that is safe with a margin is certified when the margin is one that 4096 nodes resolve |
| GateCompleteness.ClearInitializerCertified | src/fhemamba/polynomial_certificate.py:232-265 | an initializer inside its bounds with such a margin is certified |
| InverseSqrt.Evaluate | src/fhemamba/normalization.py:69-79 | the coupled loop computes the scheduled product of updates and the final repair |
| InverseSqrt.EvaluateBalanced | src/fhemamba/normalization.py:93-106 | recomputing v*y^2 at every stage gives the same value |
| InverseSqrt.EvaluateWeighted | src/fhemamba/normalization.py:119-139 | the weighted residual form is exact for the schedule whose b are the first b times the stored ratios |
| InverseSqrt.EvaluateNormalization | native/fideslib_stage0/include/stage1_normalization.hpp:91-138 | all modes return the value before the repair and the repaired value of the schedule they stand for; only both flags together are an error |
| InverseSqrt.ExactRatios | src/fhemamba/normalization.py:213-227 | with exact quotients the weighted schedule is the stored one |
| InverseSqrt.Outward | src/fhemamba/normalization.py:18-24 | both ends move outward to multiples of 2^-bits, so the interval is contained |
| InverseSqrt.ImageSound | src/fhemamba/normalization.py:27-36 | every u*(a-b*u)^2 of a point of the interval lies in the image, and its factor is positive |
| InverseSqrt.EncloseSound | src/fhemamba/normalization.py:173-210 | at every stage the enclosure holds the true v*y^2 and y stays positive |
| InverseSqrt.CertifySchedule | src/fhemamba/normalization.py:173-210 | the loop returns the specified verdict; certified means y > 0 and (1-tol)^2 <= v*y^2 <= 1 on the whole interval |
| InverseSqrt.CertifyWeightedSchedule | src/fhemamba/normalization.py:213-227 | certifies the schedule that the weighted form really evaluates, with the same guarantee |
| ScheduleCompleteness.OutwardTight | src/fhemamba/normalization.py:18-24 | both ends are multiples of 2^-bits less than one multiple outside the exact ends |
| ScheduleCompleteness.ImageTight | src/fhemamba/normalization.py:27-36 | each end of the image is the least or the largest value on the interval, attained at a point of it and rounded outward by less than 2^-bits |
| ScheduleCompleteness.ClearIsCertified | src/fhemamba/normalization.py:173-210 | a schedule whose stages stay in ranges inside (0,1] with room for the explicit drift of the enclosures, and reach the target with it, is certified |
| ScheduleCompleteness.OneStageCertified | src/fhemamba/normalization.py:173-210 | an accelerated stage over [0.95, 0.99], with its critical point outside, is certified at every precision from 32 to 512 bits |
| InverseSqrt.NormalizationInverseBound | native/fideslib_stage0/include/stage1_normalization.hpp:53-62 | the result is the smaller of the product rounded up factor by factor and the second cap, at least the smaller of the exact two, and covers the stage value at every certified variance whenever that cap is valid; None exactly for a stage count out of range |
| InverseSqrt.RoundedClose | native/fideslib_stage0/include/stage1_normalization.hpp:58-60 | the rounded product exceeds the exact one by no more than the compounded rounding slack |
| InverseSqrt.RootExact | native/fideslib_stage0/include/stage1_normalization.hpp:49-61 | a number caps every y > 0 with v*y^2 <= 1, v >= lo, if and only if lo times its square is at least 1 |
| InverseSqrt.OneStepIsNotEnough | native/fideslib_stage0/include/stage1_normalization.hpp:61-61 | a binary64 interval end whose rounded square root and rounded reciprocal, moved up one step, stay below 1/sqrt(lo) |
| SlotVectors.RotationSumSchedule | src/fhemamba/bsgs_layout.py:58-77 | the schedule's steps build the sum of count shifts; the logarithmic one follows the bits of count |
| SlotVectors.RotationSum | src/fhemamba/bsgs_layout.py:80-87 | both schedules leave the sum of count consecutive shifts in every slot |
| ReplicatedMatmul.ChooseWindowSafe | src/fhemamba/bsgs_layout.py:111-120 | a chosen window needs no guard |
| ReplicatedMatmul.ChooseWindowLargest | src/fhemamba/bsgs_layout.py:111-120 | the window is the least multiple of n that is at least m + n, the replica count the largest up to n that fits; None exactly when the window does not fit |
| ReplicatedMatmul.ChooseInterleavedWindow | src/fhemamba/bsgs_layout.py:123-138 | the answer has the largest replica count whose tight window leaves a guard window, or is choose_window's |
| ReplicatedMatmul.InterleavedSafe | src/fhemamba/bsgs_layout.py:123-138 | with one guard window the interleaved layout is safe |
| ReplicatedMatmul.ReplicateInput | src/fhemamba/bsgs_layout.py:201-220 | the doubling copies leave x with its period over all filled slots and zero elsewhere |
| ReplicatedMatmul.BuildCombinedMask | src/fhemamba/bsgs_layout.py:223-241 | the accumulated diagonal masks of a group |
| ReplicatedMatmul.FoldedSlot | src/fhemamba/bsgs_layout.py:250-278 | whatever the slots hold, output slot i folds to the sum of its diagonal reads, for one replica or any matrix no taller than window + 1 |
| ReplicatedMatmul.MatmulCorrect | src/fhemamba/bsgs_layout.py:250-278 | a safe layout leaves exactly W*x in the leading slots |
| ReplicatedMatmul.ReplicatedMatmul | src/fhemamba/bsgs_layout.py:250-278 | the direct loop computes the folded sum of groups; None exactly for bad geometry |
| ReplicatedMatmul.ReplicatedBsgsMatmul | src/fhemamba/bsgs_layout.py:281-323 | the baby/giant loops compute the same folded sum for any baby step |
| ReplicatedMatmul.MultiplyBothWays | src/fhemamba/bsgs_layout.py:250-323 | both schedules with either rotation sum give W*x in slots [0,m) and agree on all slots |
| ReplicatedMatmul.LayoutExact | src/fhemamba/bsgs_layout.py:250-278 | with all mask stores inside the batch, the result is W*x for all W and x if and only if replicas do not overlap and every read lands on the right filled slot |
| ReplicatedMatmul.UnguardedExact | src/fhemamba/bsgs_layout.py:123-138 | the tight interleaved window without a guard is right for all data if and only if m + r*(n/r) <= window + 1 |
| ReplicatedMatmul.GuardNeeded | src/fhemamba/bsgs_layout.py:123-138 | the input m = 3, n = 4, batch = 12, on which the interleaved layout loses an entry without its guard window |
| StateLayout.StateBlockReference | src/fhemamba/state_layout.py:69-81 | the loop fills block i with entry base + i; None exactly for bad geometry |
| StateLayout.ReplicatedStateBlocks | src/fhemamba/state_layout.py:84-124 | the mask, roll and doubling program computes its slot formula; None exactly for bad geometry or source |
| StateLayout.ReplicatedIsReference | src/fhemamba/state_layout.py:84-124 | with blocks of at least twice the state size it is the reference on every slot, for B and C, whatever the other slots hold |
| StateLayout.ShortBlocksLeak | src/fhemamba/state_layout.py:60-66 | with shorter blocks an indicator input gives a different result |
| StateLayout.ReplicatedExactWhen | src/fhemamba/state_layout.py:84-124 | equality for all data holds if and only if group_block >= 2*state_size |
| StateLayout.SharedGroupedHeadExpansion | src/fhemamba/state_layout.py:189-214 | every group equals the direct expansion; storing leaves the batch exactly when there are more groups than state_size |
| StateLayout.SecondGroupHasNoSlot | src/fhemamba/state_layout.py:198-202 | two heads, one state, one slot: an accepted geometry whose second head is stored behind the batch |
| RotationSteps.NafSteps | native/fideslib_stage0/include/rotation_steps.hpp:13-29 | the loop emits the non-adjacent digits; the overflow error occurs exactly for values above 0x55555555 |
| RotationSteps.NafOverflow | native/fideslib_stage0/include/rotation_steps.hpp:20-22 | an int has a digit outside the int range if and only if it is above 0x55555555 |
| RotationSteps.NafTop | native/fideslib_stage0/include/rotation_steps.hpp:13-29 | all digits stay at places up to m if and only if the magnitude is at most the largest sum of non-adjacent powers up to 2^m |
| RotationSteps.NafTotal | native/fideslib_stage0/include/rotation_steps.hpp:13-29 | the digits sum to the value |
| RotationSteps.NafNonAdjacent | native/fideslib_stage0/include/rotation_steps.hpp:13-29 | consecutive digits are at least two places apart, ascending |
| RotationSteps.NafShortest | native/fideslib_stage0/include/rotation_steps.hpp:11-29 | no list of signed powers of two with the same sum is shorter |
| RotationSteps.CanonicalRotation | native/fideslib_stage0/include/rotation_steps.hpp:31-38 | the result is congruent to the offset and at most half a turn, a half turn keeping its direction; None exactly when slots is no power of two above one |
| RotationSteps.CanonicalNaf | native/fideslib_stage0/include/rotation_steps.hpp:40-42 | from a canonical offset the overflow branch is unreachable and every step is at most slots/2 |
| RotationSteps.RotationStepList | native/fideslib_stage0/include/rotation_steps.hpp:40-48 | the steps are the non-adjacent digits of the canonical offset, or its binary digits in ascending order with its sign, and sum to the offset modulo the slots |
| RotationSteps.StepsRotate | native/fideslib_stage0/include/rotation_steps.hpp:40-48 | rotating by the steps in turn is rotating by the offset |
| RotationBatch.RotatePaths | native/fideslib_stage0/include/rotation_batch.hpp:18-63 | every request gets the result of its own path, with one edge per distinct nonempty prefix |
| RotationBatch.RotatePrefixBatch | native/fideslib_stage0/include/rotation_batch.hpp:18-63 | on slot vectors every result is the input rotated by its own offset, with one edge per distinct nonempty prefix of base-step decompositions of the offsets |
| MonotoneRouting.BuildStage | native/fideslib_stage0/include/packed_routing.hpp:93-100 | one digit's moves, grouped by rotation, take every value from its position at one shift to the next |
| MonotoneRouting.PositionsDistinct | native/fideslib_stage0/include/packed_routing.hpp:93-101 | after every stage the live positions are strictly increasing and lie between the index and its target |
| MonotoneRouting.PlanRouting | native/fideslib_stage0/include/packed_routing.hpp:77-103 | the stages route from source to destination positions; None exactly for a bad radix or index list |
| MonotoneRouting.DigitCountBounds | native/fideslib_stage0/include/packed_routing.hpp:89-91 | the number of shifts is the number of digits of the largest distance |
| MonotoneRouting.DestinationMask | native/fideslib_stage0/include/packed_routing.hpp:61-75 | the mask is 1 exactly at the destinations; None exactly when a position or destination leaves the slots |
| MonotoneRouting.MasksAgree | native/fideslib_stage0/include/packed_routing.hpp:58-75 | selecting sources and rotating equals rotating and selecting destinations |
| MonotoneRouting.ApplyStage | native/fideslib_stage0/src/packed_fideslib.cpp:386-393 | adding the rotated selections places every value at its next position and empties all other slots |
| MonotoneRouting.Route | native/fideslib_stage0/include/packed_routing.hpp:77-103 | for any accepted index list and radix the stages carry out exactly the gather or the scatter, whatever the other slots held |
| PackedDiagonals.PlanDiagonals | native/fideslib_stage0/include/packed_routing.hpp:28-47 | the plan's count is the summed cost of the rotations it stands for, no dearer than the direct one or any baby size in either direction; a split needs an arithmetic progression |
| PackedDiagonals.Transform | native/fideslib_stage0/src/packed_fideslib.cpp:320-354 | carrying out the plan gives the direct sum of masked rotations, and the rotations made in doing so cost no more than any candidate plan |
| PackedDiagonals.DirectReversed | native/fideslib_stage0/include/packed_routing.hpp:34-45 | traversing the diagonals backwards gives the same sum |
| ReadySchedule.PlanUses | native/fideslib_stage0/include/packed_lifetime.hpp:12-22 | consumers list every live read in order and multiplicity; last uses, with outputs used by the caller |
| ReadySchedule.ConsumersCount | native/fideslib_stage0/include/packed_lifetime.hpp:12-22 | a live consumer is listed once per read |
| ReadySchedule.PackedReadySchedule.constructor | native/fideslib_stage0/include/packed_schedule.hpp:14-32 | the first frontier satisfies the invariant and is not empty while nodes remain |
| ReadySchedule.PackedReadySchedule.Select | native/fideslib_stage0/include/packed_schedule.hpp:39-51 | oldest if it fits or the limit is reached, else the oldest that fits, else the oldest; counts limit selections |
| ReadySchedule.PackedReadySchedule.Complete | native/fideslib_stage0/include/packed_schedule.hpp:66-81 | refuses exactly nodes that are not ready, else keeps the invariant over all counters and never leaves an empty frontier while nodes remain |
| ReadySchedule.PackedReadySchedule.ActivateEpoch | native/fideslib_stage0/include/packed_schedule.hpp:83-88 | advances to the next epoch with waiting nodes and restores the invariant |
| ReadySchedule.PackedReadySchedule.FinalUse | native/fideslib_stage0/include/packed_schedule.hpp:57-60 | true exactly when the value is no output and every unfinished reader is the given operation |
| ReadySchedule.PackedReadySchedule.NextConsumer | native/fideslib_stage0/include/packed_schedule.hpp:62-65 | the first unfinished reader, None exactly when there is none |
| ReadySchedule.PackedReadySchedule.RunAll | native/fideslib_stage0/include/packed_schedule.hpp:38-81 | whatever fits answers, a run ends with exactly the live nodes completed; the final live count is that of the live outputs if and only if every live node is needed |
| ReadySchedule.NeverStuck | native/fideslib_stage0/include/packed_schedule.hpp:81-81 | while nodes remain some node is ready, so the error is unreachable |
| ReadySchedule.FeedbackBarrier | native/fideslib_stage0/include/packed_schedule.hpp:9-11 | no node at or after a feedback node completes before all live nodes ahead of it |
| ReadySchedule.DataFlow | native/fideslib_stage0/include/packed_schedule.hpp:76-78 | every operand completes before its reader |
| ReadySchedule.AllCompleted | native/fideslib_stage0/include/packed_schedule.hpp:56-56 | an empty schedule has completed each live node exactly once |
| ReadySchedule.OnlyOutputsLeft | native/fideslib_stage0/include/packed_schedule.hpp:72-75 | at the end exactly the live outputs are retained if and only if every live node is an output or has a live reader |
| ReadySchedule.LiveCountsWanted | native/fideslib_stage0/include/packed_schedule.hpp:52-75 | in every reachable state the live count is that of the outputs and values still to be read if and only if each node that has run is an output or has a reader |
| ReadySchedule.UnreadStays | native/fideslib_stage0/include/packed_schedule.hpp:66-75 | on the program of one live node without output every finished run retains one value |
| ReadySchedule.CompletesKeeps | native/fideslib_stage0/include/packed_schedule.hpp:66-79 | one completion keeps pending counts, use counts, epoch counts, retained values and order true |
| ParallelPrefetch.StepKeeps | native/fideslib_stage0/include/bounded_prefetch.hpp:43-76 | every critical section, in any interleaving, keeps the queue invariant |
| ParallelPrefetch.RunSafe | native/fideslib_stage0/include/bounded_prefetch.hpp:43-129 | in every run the n-th popped item is produce(n) and in-flight plus ready items never exceed the capacity |
| ParallelPrefetch.NeverOverwrites | native/fideslib_stage0/include/bounded_prefetch.hpp:58-62 | the slot a worker publishes to is empty |
| ParallelPrefetch.NeverBlocked | native/fideslib_stage0/include/bounded_prefetch.hpp:48-52 | while nothing failed or was cancelled and items remain, some worker or the consumer can move |
| ParallelPrefetch.RunsEnd | native/fideslib_stage0/include/bounded_prefetch.hpp:43-129 | no run makes more effective moves than its initial work measure |
| ParallelPrefetch.StoppedMeansDelivered | native/fideslib_stage0/include/bounded_prefetch.hpp:111-129 | a run that cannot go on has delivered every item, unless something failed or was cancelled |
| ParallelPrefetch.JoinEnds | native/fideslib_stage0/include/bounded_prefetch.hpp:142-147 | after cancellation every running worker can move and its move ends it |
| ParallelPrefetch.ErrorIsFirst | native/fideslib_stage0/include/bounded_prefetch.hpp:66-71 | in every run there is an error exactly when some producer failed; it is that of the first failure, never changes, and pop hands out nothing from then on; the peak is the largest ready count so far |
| ParallelPrefetch.BoundedPrefetch.TakeIndex | native/fideslib_stage0/include/bounded_prefetch.hpp:46-56 | the locked section claims the next index or ends the worker |
| ParallelPrefetch.BoundedPrefetch.PublishItem | native/fideslib_stage0/include/bounded_prefetch.hpp:57-64 | the locked section files the item and counts it, or drops it after cancellation |
| ParallelPrefetch.BoundedPrefetch.ProducerFailed | native/fideslib_stage0/include/bounded_prefetch.hpp:66-72 | keeps the error that is there or stores this one, cancels, and keeps the invariant |
| ParallelPrefetch.BoundedPrefetch.CancelAll | native/fideslib_stage0/include/bounded_prefetch.hpp:142-144 | sets the cancellation flag and keeps the invariant |
| ParallelPrefetch.BoundedPrefetch.PopItem | native/fideslib_stage0/include/bounded_prefetch.hpp:111-127 | returns produce(consumed), or None where the error or the end is thrown |
| SinglePrefetch.StepKeeps | native/fideslib_stage0/include/bounded_prefetch.hpp:83-108 | every step of the one-worker form keeps order and capacity |
| SinglePrefetch.RunSafe | native/fideslib_stage0/include/bounded_prefetch.hpp:83-135 | in every run the n-th popped item is produce(n) and queue plus item in flight fit the capacity |
| SinglePrefetch.RunRecords | native/fideslib_stage0/include/bounded_prefetch.hpp:83-108 | failure, end and cancellation are recorded exactly when they happened, nothing is handed out after a failure, the peak is the largest queue so far |
| SinglePrefetch.EndIsReported | native/fideslib_stage0/include/bounded_prefetch.hpp:99-128 | after the last item pop can report the end, at once or after the worker's last step |
| SinglePrefetch.NeverBlocked | native/fideslib_stage0/include/bounded_prefetch.hpp:85-90 | while nothing failed or was cancelled and items remain, worker or consumer can move |
| PatersonStockmeyer.GiantStep | native/fideslib_stage0/include/stage1_joint_gates.hpp:110-120 | splitting at T_k keeps the value of the series |
| PatersonStockmeyer.JointEvaluator.Get | native/fideslib_stage0/include/stage1_joint_gates.hpp:77-85 | returns T_n of every head's input at level ceil(log2 n); every cached entry n is T_n |
| PatersonStockmeyer.JointEvaluator.EvaluateBlock | native/fideslib_stage0/include/stage1_joint_gates.hpp:86-109 | a scaled block evaluates its series exactly, one level above its deepest nonzero row's basis entry; None exactly when the shift is above 50 |
| PatersonStockmeyer.JointEvaluator.Evaluate | native/fideslib_stage0/include/stage1_joint_gates.hpp:86-121 | the recursion returns the series value for every head and every degree, at the level its multiplications consume; None exactly when some block cannot be encoded |
| PatersonStockmeyer.EvaluateJointRoots | native/fideslib_stage0/include/stage1_joint_gates.hpp:68-126 | both polynomials of every head, the second on the first one's cache |
| PatersonStockmeyer.FoldRows | native/fideslib_stage0/include/stage1_joint_gates.hpp:116-119 | the subtraction loop reflects the rows above k |
| PatersonStockmeyer.CoefficientSlots | native/fideslib_stage0/include/stage1_joint_gates.hpp:18-27 | the row stands on every head lane, zeros elsewhere |
| PatersonStockmeyer.PeriodicSlots | native/fideslib_stage0/include/stage1_joint_gates.hpp:32-47 | the periodic form agrees with the row on every head lane of every stream; None exactly for the rejected layouts |
| PatersonStockmeyer.CountLog2 | src/fhemamba/ckks_probes.py:27-31 | the loop is the ceiling of the binary logarithm |
| PatersonStockmeyer.BabyIsRoot | src/fhemamba/ckks_probes.py:34-36 | the square of the baby size lies between d + 1 and four times that |
| PatersonStockmeyer.LevelIsLog | src/fhemamba/ckks_probes.py:44-54 | basis entry i costs exactly ceil(log2 i) levels |
| PatersonStockmeyer.PsDepthBound | src/fhemamba/ckks_probes.py:39-67 | the level count is at most ceil(log2(d+1)) + 1 for every degree d |
| PatersonStockmeyer.SeriesLevelBound | src/fhemamba/ckks_probes.py:39-67 | the planned count is what the evaluation consumes at most, and exactly when the top row of every block is not zero |
| PatersonStockmeyer.EvaluationDepth | src/fhemamba/ckks_probes.py:39-67 | with the chosen baby size the evaluation consumes at most the planned depth, which is at most ceil(log2(d+1)) + 1 |
| ParitySplit.Split | experiments/security128/screen_polynomials.py:10-18 | the backward loop gives A and B with p(x) = A(T_2(x)) + x*B(T_2(x)) at every x |
| ParitySplit.OddIsTimesX | experiments/security128/screen_polynomials.py:10-18 | odd Chebyshev polynomials are x times polynomials in T_2 |
| Chebyshev.Doubling | experiments/security128/screen_polynomials.py:10-18 | T_2k is T_k composed with T_2 |
| TensorIndex.OffsetSplit | src/fhemamba/packed_program.py:246-250 | a row-major position splits into outer, axis and inner parts at any axis |
| TensorIndex.BroadcastAt | src/fhemamba/packed_program.py:230-251 | broadcasting in terms of multi-indices: axes of length 1 are read at 0 |
| TensorIndex.StretchAxis | src/fhemamba/packed_program.py:235-250 | stretching one axis repeats contiguous blocks |
| TensorIndex.BroadcastTwice | src/fhemamba/packed_program.py:235-250 | stretching axis after axis is one broadcast |
| PackedNodes.RepeatIsBroadcast | src/fhemamba/packed_program.py:246-250 | what a repeat node computes is numpy's broadcast along the axis |
| PackedNodes.Reproduced | src/fhemamba/packed_program.py:169-188 | interpreting nodes that each compute their recorded value reproduces all recorded values |
| PackedRuns.RunPrefix | src/fhemamba/packed_program.py:169-188 | nodes appended later change no earlier value of any run |
| PackedRuns.RunSized | src/fhemamba/packed_program.py:169-188 | on inputs and answers of the right sizes every value of every run has its node's size |
| PackedRuns.RunRecorded | src/fhemamba/packed_program.py:169-188 | on the recorded inputs a run is the interpretation |
| LoweringRuns.DenoteKept | src/fhemamba/packed_program.py:169-188 | what a packed value stands for in a run stays as nodes are appended |
| PackedLowering.PackedProgram.Emit | src/fhemamba/packed_program.py:169-188 | None exactly when the value does not fit the slots or the bound; else one node is appended that computes it and passes the reader, with the bound min(bound, max(1, 8*max)) |
| PackedLowering.PackedProgram.Faithful | src/fhemamba/packed_program.py:169-308 | interpreting the emitted node list gives back every recorded value |
| PackedLowering.PackedProgram.GatherFrom | src/fhemamba/packed_program.py:222-228 | the value read at the mapped positions, without a node for the identity; succeeds exactly when there are 1 to slots positions; in every run, whatever the inputs and client answers, it is the gather of the operand's value |
| PackedLowering.PackedProgram.Broadcast | src/fhemamba/packed_program.py:230-251 | the result is numpy's broadcast of the padded value, through repeats or the gather fallback; succeeds exactly when the shapes stretch and the target has 1 to slots entries; in every run, whatever the inputs and client answers, it is the broadcast of the operand's value |
| PackedLowering.PackedProgram.Binary | src/fhemamba/packed_program.py:253-264 | the result is numpy's broadcast sum or product; succeeds exactly when numpy's result exists and fits the slots and the bound; in every run, whatever the inputs and client answers, it is the combination of the operands' values |
| PackedLowering.PackedProgram.BinaryPlain | src/fhemamba/packed_program.py:253-264 | the same with a public tensor; in every run, whatever the inputs and client answers, it is the combination of the operand's value and the tensor |
| PackedLowering.PackedProgram.SumLast | src/fhemamba/packed_program.py:279-292 | the sum over the last axis, also through zero padding to a power of two; succeeds exactly when the axis may be summed so and the sums stay within the bound; in every run, whatever the inputs and client answers, it is the row sum of the operand's value |
| PackedTensors.SumOfPadded | src/fhemamba/packed_program.py:281-291 | zero padding does not change any row's sum |
| PackedLowering.PackedProgram.Concatenate | src/fhemamba/packed_program.py:294-308 | the sum of scatters is numpy's concatenation along the axis; succeeds exactly when the whole fits the slots; in every run, whatever the inputs and client answers, it is the concatenation of the parts' values |
| PackedTensors.PartScatters | src/fhemamba/packed_program.py:300-305 | a part's scatter targets are distinct and in range and put every entry at its shifted index |
| PackedLowering.PackedProgram.LinearMap | src/fhemamba/packed_program.py:266-277 | x @ weight.T, referring to the first node of a table that was used before; succeeds exactly when x is one row of the right width and the result fits the slots and the bound; in every run, whatever the inputs and client answers, it is the product of the operand's value with the table |
| PackedLowering.PackedProgram.AddSource | src/fhemamba/packed_program.py:190-194 | encrypted data become an input node, other data a public one; the first denotes what a run is given, the second its constant; succeeds exactly when the data fit |
| PackedLowering.PackedProgram.ClientInput | src/fhemamba/packed_program.py:212-220 | a feedback node that denotes the client's answer in every run; the reader accepts it if and only if the answer has the size of the value it answers; None exactly in the first format or when the value does not fit |
| PackedLowering.ReadableExactly | native/fideslib_stage0/include/packed_program.hpp:96-142 | the reader accepts every node of an emitted program if and only if all client answers have the sizes of the values they answer |
| PackedLowering.MismatchedAnswer | src/fhemamba/packed_program.py:212-220 | a two-node program the lowering emits and the reader refuses |
| LoweredExpressions.Lower | src/fhemamba/packed_program.py:222-308 | the nodes emitted for any expression of these operations compute, in every run, what numpy computes for the expression over the values of its leaves |
| AffineScan.ScanAffine | src/fhemamba/reference.py:69-85 | after the doubling loop entry t is the composition of all maps up to t |
| AffineScan.SpanJoin | src/fhemamba/reference.py:76-84 | composition over adjacent ranges is composition over their union |
| AffineScan.SpanAdvances | src/fhemamba/reference.py:103-110 | a composed range applied to a state is the sequential recurrence over that range |
| AffineScan.ChunkedScan | src/fhemamba/reference.py:88-112 | for every length, chunk size and carry the states are those of the sequential recurrence; None exactly for length 0 |
| DeferredState.DeferredMamba2State.Step | src/fhemamba/ssm_algebra.py:33-51 | the output is the dense recurrence's readout and the pending writes stand for the dense state; flushes exactly when the window fills |
| DeferredState.DeferredMamba2State.Materialize | src/fhemamba/ssm_algebra.py:53-58 | returns the dense state |
| DeferredState.DeferredMamba2State.Flush | src/fhemamba/ssm_algebra.py:60-66 | empties the window without changing the state |
| DeferredState.OutputIsReadout | src/fhemamba/ssm_algebra.py:45-48 | contracting key and query first reads the dense row |
| FactoredState.StepSame | src/fhemamba/mamba3.py:113-137 | one step from equivalent states gives equal outputs and equivalent states |
| FactoredState.ReadoutsAgree | src/fhemamba/mamba3.py:113-137 | on every run from the empty state the factored history gives the dense readouts |
| StateUpdate.UpdateTiled | src/fhemamba/tensor_ops.py:89-118 | updating head blocks one by one is the dense update and readout |
| NttTail.InPlaceTail | experiments/ntt_warp_tail/check_lane_mapping.py:12-25 | the in-place loop computes the five stages |
| NttTail.ExchangeTail | experiments/ntt_warp_tail/check_lane_mapping.py:26-45 | the lane-exchange loop computes the same five stages |
| NttTail.Received | experiments/ntt_warp_tail/check_lane_mapping.py:33-40 | after the exchange each thread holds its next pair, and its partner is in the same warp |
| NttTail.StageComputes | experiments/ntt_warp_tail/check_lane_mapping.py:17-22 | a stage of width m replaces entries x and y, m apart in a run of 2m, by the residues of x + w*y and x - w*y |
| NttTail.TwiddleOfRun | experiments/ntt_warp_tail/check_lane_mapping.py:12-25 | in a block of 2^n threads, thread t of stage k reads the twiddle at twice the index of its run of 2^(k+1) threads |
| NttTail.Check | experiments/ntt_warp_tail/check_lane_mapping.py:7-46 | for every block size divisible by 32 and all data both tails give the same array |
| NttTail.LazyProduct | experiments/ntt_lazy/check_arithmetic.py:17-19 | the lazily reduced product lies in [0,2p) before its truncation to a word |
| NttTail.LazyButterflyCorrect | experiments/ntt_lazy/check_arithmetic.py:16-24 | for all p with 4p <= 2^64 and inputs below 4p both outputs stay below 4p and are congruent to a+bw and a-bw |
| PlaintextCache.MaskFingerprint | native/fideslib_stage0/include/plaintext_cache.hpp:19-35 | admits exactly zeros plus at most one finite nonzero value |
| PlaintextCache.RunMaskFingerprint | native/fideslib_stage0/include/plaintext_cache.hpp:40-60 | admits exactly the same values |
| PlaintextCache.MaskPlaintextCache.Get | native/fideslib_stage0/include/plaintext_cache.hpp:77-117 | returns what encode returns whatever the hashes; entries, index and counters follow the replayed request sequence |
| PlaintextCache.MaskPlaintextCache.FindIndexed | native/fideslib_stage0/include/plaintext_cache.hpp:91-94 | the index finds a matching entry exactly when there is one |
| PlaintextCache.HoldsMostRecent | native/fideslib_stage0/include/plaintext_cache.hpp:99-117 | exactly the capacity most recently used distinct admitted keys are held, in order of use |
| PlaintextCache.CountersAdd | native/fideslib_stage0/include/plaintext_cache.hpp:84-112 | hits, misses and bypasses add up to the requests; misses less evictions are the entries |
| PlaintextCache.RunBoth | native/fideslib_stage0/include/plaintext_cache.hpp:70-117 | indexed and linear caches give the same results, counters and entries on every request sequence |
| PlaintextCache.RunFingerprints | native/fideslib_stage0/include/plaintext_cache.hpp:19-117 | the same for the two fingerprints of the program, over runs when indexed and value by value when not |
| DepthPlanner.CountRouting | native/fideslib_stage0/include/packed_depth.hpp:22-38 | the loop computes the charged routing depth |
| DepthPlanner.DepthIsStages | native/fideslib_stage0/include/packed_depth.hpp:22-38 | in the staged case it is the number of stages radix-8 routing produces |
| DepthPlanner.NodeDepthBound | native/fideslib_stage0/include/packed_depth.hpp:45-70 | no node the reader accepts costs more than 13 levels |
| DepthPlanner.FreeExactly | native/fideslib_stage0/include/packed_depth.hpp:45-70 | a node costs no level exactly when it is a source, an addition, a negation, or a scatter or repeat that moves nothing |
| DepthPlanner.Simulate | native/fideslib_stage0/include/packed_depth.hpp:72-98 | the loop computes the level simulation |
| DepthPlanner.NeverAboveCeiling | native/fideslib_stage0/include/packed_depth.hpp:72-98 | no simulated level exceeds the ceiling while every cost is at most ceiling - refreshed |
| DepthPlanner.ExceedsExactly | native/fideslib_stage0/include/packed_depth.hpp:80-92 | a node with operands exceeds the ceiling if and only if one of its operands is too high for it before any is refreshed and it costs more than ceiling - refreshed |
| DepthPlanner.RefreshesAlone | native/fideslib_stage0/include/packed_depth.hpp:72-77 | the refresh count and the levels do not depend on the output table passed in |
| DepthPlanner.PlanStaysBelow | native/fideslib_stage0/include/packed_depth.hpp:100-141 | for every accepted program and a gap of at least 13, as by default, the plan's levels stay at or below the ceiling |
| CeilingPolicy.CeilingExact | native/fideslib_stage0/include/packed_depth.hpp:100-141 | for an accepted policy, the plans of all accepted programs stay at or below the ceiling if and only if ceiling - refreshed >= 13 |
| CeilingPolicy.ChainPlanned | native/fideslib_stage0/include/packed_depth.hpp:113-139 | the planner has exactly one plan for the deep chain: all live, nothing deferred or hoisted, one refresh |
| DepthPlanner.PlanDepth | native/fideslib_stage0/include/packed_depth.hpp:100-141 | liveness, deferral and costs are the specified ones, the plan is what at most eight greedy passes make of the plan without hoists, the reported refresh count is that of re-simulating it; None exactly for an invalid policy |
| DepthPlanner.Hoist | native/fideslib_stage0/include/packed_depth.hpp:127-139 | one pass tries every eligible node in order, keeps exactly the hoists that lower the simulated count, and reports whether any did |
| DepthPlanner.SearchReaches | native/fideslib_stage0/include/packed_depth.hpp:124-139 | no single further hoist lowers the count of the returned plan, or eight passes each lowered it; the count is below that of the plan without hoists exactly when some single hoist helps there |
| DepthPlanner.HelpfulHoistIsUsed | native/fideslib_stage0/include/packed_depth.hpp:124-139 | where some eligible hoist of the plan without hoists saves a refresh, the returned plan needs fewer |
| DepthPlanner.CountUses | native/fideslib_stage0/include/packed_depth.hpp:113-119 | counts the reads of every value by live nodes, once per operand |
| DepthPlanner.MarkLive | native/fideslib_stage0/include/packed_depth.hpp:110-112 | live is exactly outputs and what live nodes read, and is closed under parents |
| DepthPlanner.LiveSuitsScheduler | native/fideslib_stage0/include/packed_depth.hpp:110-112 | this marking meets what the ready scheduler needs |
| DepthPlanner.FindDeferred | native/fideslib_stage0/include/packed_depth.hpp:116-122 | a mask is deferred exactly for linear nodes that are no output and that only gathers read |

## Left out

- GPU, CUDA, OpenFHE and FIDESlib calls, encryption noise, refresh correction and kernel launches: library behaviour is not visible in the repository.
- Binary64 rounding: arithmetic is exact; rounded public constants are parameters of the contracts.
- NormalizationInverseBound: assumes positive a coefficients, which the recipe reader enforces when it reads a schedule; its coverage is stated for a valid second cap, which the code's rounding does not guarantee.
- Lower: which expressions are refused follows from the operations' own conditions and is not stated again for the whole.
- EvaluationDepth: counts products of ciphertexts and with coefficient rows; what the power-of-two scaling of a block costs is up to the library.
- ViolationFound: a violation behind a point where the polynomial touches its bound may stay behind an undecided segment; nothing is stated about it.
- OneStepIsNotEnough: the two rounding conditions are written as inequalities over integers; binary64 itself is not modelled.
- CertifiedEventually: a bound that is touched without a margin may be certified, refuted or left undecided; nothing is stated about it.
- LayoutExact: layouts whose mask stores leave the batch raise an error in the program and are outside the statement.
- CeilingExact: programs may have any number of nodes; the deep chain has ceiling + 3, and the reader stops at 1,000,000.
- CertifyDissipativeGate: the binary64 conversion of the squared norm and its upward neighbour are parameters assumed to bracket it.
- CertifyBounds: lower and upper are exact reals; the conversion of binary64 inputs to rationals is the identity here.
- plan_invsqrt, Chebyshev fitting and calibration: they only propose candidates that the certifiers then judge.
- Cost formulas of the layouts, plan_keys and key size estimates: sums and table look-ups with no property beyond their own text.
- Text and binary parsing: packed programs are node lists; the reader's structural checks are the predicate PackedNodes.Readable.
- PlanRouting: index lists are integers; the finiteness and integrality tests on binary64 entries belong to parsing.
- EvaluateJointRoots: coefficients are rows of heads instead of one flat vector, and the power-of-two shift of a block is any function of the block, so the logarithms that choose it are not modelled.
- RotatePaths: the sibling callback is taken to return the rotation by each step.
- ReadySchedule: nodes are given by parents, feedback flag and liveness; the live set has to be closed under parents, which DepthPlanner.MarkLive proves of the planner's marking.
- BoundedPrefetch: locks, condition variables, thread creation and exception objects are guarded atomic steps and an error flag; producers are functions of the index.
- PlaintextCache: list iterators are entry identifiers, a bucket is searched in list order (at most one entry matches), and the bucket function is arbitrary.
- GatherFrom: mappings come from numpy indexing of an arange, so negative positions do not occur.
- LinearMap: a weight object is a key that always stands for the same table; mutating a weight array between calls is not modelled.
- Concatenate: parts have equal lengths on all other axes, as numpy's own concatenate demands.
- PackedProgram.nonlinear and recurrent_state: the polynomial node is in the node language and the planner, its emission would only add an easy member.
- DeferredMamba2State, FactoredState: one head; heads evolve independently under one public schedule, and the head-tiled form is StateUpdate.UpdateTiled.
- AffineScan: one (batch, channel, state) lane; all lanes run alike.
- consume_or_clone, rotary angles, complex_trapezoid_scan, cubic_phase and mixers around the recurrences: ownership tests or straight-line formulas.
- Error message texts and trace output.
