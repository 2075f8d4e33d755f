# Nightstream in Dafny

A model of the exact algebra, the fast loops and the protocol steps of Nightstream, a lattice folding
prover, with proofs about them. Everything is stated over the concrete parameters of the code: the
Goldilocks field F_q with q = 2^64 - 2^32 + 1, its quadratic extension K, and the ring
R_q = F_q[X]/(X^54 + X^27 + 1). Loops that change buffers in place are methods proved against a
specification; what is promised about the specification is proved as lemmas. `dafny verify
dfyconfig.toml` checks the project.

| files | contents |
|---|---|
| `Arithmetic`, `Field`, `Goldilocks`, `ExtField`, `Vectors`, `KPolynomials` | F_q and K (q is prime, K is a field), polynomials over K, interpolation |
| `Ring`, `Polynomials`, `Multiply`, `Rotations` | R_q, the 3-way multiplication and its reduction, monomials, rotation matrices |
| `Ajtai`, `Streaming`, `Registry` | Ajtai commitments and their laws, seeded streaming, the process-wide parameter registry |
| `Digits`, `Ranges`, `Decomp`, `DecompCommit`, `Fold`, `ChunkFold` | balanced digits and their ranges, RLC and DEC, runs of chunks |
| `Norms`, `Reach`, `GuardReach` | norm growth, its guard, and what combinations really reach |
| `SumCheck`, `Degrees`, `Batched`, `Binding`, `TimeOpening` | sum-check, the claims its soundness covers, its batched form, what their transcripts bind, and the opening unification built on it |
| `Matrices`, `Transform`, `SuperNeo`, `Evaluators`, `RingEval` | Gauss-Jordan, the `bar` transform, caches and evaluators |
| `Csc`, `DirectSum`, `Layout` | sparse matrices, block-diagonal composition, chunk layouts |
| `Quaternion`, `AntiFixed`, `Abba`, `AbbaCombination` | theta, commutators, the compressed basis, ABBA commitments |
| `RlcPublic`, `DecPublic`, `ClaimLaws` | the public checks of claims, and what they mean |

Main results:

- The streamed, masked, precomputed and row-major commitments are one function, and it is a module
  homomorphism (`Streaming.CommitRowMajorSeeded`, `Ajtai.LinCombOfCommitments`). Ring openings of real
  witnesses are the same kind of function (`RingEval.OpeningIsCommitment`), so folding preserves them.
- RLC followed by DEC never overflows on balanced digits, for every base, and along a run of chunks all
  commitments and openings recombine (`Norms.CombinationSplits`, `ChunkFold.FoldRun`,
  `ChunkFold.RunRecombines`).
- What combinations really reach is known exactly for every challenge alphabet, with and without the
  projection of the `abba` builds, and with it when all of them split and when the sampling guard is
  enough (`Reach.ReachAttained`, `GuardReach.CombinationsSplitExactly`, `GuardReach.GuardSufficesAtExactly`).
- Sum-check is complete and deterministically sound, single and batched (`SumCheck.ProveThenVerify`,
  `Batched.BatchedProveThenVerify`, `SumCheck.Soundness`, `Batched.BatchedSoundness`,
  `Degrees.ExpressionSoundness`), and its transcript binds everything the parties send
  (`Binding.WalkBinds`, `Binding.BatchBinds`).
- A folding step is complete: honest claims combine to the claim of the combined witness, and its honest
  split is accepted (`ClaimLaws.HonestCombination`, `ClaimLaws.FoldingStepAccepted`); acceptance means that
  every checked field recombines (`ClaimLaws.AcceptedMeans`).
- Gauss-Jordan inverts exactly the invertible matrices, and every evaluator computes one value
  (`Matrices.InvertMatrix`, `Evaluators.*`, `RingEval.*`).
- Under every interleaving of the registry, a handle answers with one commitment
  (`Registry.CommitmentsNeverChange`).
- ABBA commitments scale exactly for scalars fixed by theta, and combine with them
  (`Abba.OnlyRealScalars`, `AbbaCombination.CombinationOfCommitments`).

## How the code is modelled

- F_q values are the canonical integers below q, with multiplication by doubling and adding; K is a
  pair. Field identities of integers are used through `Field.RedMul` and `Field.RedAdd`.
- A ring element is its 54 coefficients. Multiplication is defined by shifts,
  a * b = sum of a_t X^t b, and the code's algorithms are proved equal to it.
- The hash behind the transcript is an arbitrary function of everything absorbed and squeezed so far;
  ChaCha streams are arbitrary functions of seed and position. A round oracle is an arbitrary state
  machine with any state type, so the sum-check results hold for every oracle.
- Parallel folds are folds over an arbitrary tree of splits (`Ajtai.Schedule`).
- The registry is a map whose lock sections are atomic steps; loaders read a seed, compute, and write
  back in separate steps, interleaved arbitrarily.
- Caller-supplied commitment mixers are arbitrary functions.
- Where the code asserts and panics (dimensions, lengths) the model has a precondition, except in the
  registry, whose commitments answer or panic; where the code returns an error the model returns it.

## Where the code and its documentation differ

- `mul_by_monomial` (crates/neo-math/src/ring.rs:61-99) drops coefficients that land at degree 135 or
  more, so it is multiplication by X^j on every operand exactly for j <= 81. The callers stay below.
- The sampling guard count * T * (b - 1) < b^k, with T = 108 c for the largest size c in the alphabet,
  bounds the combination below b^k, but a k-digit split reaches only floor(b/2)(b^k - 1)/(b - 1). Let w be
  the difference of the largest and the smallest coefficient. One claim with entries up to beta reaches
  27 (c + max(c, w)) beta. For entries up to b - 1, which the guard supposes, the guard is enough for all
  counts and digits exactly when (c + max(c, w)) (b - 1) <= 4 c floor(b/2)
  (`GuardReach.GuardSufficesExactly`): for the alphabet -2..2 and all symmetric ones this is b = 2 and no
  other 32-bit base, for alphabets such as 0..c every base (`GuardReach.GuardForSymmetric`,
  `GuardReach.GuardForOneSign`). The bases 2642246 .. 2^22 - 1 are an exception: there two digits admit so
  few claims that whole ones count, and the exact condition is that of `GuardReach.GuardForTwoDigits`. For
  witnesses made of balanced digits, which is what the folding loop carries, the guard is enough for every
  base and alphabet (`Norms.CombinationSplits`).
- With the feature `abba` the sampler replaces a challenge a by a + theta(a)
  (crates/neo-reductions/src/common.rs:767-781) while the guard keeps T = 108 c. A claim then reaches
  53 (c + w) beta. The guard is enough for balanced digits exactly when 53 (c + w) <= 108 c
  (`GuardReach.GuardForDigits`), and for symmetric alphabets, that of the code included, for no base
  (`GuardReach.GuardWithProjection`; a concrete case is `GuardReach.GuardIsNotEnoughWithProjection`).
- `balanced_digit_and_next` (crates/neo-ajtai/src/decomp.rs:14-31) differs from the DEC rule on
  negative values at the midpoint of an odd base. For b = 3 the row-major loop reaches the arm marked
  unreachable exactly when the absolute value of some negative entry has the ternary digit 2 among the
  rows (`Decomp.DecompRowMajor`, `Decomp.PanicWitnesses`).
- `direct_sum` is documented to enforce both systems independently. On a pair of solutions it holds
  exactly when neither polynomial has a constant term (`DirectSum.ConstantTermBreaksSum`); the pairs it
  accepts wrongly are exactly those whose rows cancel the constant terms (`DirectSum.WronglyAccepted`).
- `verify_dec_public` announces a check of the digit-range channel, but acceptance does not depend on
  its values: it ensures that they recombine exactly when there is no channel
  (`DecPublic.ChannelValuesUnchecked`, `DecPublic.ChannelRecombinesExactly`).

## Model

| member | source | states |
|---|---|---|
| Field.RedMul | crates/neo-math/src/field.rs:11-17 | reduction modulo q carries the product of any two integers to the double-and-add product of the field; with `Field.RedAdd` this makes integer arithmetic speak about F_q |
| Field.MulIsProduct | crates/neo-math/src/field.rs:11-17 | double-and-add multiplication of canonical values is the product modulo q |
| Goldilocks.QIsPrime | crates/neo-math/src/field.rs:11-17 | q = 2^64 - 2^32 + 1 is prime: no divisor between 1 and q |
| Goldilocks.InvIsInverse | crates/neo-math/src/field.rs:62-64 | the inverse used by Gauss-Jordan and interpolation is an inverse of every nonzero element |
| Goldilocks.SevenIsNoSquare | crates/neo-math/src/s_action.rs:57-58 | u^2 - 7 has no root in F_q |
| ExtField.KMulAssoc | crates/neo-math/src/field.rs:14-17 | multiplication in K = F_q[u]/(u^2 - 7) is associative |
| ExtField.KMulAdd | crates/neo-math/src/field.rs:14-17 | multiplication in K distributes over addition |
| ExtField.KInvIsInverse | crates/neo-math/src/field.rs:62-64 | a * inv(a) = 1 for every nonzero a in K |
| ExtField.KProductNonzero | crates/neo-math/src/field.rs:14-17 | K has no zero divisors |
| ExtField.BaseIsHomomorphic | crates/neo-math/src/field.rs:75-78 | the embedding of F_q in K keeps sums, differences and products |
| Polynomials.PhiVanishes | crates/neo-math/src/ring.rs:215-241 | X^54 + X^27 + 1 kills every ring element, and X^81 is the identity |
| Polynomials.ActPolyTimes | crates/neo-math/src/ring.rs:215-241 | the coefficients of a polynomial product act as one factor after the other: reduction modulo Phi is a ring homomorphism |
| Polynomials.TimesIsReducedProduct | crates/neo-math/src/ring.rs:50-58 | the ring product is the polynomial product reduced modulo Phi |
| Ring.TimesComm | crates/neo-math/src/ring.rs:50-58 | the ring product commutes |
| Ring.TimesAssoc | crates/neo-math/src/ring.rs:50-58 | the ring product is associative |
| Ring.TimesPlus | crates/neo-math/src/ring.rs:50-58 | the ring product distributes over addition |
| Ring.TimesOne | crates/neo-math/src/ring.rs:24-28 | 1 is neutral for the ring product |
| Ring.ActComm | crates/neo-math/src/s_action.rs:49-55 | any two polynomial actions commute with each other on every vector |
| Multiply.ReduceModPhi81 | crates/neo-math/src/ring.rs:225-241 | the in-place downward pass leaves in the low half the class of the input modulo Phi, and clears the high half |
| Multiply.MulSchoolbookChunk | crates/neo-math/src/ring.rs:458-467 | the double loop on 18-coefficient chunks gives the coefficients of the product |
| Multiply.EvaluationPoint | crates/neo-math/src/ring.rs:488-509 | the product of the operand values at 1, -1 and 2 is the value there of the five product chunks |
| Multiply.Mul3WayKaratsuba54 | crates/neo-math/src/ring.rs:470-532 | evaluation, five chunk products, interpolation and placement give all 107 coefficients of the polynomial product |
| Multiply.MulRq | crates/neo-math/src/ring.rs:52-58 | `Rq::mul` is the product modulo X^54 + X^27 + 1 |
| Rotations.RotStep | crates/neo-ajtai/src/commit.rs:52-60 | one rotation step writes multiplication by X into the next column |
| Rotations.MulByMonomial | crates/neo-math/src/ring.rs:61-99 | for every exponent, the result is X^j times the coefficients that stay below the cutoff of the branches |
| Rotations.MulByMonomialExact | crates/neo-math/src/ring.rs:61-99 | `mul_by_monomial(j)` is multiplication by X^j if and only if no nonzero coefficient reaches the cutoff 135 |
| Rotations.MulByMonomialRange | crates/neo-math/src/ring.rs:61-99 | it is right for every operand if and only if j <= 81 |
| Rotations.RotFromCoeffs | crates/neo-reductions/src/common.rs:447-480 | column j of the rotation matrix is j shifts modulo the given Phi applied to the coefficients |
| Rotations.ValidateRho | crates/neo-reductions/src/common.rs:510-559 | accepts exactly the D x D matrices whose columns are the successive shifts of their first column |
| Rotations.RotActsAsTimes | crates/neo-math/src/s_action.rs:27-47 | the matrix rot(a) times a vector is the ring product with a |
| Ajtai.AccMulAdd | crates/neo-ajtai/src/commit.rs:72-127 | every branch on the scalar (0, 1, -1, other) adds scalar * col |
| Ajtai.AccumulateColumn | crates/neo-ajtai/src/commit.rs:943-978 | one column against one key adds their ring product to the accumulator, in place |
| Ajtai.CommitMaskedCt | crates/neo-ajtai/src/commit.rs:943-978 | the masked loop computes the matrix of ring elements times the witness |
| Ajtai.PrecomputeRotColumns | crates/neo-ajtai/src/commit.rs:1018-1026 | the precomputed columns are a * X^t for all t |
| Ajtai.PrecompFold | crates/neo-ajtai/src/commit.rs:1042-1122 | the parallel fold over precomputed columns gives the inner product for every way of splitting the range |
| Ajtai.CommitPrecompCt | crates/neo-ajtai/src/commit.rs:1042-1122 | the precomputed loop gives the same commitment as the masked one, under every schedule |
| Ajtai.TryCommit | crates/neo-ajtai/src/commit.rs:714-735 | succeeds exactly on d * m coefficients, and then returns the matrix times the columns |
| Ajtai.CommitOfMonomial | crates/neo-ajtai/src/commit.rs:943-978 | the commitment of a single X^t in one column is the key of that column rotated t times, row by row |
| DecompCommit.CommitDecomposed | crates/neo-ajtai/src/commit.rs:714-771 | committing to the column-major digits of `decomp_b` and to the row-major ones gives one commitment, that of the digit columns |
| Ajtai.SMulAdd | crates/neo-ajtai/src/commit.rs:832-861 | all rotation columns together add rho * c to the accumulator, in place |
| Ajtai.SMul | crates/neo-ajtai/src/commit.rs:897-903 | `s_mul` multiplies every component by rho in the ring |
| Ajtai.SLincomb | crates/neo-ajtai/src/commit.rs:905-924 | the combination of rho_i * c_i, with each error exactly on empty input and on a length mismatch |
| Ajtai.LinCombIsInner | crates/neo-ajtai/src/commit.rs:905-924 | every entry of a combination is the inner product of the challenges with the entries there |
| Ajtai.CommitIsHomomorphic | crates/neo-ajtai/src/commit.rs:831-861 | rho * commit(Z) = commit(rho * Z) for every kappa, m, key matrix, rho and Z |
| Ajtai.CommitIsAdditive | crates/neo-ajtai/src/commit.rs:905-924 | the commitment of a sum is the sum of the commitments |
| Ajtai.LinCombOfCommitments | crates/neo-ajtai/src/commit.rs:905-924 | the combination of commitments is the commitment of the combined witness, any number of terms |
| Streaming.RowSeeds | crates/neo-ajtai/src/commit.rs:242-249 | the per-row seeds drawn one after the other are the blocks of the seed stream |
| Streaming.SetupPar | crates/neo-ajtai/src/commit.rs:162-232 | the chunked, parallel fill gives the key matrix of the seed for every chunk size; fails exactly for d != 54 |
| Streaming.SetupEntryFrom | crates/neo-ajtai/src/commit.rs:162-238 | entry (i, j) of the parameters is element j mod 32768 of the stream of chunk j / 32768 of row i |
| Streaming.LastNonzeroByColumn | crates/neo-ajtai/src/commit.rs:283-423 | the scan finds the last nonzero entry of every column |
| Streaming.AccumulateSparseColumn | crates/neo-ajtai/src/commit.rs:283-423 | skipping zeros and stopping at the last nonzero entry still adds key * column |
| Streaming.SeededFold | crates/neo-ajtai/src/commit.rs:283-423 | for every split of the chunk range, the fold is the inner product with the keys of that range |
| Streaming.CommitRowMajorSeeded | crates/neo-ajtai/src/commit.rs:283-423 | the streamed commitment equals setting up the keys and committing densely |
| Streaming.CommitRowMajorSeededMany | crates/neo-ajtai/src/commit.rs:431-706 | committing many matrices with every key drawn once equals one streamed commitment each, for every way of splitting the chunks |
| Streaming.CommitMaskedCtRowMajor | crates/neo-ajtai/src/commit.rs:982-1010 | the masked loop that reads entries across the rows computes the same commitment as on columns |
| Streaming.PrecompFoldRowMajor | crates/neo-ajtai/src/commit.rs:1126-1207 | the precomputed fold across the rows gives the inner product for every way of splitting the range |
| Streaming.CommitPrecompCtRowMajor | crates/neo-ajtai/src/commit.rs:1126-1207 | the precomputed row-major loop computes the same commitment, under every schedule |
| Streaming.TryCommitRowMajor | crates/neo-ajtai/src/commit.rs:751-771 | either row-major loop gives the dense commitment; fails exactly on wrong dimensions |
| Registry.PpRegistry.SetGlobalPp | crates/neo-ajtai/src/s_module.rs:30-54 | the new map and result of registering loaded parameters; no entry changes its meaning |
| Registry.PpRegistry.SetGlobalPpSeeded | crates/neo-ajtai/src/s_module.rs:60-125 | the new map and the error of every conflict of seed, kappa and loaded parameters; no entry changes its meaning |
| Registry.PpRegistry.UnloadGlobalPp | crates/neo-ajtai/src/s_module.rs:155-172 | unloading drops only parameters that a seed can restore; no entry changes its meaning |
| Registry.PpRegistry.GetOrLoad | crates/neo-ajtai/src/s_module.rs:182-222 | returns what the entry stands for and leaves it loaded; succeeds exactly on registered entries |
| Registry.FirstSeeded | crates/neo-ajtai/src/s_module.rs:116-125 | a first seeded registration succeeds, leaves all other entries and makes commitments those of the key matrix of that seed with kappa rows |
| Registry.FirstLoaded | crates/neo-ajtai/src/s_module.rs:45-53 | a first registration of loaded parameters succeeds, leaves all other entries and makes commitments those of their rows |
| Registry.SeededAgain | crates/neo-ajtai/src/s_module.rs:66-114 | a second seeded registration changes nothing and succeeds exactly for the same seed and kappa, with the error of every other case |
| Registry.LoadedAgain | crates/neo-ajtai/src/s_module.rs:36-44 | loaded parameters never replace an entry and are refused for seeded ones |
| Registry.UnloadForgets | crates/neo-ajtai/src/s_module.rs:155-172 | unloading drops the loaded parameters of that entry alone, and fails exactly without a seed |
| Registry.AloneLoads | crates/neo-ajtai/src/s_module.rs:182-222 | a loader that runs alone ends with what the entry stands for, now loaded, or with the error |
| Registry.PpRegistry.Commit | crates/neo-ajtai/src/s_module.rs:337-365 | commits with the parameters the entry stands for, and panics exactly on other shapes, unregistered keys and d other than 54 |
| Registry.PpRegistry.CommitMany | crates/neo-ajtai/src/s_module.rs:367-404 | the list of those commitments, from loaded parameters or one streamed pass; panics as soon as one of them would, and never on an empty list |
| Registry.AnswersExactly | crates/neo-ajtai/src/s_module.rs:337-404 | on a consistent map a commitment answers if and only if (d, m) is registered, d = 54 and the witness has that shape |
| Registry.EntriesStep | crates/neo-ajtai/src/s_module.rs:155-222 | in every step of every thread an entry keeps a seed or loaded parameters, is never removed, never changes kappa or seed, and a seeded entry only holds the setup of its seed |
| Registry.StepIsSafe | crates/neo-ajtai/src/s_module.rs:182-222 | the invariant of map and loader threads survives every step, including a write-back after other threads ran |
| Registry.RunIsSafe | crates/neo-ajtai/src/s_module.rs:182-222 | the invariant holds after every interleaved run |
| Registry.CommitmentsNeverChange | crates/neo-ajtai/src/s_module.rs:337-404 | whatever runs in between (unload, reload, further registrations), a handle answers every witness and every list of witnesses with the same commitments, or panics as before; it answers exactly for d = 54 and that shape |
| Registry.LoadersAgree | crates/neo-ajtai/src/s_module.rs:182-222 | any two loaders of one key return equal parameters, however they interleave |
| Digits.BalancedStepHolds | crates/neo-reductions/src/common.rs:30-49 | one step yields v = q b + r with |r| <= b/2 and ties to the sign of v |
| Digits.BalancedStepUnique | crates/neo-reductions/src/common.rs:30-49 | that rule determines digit and quotient |
| Digits.QuotientShrinks | crates/neo-reductions/src/common.rs:52-68 | quotients shrink, so the 64-bit path cannot leave its range |
| Digits.Base2Agrees | crates/neo-reductions/src/common.rs:71-79 | the shift-based base-2 step is the general step at b = 2, for negative values too |
| Digits.SplitKeepsValue | crates/neo-reductions/src/common.rs:101-360 | v is the sum of b^i r_i over k digits plus b^k times the rest, for all b and k |
| Digits.DigitsBounded | crates/neo-reductions/src/common.rs:101-360 | every digit is at most floor(b/2) in size |
| Digits.MaxRepClosedForm | crates/neo-reductions/src/common.rs:1031-1064 | the range of k digits is floor(b/2) (b^k - 1)/(b - 1), below b^k |
| Digits.SplitSucceedsExactly | crates/neo-reductions/src/common.rs:101-360 | k digits use up v if and only if |v| is in that range |
| Digits.DigitTable | crates/neo-reductions/src/common.rs:82-94 | the lookup table holds the field form of every digit from -half to half |
| Digits.BudgetValue | crates/neo-reductions/src/common.rs:101-360 | the branches on an entry select its centred value and compare it with the budget |
| Digits.WriteDigits | crates/neo-reductions/src/common.rs:101-360 | the digit loop writes exactly the digits of one entry, leaves the others, and raises exactly the flags of nonzero digits |
| Digits.SplitB | crates/neo-reductions/src/common.rs:101-360 | succeeds exactly when every centred entry is in range; digits, flags, first failing entry and error kind are exact |
| Digits.IsRepresentable | crates/neo-reductions/src/common.rs:1031-1064 | the early-stopping test accepts exactly the values within the range of 54 digits |
| Digits.DecomposeFixed | crates/neo-reductions/src/common.rs:1069-1117 | 54 digits that add up to the value, or failure exactly outside the range |
| Decomp.StepKeepsValue | crates/neo-ajtai/src/decomp.rs:14-31 | both digit styles split a value exactly |
| Decomp.RulesAgreeExactly | crates/neo-ajtai/src/decomp.rs:14-31 | this rule and the DEC rule agree if and only if not (b odd, a negative, residue at floor(b/2)) |
| Decomp.MidpointStep | crates/neo-ajtai/src/decomp.rs:14-31 | the digit is one of least size with ties to the sign if and only if off that midpoint |
| Decomp.EvenBasesAgree | crates/neo-ajtai/src/decomp.rs:14-31 | for even bases the two rules are the same function; always |digit| <= (b+1)/2 |
| Decomp.MissingArm | crates/neo-ajtai/src/decomp.rs:250-255 | one digit step with b = 3 reaches the missing arm exactly on negative values that are 1 modulo 3, -2 being the first |
| Decomp.PanicsExactly | crates/neo-ajtai/src/decomp.rs:138-333 | some digit of the first rows has no arm if and only if b = 3, the style is balanced and the absolute value of some negative entry has the ternary digit 2 among those rows |
| Decomp.PanicWitnesses | crates/neo-ajtai/src/decomp.rs:138-333 | the whole loop panics on -2 from one row on, on -6 from two rows on, and never on -4 or 5 |
| Decomp.DigitFieldIsRed | crates/neo-ajtai/src/decomp.rs:92-110 | a digit cast to i32 becomes its own residue if and only if its size is below 2^31 |
| Decomp.DecompB | crates/neo-ajtai/src/decomp.rs:35-122 | column-major digits of every entry, for both styles |
| Decomp.DigitRow | crates/neo-ajtai/src/decomp.rs:138-333 | one row of digits with what is left of every entry, or a value without a match arm |
| Decomp.DecompRowMajor | crates/neo-ajtai/src/decomp.rs:138-333 | the early-exit loop gives all rows of digits, zero rows included; it panics exactly when b = 3, the style is balanced and a negative entry has the ternary digit 2 in its absolute value |
| Decomp.SameUpToTranspose | crates/neo-ajtai/src/decomp.rs:130-333 | column-major and row-major outputs hold the same digits, transposed |
| Decomp.SplitEntry | crates/neo-ajtai/src/decomp.rs:337-391 | `split_b` writes the digits of the DEC rule (balanced) or of the remainder rule |
| Decomp.SplitsAgree | crates/neo-ajtai/src/decomp.rs:337-391 | the digit fields of `split_b` and of the DEC split are equal for all 32-bit bases |
| Decomp.EvenDigitsAgree | crates/neo-ajtai/src/decomp.rs:35-391 | for even b every digit and rest of `decomp_b` is that of the DEC split |
| Decomp.Recomposes | crates/neo-ajtai/src/decomp.rs:35-122 | for every base and style the digits and the rest add up to the value |
| Norms.RedAct | crates/neo-reductions/src/common.rs:447-480 | reducing an integer rotation modulo q is the ring product of the reductions |
| Norms.ShiftKeepsPairs | crates/neo-reductions/src/common.rs:413-423 | the pairwise bound behind the factor 2 survives every shift: entries and differences half a ring apart |
| Norms.ActBounded | crates/neo-reductions/src/common.rs:413-423 | a product with an operand of pairwise bound m grows a vector of size beta to at most D beta m, the expansion factor |
| Norms.Expansion | crates/neo-reductions/src/common.rs:416-423 | T = 2 D c for the largest coefficient c of the alphabet |
| Norms.CenteredIsLeast | crates/neo-reductions/src/common.rs:101-360 | no integer representative is smaller than the centred one |
| Norms.CombinationIsSmall | crates/neo-reductions/src/common.rs:719-752 | entries of the combination of n small witnesses are at most n T beta |
| Norms.MinKRho | crates/neo-reductions/src/common.rs:807-828 | returns the least exponent with n T (b-1) < b^k, and each error exactly |
| Norms.GuardGrows | crates/neo-reductions/src/common.rs:807-828 | the guard holds from its least exponent on |
| Norms.CheckNormBound | crates/neo-reductions/src/common.rs:719-752 | the sampling check passes exactly under the guard with b^k within 128 bits |
| Norms.GuardCoversDigits | crates/neo-reductions/src/common.rs:719-752 | for every base b >= 2 the guard puts n T floor(b/2) within the range of k digits |
| Norms.GuardedValuesSplit | crates/neo-reductions/src/common.rs:719-752 | all integers below b^k in size split into k digits if and only if b = 2 or k = 0 |
| Norms.ExactGuard | crates/neo-reductions/src/common.rs:719-752 | all integers up to n in size split into k digits if and only if n is at most floor(b/2)(b^k-1)/(b-1) |
| Norms.CombinationSplits | crates/neo-reductions/src/common.rs:719-766 | RLC then DEC in builds without the projection: balanced-digit witnesses, rotations with coefficients up to c and the guard put every entry of the combination within range, for every base |
| Reach.ProjectedReduces | crates/neo-reductions/src/common.rs:767-781 | the projection a + theta(a) of a challenge, over the integers: its coefficients are sums and differences of at most three sampled ones |
| Reach.ColumnReach | crates/neo-reductions/src/common.rs:413-480 | one challenge with coefficients between the least and the greatest of an alphabet, times a column: no entry exceeds 27 (c + max(c, width)) beta, or 53 (c + width) beta with the projection |
| Reach.ReachBound | crates/neo-reductions/src/common.rs:719-785 | no entry of a combination of n claims exceeds n times that, for every alphabet, with and without the projection |
| Reach.ReachAttained | crates/neo-reductions/src/common.rs:719-785 | every value g y + h u is an entry of a combination of challenges drawn from the alphabet, where g and h are the sizes of single and of joined row entries; y and u at their largest give the bound |
| Reach.SplitsExactly | crates/neo-reductions/src/common.rs:719-785 | all combinations of n claims split into k digits if and only if the bound for n claims, or half of the field, is within floor(b/2)(b^k - 1)/(b - 1), for every alphabet of integers whose steps do not jump over the values that wrap |
| Ranges.RangesStayAway | crates/neo-reductions/src/common.rs:101-360 | for every 32-bit base the range of k digits covers half of the field or stays 2^30 below it |
| GuardReach.CombinationsSplitExactly | crates/neo-reductions/src/common.rs:719-785 | for signed bytes and 32-bit bases that condition is exact for every count, number of digits and bound on the entries, values that wrap included |
| GuardReach.CombinationsSplitInCode | crates/neo-reductions/src/common.rs:385-410 | for the alphabet -2..2 of the code it is exact for every base |
| GuardReach.GuardIsRep | crates/neo-reductions/src/common.rs:807-828 | the guard holds if and only if count * T is at most 1 + b + ... + b^(k-1) |
| GuardReach.GuardSufficesAtExactly | crates/neo-reductions/src/common.rs:719-785 | for given digits, all sampled combinations split if and only if those of the largest count under the guard do: every alphabet of signed bytes, 32-bit base and bound on the entries, both builds |
| GuardReach.GuardSufficesIf | crates/neo-reductions/src/common.rs:719-785 | for every base, alphabet and build: if one claim reaches no more than T floor(b/2), the guard suffices for all counts and digits |
| GuardReach.GuardSufficesWhereDecided | crates/neo-reductions/src/common.rs:719-785 | and only if, for bases up to 4096 and wherever the excess is not below one part in 150 (300 for most bases); below that the condition per number of digits decides |
| GuardReach.GuardForTwoDigits | crates/neo-reductions/src/common.rs:719-785 | for the bases above 2642245 the guard suffices if and only if the floor((b + 1) / T) claims of two digits split |
| GuardReach.GuardForDigits | crates/neo-reductions/src/common.rs:719-785 | on balanced digits the guard suffices if and only if a challenge reaches no more than T: always without the projection, and with it exactly when 53 (c + width) is at most 108 c |
| GuardReach.GuardSufficesExactly | crates/neo-reductions/src/common.rs:719-766 | without the projection and for entries up to b - 1, the guard suffices for all counts and digits if and only if (c + max(c, width)) (b - 1) is at most 4 c floor(b/2): every alphabet of signed bytes and every 32-bit base outside 2642246 .. 2^22 - 1 |
| GuardReach.GuardForSymmetric | crates/neo-reductions/src/common.rs:385-410 | for symmetric alphabets such as that of the code this is base 2 and no other 32-bit base |
| GuardReach.GuardForOneSign | crates/neo-reductions/src/common.rs:719-766 | for alphabets no wider than large, such as 0..c, it is every base |
| GuardReach.GuardWithProjection | crates/neo-reductions/src/common.rs:767-781 | with the projection, symmetric alphabets break the guard for every 32-bit base, already on balanced digits |
| GuardReach.GuardIsNotEnoughForBaseThree | crates/neo-reductions/src/common.rs:719-766 | a combination with the alphabet of the code, b = 3, k = 7 and entries up to b - 1 that meets the guard and does not split |
| GuardReach.GuardIsNotEnoughWithProjection | crates/neo-reductions/src/common.rs:767-781 | one projected claim with b = 2, k = 8 and entries up to 1 that meets the guard and has an entry beyond 255 |
| GuardReach.ConditionNotNeededNearRoot | crates/neo-reductions/src/common.rs:719-766 | inside the range left out above the closed condition is not necessary: b = 2775601 with the alphabet -128, 1 |
| Fold.ChildrenRecombine | crates/neo-reductions/src/common.rs:101-360 | the sum of b^i times child i is the witness, for every witness in range |
| Fold.ChildrenAreSmall | crates/neo-reductions/src/common.rs:101-360 | children are balanced digits again, so the next chunk starts from the same bound |
| Fold.ChildClaimsRecombine | crates/neo-reductions/src/api.rs:1290-1372 | the b-power sum of the children's commitments is the parent's, for any key matrix |
| Fold.OpeningIsLinear | crates/neo-reductions/src/superneo_eval.rs:487-530 | the ring opening of a witness is linear in its ring blocks |
| Fold.OpeningsFold | crates/neo-reductions/src/superneo_eval.rs:487-530 | the opening of sum rho_i Z_i is the sum of rho_i applied to the openings of Z_i, padded lanes kept |
| Fold.ChildOpeningsRecombine | crates/neo-reductions/src/api.rs:1316-1336 | the b-power sum of the children's openings is the parent's opening |
| Fold.Lift | crates/neo-reductions/src/common.rs:993-1006 | packed witnesses are decoded lane by lane, padding included, to real values |
| Fold.DecodeCoeffs | crates/neo-reductions/src/common.rs:844-1015 | decodes exactly packed and dense shapes: packed keeps every lane, dense takes the diagonal lanes and pads the last block with zeros |
| Fold.LeftMulAcc | crates/neo-reductions/src/common.rs:1400-1416 | acc += rot(rho) * a column by column, in place |
| Fold.SplitColumns | crates/neo-reductions/src/common.rs:101-360 | the split of the row-major entries is the split of the columns |
| Fold.RowMajorOrder | crates/neo-reductions/src/common.rs:101-360 | entry (r, j) of a witness of m columns stands at r m + j and is read back from there |
| ChunkFold.MixWitness | crates/neo-fold-next/src/chunk_relation.rs:702-723 | the in-place accumulation is the row-major form of sum rho_i Z_i |
| ChunkFold.CommitChildren | crates/neo-fold-next/src/chunk_relation.rs:880-921 | children flagged as zero may share one commitment: the result is the commitment of every child |
| ChunkFold.ScaleAdd | crates/neo-ajtai/src/commit.rs:867-889 | scaling by a base-field value, with its branches, adds s * c |
| ChunkFold.CombineBPows | crates/neo-fold-next/src/rv64im/kernel/simple.rs:1515-1524 | the running power gives the b-power combination |
| ChunkFold.VerifySplitOpen | crates/neo-ajtai/src/commit.rs:789-829 | accepts exactly when the children open their commitments and these recombine to the parent |
| ChunkFold.HonestSplitOpens | crates/neo-ajtai/src/commit.rs:789-829 | every witness in range yields an accepted split opening |
| ChunkFold.FoldChunk | crates/neo-fold-next/src/chunk_relation.rs:665-770 | a chunk folds if and only if the norm check admits it; the split never fails; parent, children and commitments are related as the checks require |
| ChunkFold.FoldRun | crates/neo-fold-next/src/run.rs:57-108 | over any sequence of chunks every chunk is folded over its own witnesses and the children of the chunk before, with all relations of a folded chunk; the run only stops at a chunk the norm check refuses; what each challenge meets is `ChunkFold.RunMixes` |
| ChunkFold.RunMixes | crates/neo-fold-next/src/chunk_relation.rs:701-722 | in every chunk of a run the first challenges meet the fresh witnesses in order and the others the children of the chunk before; the new children are the digits of that sum |
| ChunkFold.RunRecombines | crates/neo-fold-next/src/chunk_relation.rs:665-770 | along a run, for the keys of a commitment, the rows of an opening or any other matrix of ring elements: the values of the fresh witnesses with the first challenges and of the carried children with the others add up to the b-power combination of the values of the new children |
| KPolynomials.PolyEvalK | crates/neo-reductions/src/sumcheck.rs:74-84 | Horner's loop evaluates the polynomial |
| KPolynomials.FactorTheorem | crates/neo-reductions/src/sumcheck.rs:330-416 | p(x) - p(r) is (x - r) times the synthetic quotient |
| KPolynomials.RootBound | crates/neo-reductions/src/sumcheck.rs:330-416 | a nonzero polynomial of n coefficients has fewer than n roots in K |
| KPolynomials.AgreementBound | crates/neo-reductions/src/sumcheck.rs:330-416 | two polynomials of at most n coefficients that differ somewhere agree on fewer than n points |
| KPolynomials.InterpolateFromEvals | crates/neo-reductions/src/sumcheck.rs:106-144 | the interpolated coefficients reproduce every sample on distinct nodes |
| KPolynomials.BuildPlan | crates/neo-reductions/src/sumcheck.rs:173-211 | the plan of a degree holds a basis polynomial per node 0..d |
| KPolynomials.InterpolateWithPlan | crates/neo-reductions/src/sumcheck.rs:214-233 | the cached plan reproduces every sample, zero samples skipped |
| KPolynomials.MultiplyByLinear | crates/neo-reductions/src/sumcheck.rs:106-144 | the in-place inner loop multiplies the numerator by X - a |
| KPolynomials.SamplesDetermine | crates/neo-reductions/src/sumcheck.rs:106-233 | samples on distinct nodes determine the coefficients, so plan and plain interpolation are equal |
| SumCheck.RunSumcheckProver | crates/neo-reductions/src/sumcheck.rs:239-325 | for every oracle: all rounds follow the oracle and keep the running sum, or it stops at the first round whose samples do not, with that round and both values |
| SumCheck.VerifySumcheckRounds | crates/neo-reductions/src/sumcheck.rs:330-416 | accepts exactly when every degree and sum check holds; challenges, final sum and transcript are those of the messages |
| SumCheck.Completeness | crates/neo-reductions/src/sumcheck.rs:239-416 | every honest transcript that kept the running sum is accepted |
| SumCheck.ProveThenVerify | crates/neo-reductions/src/sumcheck.rs:239-416 | whenever the prover returns, the verifier accepts with identical challenges and final value |
| SumCheck.HonestIsUnique | crates/neo-reductions/src/sumcheck.rs:239-325 | oracle and transcript leave the prover exactly one list of round polynomials |
| SumCheck.TruePolynomial | crates/neo-reductions/src/sumcheck.rs:330-416 | the partial sums of g over the remaining cube are a polynomial of the same degree in the current variable |
| SumCheck.ChainSoundness | crates/neo-reductions/src/sumcheck.rs:330-416 | soundness of the chain of checks, whatever drew the challenges |
| SumCheck.Soundness | crates/neo-reductions/src/sumcheck.rs:330-416 | deterministic soundness: an accepted run with final sum g(r) and a wrong initial sum has a round whose challenge is a point where the sent polynomial, different from the true one, agrees with it |
| SumCheck.FewLuckyChallenges | crates/neo-reductions/src/sumcheck.rs:330-416 | such challenges are at most d for every round |
| Degrees.ExpressionBounded | crates/neo-reductions/src/sumcheck.rs:42-43 | every expression of constants, coordinates, sums and products has, in each coordinate, the degree these add up to |
| Degrees.ExpressionSoundness | crates/neo-reductions/src/sumcheck.rs:330-416 | for every such expression as claim: an accepted run with a wrong initial sum and the right final value has a round in which the sent polynomial meets the partial sum at the challenge, and no more than the degree many challenges would do that |
| Binding.PackLayout | crates/neo-reductions/src/sumcheck.rs:17-29 | a round polynomial is absorbed as the real and imaginary parts of its coefficients, in order |
| Binding.WalkLog | crates/neo-reductions/src/sumcheck.rs:17-29 | the transcript of a run holds, after what was there before, the polynomial and the squeeze of every round at its place |
| Binding.ChallengeIsHash | crates/neo-reductions/src/sumcheck.rs:17-29 | the challenge of a round is the hash of everything absorbed up to and including the polynomial of that round |
| Binding.WalkBinds | crates/neo-reductions/src/sumcheck.rs:17-29 | equal transcripts come from equal starts and equal round polynomials, whatever the hash |
| Batched.RunBatchedProver | crates/neo-reductions/src/sumcheck.rs:463-673 | all claims advance under shared challenges, or the first round and first claim whose samples miss the running sum is reported; the empty batch absorbs nothing |
| Batched.VerifyBatched | crates/neo-reductions/src/sumcheck.rs:688-806 | accepts exactly when all claims pass all checks under a transcript that binds the number of claims and the labels; shared challenges and final sums are exact; unequal round counts are refused |
| Batched.BatchedCompleteness | crates/neo-reductions/src/sumcheck.rs:463-806 | honest batched transcripts are accepted |
| Batched.BatchedProveThenVerify | crates/neo-reductions/src/sumcheck.rs:463-806 | whenever the batched prover returns, the verifier accepts with identical challenges and final values, the empty batch included |
| Batched.BatchedSoundness | crates/neo-reductions/src/sumcheck.rs:688-806 | a wrong claim with a right final value needs a lucky shared challenge, for every claim of the batch |
| Batched.CollectRound | crates/neo-reductions/src/sumcheck.rs:463-673 | the round polynomials of all claims, or the first claim that misses its sum |
| Batched.ProveRound | crates/neo-reductions/src/sumcheck.rs:463-673 | one batched round draws one challenge from all polynomials and folds every oracle with it |
| Batched.StateIsOwn | crates/neo-reductions/src/sumcheck.rs:463-673 | the oracle of the single protocol is folded with the challenges of the transcript, one fold a round |
| Batched.EachStateIsOwn | crates/neo-reductions/src/sumcheck.rs:656-664 | in a batch every oracle runs on its own state, with the shared challenges |
| Binding.PackFromLayout | crates/neo-reductions/src/sumcheck.rs:696-723 | the polynomials of a batched round are absorbed as their number, then index, length, width and coefficients of every claim at its place |
| Binding.BindClaimsLog | crates/neo-reductions/src/sumcheck.rs:748-753 | before the rounds stand the number of claims, then label and index of every claim |
| Binding.BindClaimsBinds | crates/neo-reductions/src/sumcheck.rs:748-753 | equal schedules come from equal numbers of claims and equal labels |
| Binding.BWalkLog | crates/neo-reductions/src/sumcheck.rs:755-803 | every batched round leaves its index, its polynomials and one squeeze at their places |
| Binding.BChallengeIsHash | crates/neo-reductions/src/sumcheck.rs:791-797 | the shared challenge of a round is the hash of everything up to and including the polynomials of that round |
| Binding.BWalkBinds | crates/neo-reductions/src/sumcheck.rs:755-803 | equal transcripts of batched rounds come from equal starts and equal polynomials |
| Binding.BatchBinds | crates/neo-reductions/src/sumcheck.rs:725-803 | a whole batch: equal transcripts come from equal starts, numbers of claims, labels and round polynomials |
| TimeOpening.BuildReductionGroups | crates/neo-fold-next/src/time_opening.rs:367-401 | the ranges are exactly the maximal runs of equal keys, in order and covering all claims |
| TimeOpening.CeilLog2AtLeast1 | crates/neo-fold-next/src/time_opening.rs:641-644 | the least positive number of selector bits that can name n groups |
| TimeOpening.EvalAtPoint | crates/neo-fold-next/src/time_opening.rs:805-815 | the weighted sum of the group values at a point |
| TimeOpening.EvalsAt | crates/neo-fold-next/src/time_opening.rs:827-843 | the group-by-group accumulation gives, per point, the sum over the groups that match the next bit |
| TimeOpening.SelectorNeverFails | crates/neo-fold-next/src/time_opening.rs:850-870 | for every list of values the prover never violates its round check and ends at the selection at r |
| TimeOpening.SelectedSumsOut | crates/neo-fold-next/src/time_opening.rs:827-843 | summing a coordinate over 0 and 1 removes it |
| TimeOpening.SelectedLine | crates/neo-fold-next/src/time_opening.rs:823-825 | one more coordinate enters linearly: degree 1 |
| TimeOpening.ProveUnification | crates/neo-fold-next/src/time_opening.rs:850-870 | the proof meets every condition the verifier checks |
| TimeOpening.VerifyUnification | crates/neo-fold-next/src/time_opening.rs:872-921 | accepts if and only if sum, rounds, point and final value hold; every error says which check failed |
| TimeOpening.ProveThenVerifyUnification | crates/neo-fold-next/src/time_opening.rs:850-921 | the verifier accepts for every list of group values, and the final value is the selection at the point |
| TimeOpening.TensorPoint | crates/neo-ccs/src/utils.rs:9-32 | the in-place strided loops give every tensor weight |
| TimeOpening.SelectedOnCube | crates/neo-ccs/src/utils.rs:9-32 | on the cube the selection returns the selected value: it is the multilinear extension |
| Matrices.InvertMatrix | crates/neo-math/src/ring.rs:283-325 | Gauss-Jordan, any dimension: returns Some if and only if the kernel is trivial, and then a two-sided inverse |
| Matrices.RowTimesDot | crates/neo-math/src/ring.rs:283-325 | combining rows and then pairing with x is pairing the coefficients with the product: the identity behind every row step |
| Transform.BuildCtGramMatrix | crates/neo-math/src/ring.rs:268-281 | entry (i, j) is the constant term of X^i X^j |
| Transform.GramKernelTrivial | crates/neo-math/src/ring.rs:243-281 | the Gram matrix of Phi is never singular, so the assertion at start-up cannot fail |
| Transform.BuildSuperneoBarMatrix | crates/neo-math/src/ring.rs:243-266 | the elimination succeeds and gives the inverse of the Gram matrix |
| Transform.SanityCheckPasses | crates/neo-math/src/ring.rs:243-266 | M^T G = I, the check made at run time, always passes |
| Transform.BarOfInverse | crates/neo-math/src/ring.rs:175-193 | every inverse of the Gram matrix gives one and the same transform |
| Transform.SuperneoBarBlock | crates/neo-math/src/ring.rs:182-193 | the block transform applies that inverse |
| Transform.InnerProductTransform | crates/neo-math/src/ring.rs:168-193 | ct(bar(a) * b) = <a, b> for all blocks |
| Transform.BarZero | crates/neo-reductions/src/superneo_eval.rs:742-809 | only the zero block has a zero transform, so dropping zero transforms drops nothing |
| Csc.FromTriplets | crates/neo-ccs/src/sparse.rs:39-89 | sorting, merging and scattering give a valid matrix whose entries are the sums of the triplets, without stored zeros, rows ascending in every column |
| Csc.Merge | crates/neo-ccs/src/sparse.rs:39-89 | merging keeps every sum and drops positions that cancel |
| Csc.Scatter | crates/neo-ccs/src/sparse.rs:39-89 | the moving `next` pointers put every entry at its place |
| Csc.AddMulInto | crates/neo-ccs/src/sparse.rs:193-212 | y += A x on the first rows, the others unchanged |
| Csc.AddMulTransposeInto | crates/neo-ccs/src/sparse.rs:172-190 | y += A^T x over the first rows |
| Csc.MulInto | crates/neo-ccs/src/sparse.rs:351-366 | y += M x for identity and sparse matrices |
| Csc.RowDotOfUnit | crates/neo-ccs/src/sparse.rs:39-89 | a unit vector picks one entry out of a row of the matrix |
| DirectSum.PolyEval | crates/neo-ccs/src/poly.rs:97-119 | the term loop evaluates the sparse polynomial |
| DirectSum.PowerLaw | crates/neo-ccs/src/poly.rs:103-111 | powers of a variable: exponents add, exponent 1 is the variable |
| DirectSum.CheckRowwiseZero | crates/neo-ccs/src/relations.rs:645-676 | accepts exactly satisfying assignments; otherwise names the first failing row |
| DirectSum.NewSparse | crates/neo-ccs/src/relations.rs:70-92 | builds a structure exactly from nonempty matrices of one shape and a polynomial of that arity |
| DirectSum.EmbedTriplets | crates/neo-ccs/src/utils.rs:66-87 | the emitted triplets add up to the shifted matrix and zero elsewhere |
| DirectSum.BuildStacked | crates/neo-ccs/src/utils.rs:93-117 | the stacked matrices are the block-diagonal embeddings |
| DirectSum.CombineTerms | crates/neo-ccs/src/utils.rs:194-253 | padding and shifting the exponents gives f1 + beta f2 on separate variables |
| DirectSum.CombinedValue | crates/neo-ccs/src/utils.rs:194-253 | the combined polynomial splits over its two groups of variables |
| DirectSum.DirectSumMixed | crates/neo-ccs/src/utils.rs:194-253 | builds the direct sum of nonempty structures; an empty one leaves the other, scaled by beta if it is the second |
| DirectSum.Sum | crates/neo-ccs/src/utils.rs:124-175 | `direct_sum`: the direct sum with beta = 1; an empty structure leaves the other unchanged |
| DirectSum.ScaledSatisfied | crates/neo-ccs/src/utils.rs:201-215 | scaling the polynomial by a nonzero beta keeps the solutions |
| DirectSum.StackedRowDot | crates/neo-ccs/src/utils.rs:66-117 | a stacked matrix applied to z1 || z2 is the matrix applied to its own part |
| DirectSum.SumRow | crates/neo-ccs/src/utils.rs:124-253 | the value of every row of the composition |
| DirectSum.DirectSumSatisfied | crates/neo-ccs/src/utils.rs:124-253 | z1 || z2 satisfies the sum if and only if z1 and z2 satisfy their systems, for beta != 0 and polynomials without constant term |
| DirectSum.CompositionExactly | crates/neo-ccs/src/utils.rs:124-253 | z1 || z2 satisfies the sum if and only if every row of the first system is -beta f2(0) and beta times every row of the second is -f1(0) |
| DirectSum.ConstantTermBreaksSum | crates/neo-ccs/src/utils.rs:124-253 | for a satisfied pair the sum is satisfied if and only if neither polynomial has a constant term |
| DirectSum.WronglyAccepted | crates/neo-ccs/src/utils.rs:124-253 | exactly which pairs are accepted though one of them is no solution: the rows cancel the constant terms, and there is one |
| DirectSum.ConstantTermExamples | crates/neo-ccs/src/utils.rs:124-253 | one pair of solutions the sum refuses and one pair with a non-solution it accepts |
| DirectSum.CheckComposition | crates/neo-ccs/src/relations.rs:645-676 | composing and checking row by row decides both systems |
| SuperNeo.SplitBlocks | crates/neo-reductions/src/superneo_eval.rs:224-245 | z as zero-padded real and imaginary blocks; the flag says exactly whether z is real |
| SuperNeo.DirectIsBlocks | crates/neo-reductions/src/superneo_eval.rs:964-986 | the direct product of a row with z is its block form, padding included |
| SuperNeo.CtOfRow | crates/neo-reductions/src/superneo_eval.rs:889-929 | constant terms of transformed blocks times z add up to the row's inner product |
| SuperNeo.SparseRingIsRow | crates/neo-reductions/src/superneo_eval.rs:343-380 | a cached row without its vanishing blocks has the ring value of the whole row |
| SuperNeo.RowDotWithBlocks | crates/neo-reductions/src/superneo_eval.rs:419-442 | the cached row evaluates to the row applied to z |
| SuperNeo.RowDotFromOriginal | crates/neo-reductions/src/superneo_eval.rs:889-929 | lifting on the fly with ring products evaluates to the row applied to z |
| Evaluators.BuildMatrixCache | crates/neo-reductions/src/superneo_eval.rs:742-809 | identity and CSC branches both give a cache in which every row holds exactly its nonvanishing transformed blocks |
| Evaluators.AddEntry | crates/neo-reductions/src/superneo_eval.rs:742-809 | one CSC entry joins the last block of its row or opens the next one |
| Evaluators.EvalMleDirect | crates/neo-reductions/src/superneo_eval.rs:964-986 | M z first, then weights: the multilinear evaluation |
| Evaluators.EvalMleFromOriginal | crates/neo-reductions/src/superneo_eval.rs:947-961 | the lifted evaluator computes the same value |
| Evaluators.EvalMleWithBlocks | crates/neo-reductions/src/superneo_eval.rs:456-471 | the cached evaluator computes the same value |
| Evaluators.MleOfAllRows | crates/neo-reductions/src/superneo_eval.rs:484-508 | the capped sum is the sum over all rows of the matrix, with weight zero on every row at or beyond the given number of rows or of weights |
| Evaluators.MleOfOneRow | crates/neo-reductions/src/superneo_eval.rs:484-508 | weight one on a single row gives the product of that row |
| Evaluators.BuildLinearForm | crates/neo-reductions/src/superneo_eval.rs:609-632 | the sparse form paired with any z of that width is the same value |
| Evaluators.FormIsMle | crates/neo-reductions/src/superneo_eval.rs:609-632 | z paired with M^T chi is chi paired with M z |
| Evaluators.EvalVecK | crates/neo-reductions/src/superneo_eval.rs:141-152 | the compiled form is evaluated as the sum of its entries against z |
| RingEval.CtOfRingMle | crates/neo-reductions/src/superneo_eval.rs:487-530 | the constant term of the ring evaluation is the scalar evaluation |
| RingEval.RowDotRing | crates/neo-reductions/src/superneo_eval.rs:343-380 | the cached ring row is the row of transforms times the blocks of z, real and imaginary |
| RingEval.EvalMleRing | crates/neo-reductions/src/superneo_eval.rs:487-530 | both branches, for real z and in general, give the row-by-row ring evaluation |
| RingEval.EvalMleRingReal | crates/neo-reductions/src/superneo_eval.rs:494-517 | the loop for real z: every product joins both sums with its part of the weight |
| RingEval.RingMleOfAllRows | crates/neo-reductions/src/superneo_eval.rs:486-535 | the capped ring evaluation is the one over all rows, with weight zero at or beyond the caps |
| RingEval.RealMleIsAggregated | crates/neo-reductions/src/superneo_eval.rs:533-594 | for real z the ring evaluation is one aggregated row per part of the weights |
| RingEval.AnyOrderSums | crates/neo-reductions/src/superneo_eval.rs:533-594 | summing the touched blocks in any order gives the whole sum |
| RingEval.EvalSplitChi | crates/neo-reductions/src/superneo_eval.rs:533-594 | the block-aggregated split form computes the aggregated rows, one product per touched block |
| RingEval.EvalRingCached | crates/neo-reductions/src/superneo_eval.rs:847-863 | whichever branch is taken, the ring evaluation is the same |
| RingEval.WeightedProjectionForm | crates/neo-reductions/src/superneo_eval.rs:734-740 | pairing the form with z is pairing the weights with lhs * z, for every z |
| RingEval.OpeningIsCommitment | crates/neo-reductions/src/superneo_eval.rs:487-530 | the ring evaluation of a real witness is a fixed matrix of ring elements times its blocks, so commitment laws apply to openings |
| Layout.PartitionItems | crates/neo-fold-next/src/proof.rs:587-620 | cuts any list into the consecutive pieces of the schedule; fails exactly on zero rows |
| Layout.CountFollows | crates/neo-fold-next/src/proof.rs:69-81 | a layout that passes the piece-wise checks has exactly `chunk_count` pieces |
| Layout.ValidateChunkLayout | crates/neo-fold-next/src/run.rs:691-741 | accepts exactly contiguous nonempty pieces, all full but the last |
| Layout.CoverageTerminalIndex | crates/neo-fold-next/src/finalize.rs:144-171 | the number of covered steps, refused exactly on gaps, empty pieces and overflow |
| Layout.ValidateFixedShape | crates/neo-fold-next/src/finalize.rs:187-241 | accepts exactly the same layouts with the given number of steps |
| Layout.ValidLayoutsArePartitions | crates/neo-fold-next/src/run.rs:691-741 | the validator accepts a list of chunks if and only if it is the partition of its concatenated steps |
| Layout.PartitionThenValidate | crates/neo-fold-next/src/proof.rs:587-620 | both validators accept what the partitioner builds |
| Quaternion.ApplyTheta | crates/neo-math/src/quaternion.rs:31-49 | the loop computes the automorphism |
| Quaternion.ThetaInvolution | crates/neo-math/src/quaternion.rs:31-49 | theta is an involution |
| Quaternion.ThetaTimes | crates/neo-math/src/quaternion.rs:31-49 | theta keeps ring products |
| Quaternion.QMulAssoc | crates/neo-math/src/quaternion.rs:104-111 | quaternion multiplication is associative |
| Quaternion.CommutatorIsTraceless | crates/neo-math/src/quaternion.rs:122-129 | every commutator has an anti-fixed first component, with its closed form |
| Quaternion.CommutatorWithColumn | crates/neo-math/src/quaternion.rs:136-146 | the commutator with a ring column in closed form |
| Quaternion.ThetaMono | crates/neo-math/src/quaternion.rs:207-220 | theta of a monomial is one or two monomials |
| Quaternion.MulByThetaMonomial | crates/neo-math/src/quaternion.rs:207-220 | two or one rotations multiply by theta(X^t) |
| Quaternion.SparseCommutator | crates/neo-math/src/quaternion.rs:162-197 | for every list of bit positions the sparse loops give the full commutator with their column |
| AntiFixed.BuildAntiFixedBasis | crates/neo-math/src/quaternion.rs:286-383 | the elimination finds exactly 27 pivots, so its assertion holds, and a reduced basis of ker(1 + theta) |
| AntiFixed.Coordinates | crates/neo-math/src/quaternion.rs:286-383 | the linear relations between the coordinates of an anti-fixed element |
| AntiFixed.PivotExists | crates/neo-math/src/quaternion.rs:286-383 | in a pivot column the search succeeds |
| AntiFixed.NoPivotColumn | crates/neo-math/src/quaternion.rs:286-383 | in every other column it finds nothing |
| Abba.FromComponents | crates/neo-math/src/quaternion.rs:395-412 | compression reads the pivot coordinates |
| Abba.ToComponents | crates/neo-math/src/quaternion.rs:415-430 | expansion is the combination of the basis |
| Abba.ExpandCompress | crates/neo-math/src/quaternion.rs:395-430 | compression then expansion is the identity on traceless elements |
| Abba.CompressExpand | crates/neo-math/src/quaternion.rs:395-430 | expansion then compression is the identity |
| Abba.CompressLayout | crates/neo-math/src/quaternion.rs:395-412 | a traceless element is stored as coefficients 0..13 and 28..40 of its first component, then the second one |
| Abba.ScaleOk | crates/neo-math/src/quaternion.rs:435-440 | scaling goes through expansion and compression |
| Abba.CollectBits | crates/neo-abba/src/commit.rs:79-135 | nonzero positions of a column, and that a binary column is the sum of their monomials |
| Abba.ColumnCommutator | crates/neo-abba/src/commit.rs:96-128 | the sparse and the general column path give one compressed commutator |
| Abba.Commit | crates/neo-abba/src/commit.rs:79-135 | skipping zero columns and mixing both paths, the commitment is the sum of all commutators |
| Abba.SMul | crates/neo-abba/src/commit.rs:191-213 | every row of the result stands for alpha times the traceless element its input row stands for |
| Abba.CommutatorScales | crates/neo-math/src/quaternion.rs:435-440 | a scalar fixed by theta moves through the commutator |
| Abba.CommitmentScales | crates/neo-abba/src/commit.rs:191-213 | alpha * commit(Z) = commit(alpha * Z) whenever theta(alpha) = alpha |
| Abba.CommitThenScale | crates/neo-abba/src/commit.rs:79-213 | committing then scaling is scaling then committing |
| Abba.OnlyRealScalars | crates/neo-abba/src/commit.rs:191-213 | the law holds for all keys and columns if and only if theta(alpha) = alpha |
| AbbaCombination.SMulAdd | crates/neo-abba/src/commit.rs:199-213 | adds to every row alpha times the traceless element the row of c stands for |
| AbbaCombination.SLincomb | crates/neo-abba/src/commit.rs:216-231 | every row of the result stands for the combination of the traceless elements its input rows stand for; errors exactly on empty input and on a length mismatch |
| AbbaCombination.CombinationOfCommitments | crates/neo-abba/src/commit.rs:216-231 | the combination of commitments with scalars fixed by theta is the commitment of the combined columns, any number of terms |
| RlcPublic.Combine | crates/neo-reductions/src/api.rs:551-802 | succeeds exactly on inputs that pass every check, constant terms and shared point included, and returns the combination field by field |
| RlcPublic.CombineMatches | crates/neo-reductions/src/api.rs:871-1117 | true exactly when the expected claim is the combination, without building it, with and without the checks on verified inputs |
| ClaimLaws.CombinedRow | crates/neo-reductions/src/api.rs:662-720 | every row of a combined claim is the ring combination of the real and of the imaginary lanes of the rows of its inputs, zero above; its scalar is lane 0 |
| ClaimLaws.CombinedChannel | crates/neo-reductions/src/api.rs:725-770 | the same for the digit-range row, which is absent exactly as in the inputs |
| ClaimLaws.CombinedX | crates/neo-reductions/src/api.rs:640-661 | the matrix of a combined claim is the ring combination of the matrices of its inputs |
| ClaimLaws.CombinedOpening | crates/neo-reductions/src/api.rs:662-704 | rows that are openings of witnesses combine to the padded opening of the combined witness, for every matrix |
| ClaimLaws.AuxIsDot | crates/neo-reductions/src/api.rs:774-802 | the auxiliary values combine with the constant terms of the challenges, in order |
| ClaimLaws.CombineWithOne | crates/neo-reductions/src/api.rs:551-802 | a single claim combined with the challenge 1 is that claim |
| RlcPublic.MatchVerifiedInputs | crates/neo-reductions/src/api.rs:856-869 | on inputs that pass their own checks, skipping them loses nothing |
| RlcPublic.CombinationIsConsistent | crates/neo-reductions/src/api.rs:774-802 | the combined claim passes the check on constant terms |
| RlcPublic.CombineThenMatch | crates/neo-reductions/src/api.rs:551-1117 | the check answers true if and only if `rlc_public` returns the expected claim |
| RlcPublic.CombinationUnique | crates/neo-reductions/src/api.rs:551-802 | the inputs determine the combination |
| RlcPublic.RowMixIsRing | crates/neo-reductions/src/api.rs:662-704 | mixing opening rows lane by lane is the ring combination of their real and imaginary lanes |
| DecPublic.VerifyDecPublic | crates/neo-reductions/src/api.rs:1122-1372 | accepts exactly when shapes, points, matrices, opening rows, constant terms, auxiliary values and commitment recombine |
| ClaimLaws.XRecombinesExactly | crates/neo-reductions/src/api.rs:1277-1295 | the check on the matrices passes if and only if the b-power combination of the matrices of the children is that of the parent |
| ClaimLaws.AcceptedMeans | crates/neo-reductions/src/api.rs:1122-1372 | acceptance ensures that points agree and that matrices, rows, scalars, auxiliary values and commitment of the parent are the b-power sums of those of the children |
| ClaimLaws.PowSumIsDot | crates/neo-reductions/src/api.rs:1262-1275 | these sums weigh child i with b^i, real and imaginary parts alike |
| ClaimLaws.HonestX | crates/neo-reductions/src/api.rs:1277-1295 | the matrices of an honest split pass the check |
| ClaimLaws.HonestSplitAccepted | crates/neo-reductions/src/api.rs:1122-1372 | the claims of the digits of any witness in range are accepted against the claim of that witness |
| ClaimLaws.HonestCombination | crates/neo-reductions/src/api.rs:551-802 | the combination of the claims of some witnesses is the claim of the combined witness |
| ClaimLaws.FoldingStepAccepted | crates/neo-reductions/src/api.rs:551-1372 | a whole folding step: honest claims combine to a parent whose honest split is accepted, as long as the combined witness is in range |
| DecPublic.ChannelValuesUnchecked | crates/neo-reductions/src/api.rs:1200-1310 | acceptance does not depend on the values of the digit-range rows, only on their lengths |
| DecPublic.ChannelRecombinesExactly | crates/neo-reductions/src/api.rs:1200-1310 | acceptance ensures that the channel recombines if and only if there is no channel |
| DecPublic.ChannelExample | crates/neo-reductions/src/api.rs:1200-1310 | an accepted decomposition whose channel does not recombine |
| DecPublic.HonestOpeningsRecombine | crates/neo-reductions/src/api.rs:1316-1336 | the openings of an honest split pass the row checks for every matrix and padded length |

## Left out

- Randomness and hashing: Poseidon2, ChaCha8 and rejection sampling are arbitrary functions; nothing is said about collisions, binding, probability or timing.
- Rayon, wasm variants and lock poisoning: parallel loops are arbitrary splits, and a lock section always completes.
- The engines behind `prove` and `verify`, the CCS phase of a chunk, digests and the packaging of proofs: `ChunkFold.FoldRun` starts from the claims' witnesses and challenges.
- ChunkFold.FoldRun: relates witnesses, commitments and openings along a run; the transcripts and digests threaded beside them by the chunk loops are not modelled.
- `X` and `y_zcol` lane projections: their combinations are computed and checked as the code does; no law relates them to a rotated witness, because the code gives none.
- RlcPublic.Combine: which of several failing checks is reported, and whether by an error or by an out-of-range index, is not modelled.
- DecPublic.VerifyDecPublic: which failing check is reported is not modelled.
- GuardReach.GuardSufficesWhereDecided: for bases above 4096 an excess of less than one part in 300 is left to `GuardReach.GuardSufficesAtExactly`, which decides it number of digits by number of digits; no closed condition is stated there.
- ChunkFold.FoldChunk: covers builds without the feature `abba`, whose projected challenges can exceed the expansion factor; claims, transcripts and the public checks of the transition are not modelled.
- Decomp.DecompB: a digit of size 2^31, possible only for bases from 2^31 on, follows the wrapping negation of a release build; a build with overflow checks panics there. The same holds of `Decomp.DecompRowMajor` and `Decomp.SplitEntry`.
- `direct_sum_transcript_mixed`: it only chooses beta from the transcript.
- Csc.FromTriplets: entries are values of F_q, while the code is generic over the field; `from_dense_row_major` is left out.
- Machine integers: 128-bit saturation and overflow are modelled in `Digits`, `Norms` and `Layout`; lengths and indices elsewhere are unbounded.
- Buffers: commitments are sequences of columns instead of one flat buffer, matrix rows in the eliminations are replaced as whole vectors, and element-wise helpers on chunks are vector operations.
- `ensure_identity_first`, `transform_ccs_matrix_superneo` and the evaluators on transformed matrices: they repeat the cached ones on another layout.
- `eval_packed_digits_k` and the digit tables for the range check of witnesses.
- Abba.Commit: columns instead of a flat witness, with d fixed to 54; its size check is that of the Ajtai commitment. `verify_split_open` of ABBA and `split_b` of neo-abba are left out.
- AbbaCombination.SLincomb: commitments of different lengths, which only a debug assertion excludes, are a precondition.
- Streaming.SetupPar: the sampler of the optional `abba` feature is not modelled.
- Serialization, error texts, logging, timers, demos and benches.
