# Private payment authorization: a verified model

This project models the core of a private payment authorization system and proves its properties
with Dafny. A payer proves in zero knowledge that a payment satisfies a policy. The policy is
compiled to an arithmetic circuit over a prime field, the circuit is proved with a three-party
MPC-in-the-head protocol made non-interactive by joint Fiat-Shamir challenges, and the payment
statement is bound into the circuit's root.

The modules follow the crates.

- `NumberTheory`, `PrimeField`, `Polynomials`, `BigEndian`, `DigestField`, `Codec`: primes, Fermat's
  little theorem and sums of two squares, the field, polynomials over it, bytes, digests as elements,
  self-delimiting formats.
- `Circuits`, `CircuitEncoding`, `CircuitGates`: the positional DAG, its builder, validation,
  plaintext evaluation and codec, and the gate sequences the policy gadgets share.
- `Mpc`, `MpcPrivacy`, `Shamir`: additive n-party sharing with Beaver multiplication, its privacy
  against all parties but one, and threshold sharing.
- `Mpcith`, `MpcithProof`, `MpcithHonest`, `MpcithProver`, `SecretDependence`, `MpcithVerifier`,
  `MpcithBinding`, `MpcithTheorems`: the three-party prover, the independently written replay verifier,
  what a verdict says and the commitments bind, completeness, three-view soundness and witness
  indistinguishability.
- `Policies`, `PolicyValidation`, `PolicyShape`, `PolicyEncoding`, `PolicyNormal`, `PolicyNormalLaws`,
  `PolicyOrder`, `PolicyEdits`, `PolicyLimits`: policies, their evaluator, limits, canonical bytes and
  normal forms.
- `RangeCheck`, `FreeDigits`, `PolicyWires`, `PolicyWireLaws`, `PolicyCompiler`, `PolicyInputs`,
  `PolicySlots`: the compiler, what its wires compute, the solver of the auxiliary inputs, the agreement
  with the evaluator, and what the slot lists describe.
- `FiatShamir`, `Proofs`, `ViewEncoding`, `ProofEncoding`, `ProofSizes`, `ProofLayer`, `Layouts`,
  `PaymentWiring`, `PaymentAuthorization`, `PaymentMeaning`: challenges, non-interactive proofs, the byte
  layouts of all encodings, and the payment pipelines end to end.

The field modulus is an arbitrary prime `P`. Statements that need it to be large say so: `Wide()`
means 2^65 < P, `ElementsFit()` means P < 2^256. Randomness is an explicit tape. Hashes, view
commitments and circuit ids are uninterpreted functions (constants without a value). Methods carry
the imperative code; each is proved against a function or a predicate, and the theorems are about
those.

Where the code and its own comments disagree the model follows the code, and a lemma says what holds:

- The comment of `fermat_nonzero` announces 1 - x^(p-1); the code returns x^(p-1).
- The module comment of the policy compiler says that an amount leaf contributes the constant one;
  the code emits a boolean wire (`PolicyCompiler.Compiler.EmitAmount`).
- The range check's comment says that its first output is zero exactly for boolean digits; a zero sum
  is weaker (`FreeDigits.SumDecidesBoundary`, `FreeDigits.ConstraintsWithFreeDigits`, `RangeCheck.LastDigitForced`).
- The identity comments say that policies share an id exactly when they mean the same; only one
  direction holds (`PolicyNormalLaws.EqualMeaningDistinctNormalForm`); `PolicyEdits.SameFormByEdits` says
  what the id does decide.
- Compilation validates the normal form instead of the policy. That is not the same check; when a valid
  policy passes it is said by `PolicyLimits.NormalizingKeepsValidity`.
- The bound root equals the binding product exactly when the policy root is one or the product is
  zero (`PaymentWiring.BoundRootDecides`, `PaymentWiring.ProductVanishes`).
- The comment of `verify_payment_authorization` promises the exact statement; recipient, nonce and
  payment id are bound as field elements, so up to congruence modulo p
  (`PaymentMeaning.ProofFitsOtherStatement`, `PaymentMeaning.CongruentRecipientAccepted`).
- The layout comment of the proof encoding leaves out the backend id, the hidden output shares and the
  count of opened views; the code writes all three (`ProofEncoding.PrintProof`).
- Member counts are cast to 32 bits, so encodings of longer lists collide
  (`PolicyEncoding.TruncatedCountsCollide`); normalisation is about policies whose counts fit.

## Model

| member | source | states |
|---|---|---|
| Circuits.Validate | crates/circuit/src/circuit.rs:86-125 | Accepts exactly the circuits whose gates refer backwards, whose input counts match the leaves, and whose outputs exist; otherwise reports the first fault, by the first bad operand of the first bad gate |
| Circuits.EvaluateReference | crates/circuit/src/eval_reference.rs:25-63 | One forward pass returns the recursively defined values of the outputs, or an input-count error |
| Circuits.EvaluateAllNodes | crates/policy/src/compiler.rs:563-594 | The same pass returns the value of every node |
| Circuits.AppendingKeepsValues | crates/circuit/src/builder.rs:56-63 | Appending nodes never changes the value of an earlier node |
| Circuits.AppendingKeepsSharing | crates/circuit/src/builder.rs:56-63 | Nor whether an earlier node depends on a secret |
| Circuits.ValueReadsEarlierSecrets | crates/circuit/src/eval_reference.rs:33-58 | A node's value depends only on secret inputs declared up to it |
| Circuits.SharedByPath | crates/mpcith/src/verifier.rs:442-483 | A node depends on a secret exactly if a path along operands leads from it down to a secret input |
| Circuits.CircuitBuilder.Add | crates/circuit/src/builder.rs:87-97 | Keeps the topological order and the counts; fails exactly on an undefined operand, changing nothing |
| Circuits.CircuitBuilder.Mul | crates/circuit/src/builder.rs:99-109 | The same for multiplication |
| Circuits.CircuitBuilder.SecretInput | crates/circuit/src/builder.rs:65-69 | Appends a leaf, counts it, and keeps the invariant |
| Circuits.CircuitBuilder.Output | crates/circuit/src/builder.rs:111-117 | Publishes a defined node and refuses an undefined one |
| Circuits.CircuitBuilder.Build | crates/circuit/src/builder.rs:123-134 | A builder can only fail for a missing output; every circuit it finishes is valid |
| CircuitEncoding.Serialize | crates/circuit/src/encoding.rs:53-91 | Writes the canonical print |
| CircuitEncoding.Deserialize | crates/circuit/src/encoding.rs:101-164 | Returns c exactly when the bytes are the print of c and c is valid and within the size limits: parsing and printing are inverse both ways |
| CircuitEncoding.PrintInjective | crates/circuit/src/encoding.rs:53-91 | Different storable circuits have different prints |
| CircuitEncoding.TakeNode | crates/circuit/src/encoding.rs:113-135 | Reads exactly a node's print, or no node's print starts there |
| CircuitEncoding.NodesPrefixFree | crates/circuit/src/encoding.rs:60-80 | No node's print is the start of another's |
| Layouts.CircuitLayout | crates/circuit/src/encoding.rs:53-91 | Byte by byte: version 1, node count, tags 0 to 4 with their operands or constant, output count, outputs |
| Mpc.ShareInput | crates/mpc/src/sharing.rs:26-47 | The shares sum to the secret; fewer than two parties are refused |
| Mpc.Reconstruct | crates/mpc/src/sharing.rs:55-70 | Exactly the full share vector is accepted, and gives the sum |
| Mpc.BeaverProductSum | crates/mpc/src/arithmetic.rs:88-135 | The Beaver shares of a product sum to the product of the sums |
| Mpc.MulSecret | crates/mpc/src/arithmetic.rs:88-135 | Multiplies represented values, drawing exactly one triple |
| Mpc.TripleProvider.IssueId | crates/mpc/src/triples.rs:98-109 | Issued ids are always the numbers below the next id, so reuse is unreachable |
| Mpc.TripleProvider.NextTriple | crates/mpc/src/triples.rs:112-124 | Deals a fresh triple with c = a b |
| Mpc.Simulator.Evaluate | crates/circuit/src/eval_mpc.rs:42-114 | Every output share vector represents the reference output; one triple per multiplication node; the only fault, reported as such, is running out of triple ids |
| Mpc.EvaluateAndReveal | crates/circuit/src/eval_mpc.rs:42-138 | Revealing the outputs gives the plaintext evaluation, for every tape |
| Mpc.SharedRun.HeldSum | crates/circuit/src/eval_mpc.rs:42-114 | The share vectors, as functions of the two tapes, sum to the plaintext value at every node |
| MpcPrivacy.AllButOneFitEverySecret | crates/mpc/src/sharing.rs:3-47 | With exactly one choice of the random elements another secret gives all parties but one the shares they have |
| MpcPrivacy.MasksOpen | crates/mpc/src/arithmetic.rs:88-135 | A multiplication opens its operands minus the two values of its triple |
| MpcPrivacy.AllButOneLearnNothing | crates/circuit/src/eval_mpc.rs:42-114 | For any circuit, party count and hidden party, on shifted tapes other secret inputs give every other party the same shares of every node and triple and open the same masks; a node of unchanged value is shared exactly the same |
| MpcPrivacy.ShiftIsInvertible | crates/mpc/src/sharing.rs:26-47 | Shifting both tapes is a bijection |
| Polynomials.UniqueInterpolation | crates/secret-sharing/src/shamir.rs:128-150 | A polynomial of bounded degree is determined by its values at that many distinct points |
| Polynomials.InterpolantAtZero | crates/secret-sharing/src/shamir.rs:128-150 | The accumulated Lagrange sum is the value at zero of the interpolating polynomial |
| Shamir.ElementFromBytes | crates/secret-sharing/src/field.rs:56-66 | Exact conversion: accepted exactly when at most 32 bytes denote an integer below p |
| Shamir.CanonicalSecretBytes | crates/secret-sharing/src/shamir.rs:162-173 | Strips leading zeros, keeps one byte for zero, refuses the empty secret |
| Shamir.Horner | crates/secret-sharing/src/shamir.rs:69-76 | Evaluates the sharing polynomial |
| Shamir.Split | crates/secret-sharing/src/shamir.rs:40-81 | The shares are the values of a random polynomial with the secret as constant term; every error case |
| Shamir.Reconstruct | crates/secret-sharing/src/shamir.rs:99-156 | The outcome is the Lagrange value of the first threshold shares, or the first fault |
| Shamir.SecretFromShares | crates/secret-sharing/src/shamir.rs:99-156 | Any threshold shares with distinct indices determine the secret |
| Shamir.ReconstructUndoesSplit | crates/secret-sharing/src/shamir.rs:40-156 | Any threshold distinct shares of a split, in any order and with extras after them, reconstruct to the stripped secret |
| Shamir.SplitAccepts | crates/secret-sharing/src/shamir.rs:46-59 | Splits exactly for 2 <= threshold <= count <= 1000 and a non-empty secret whose integer is below the modulus; otherwise which error |
| Shamir.SharesAccepted | crates/secret-sharing/src/shamir.rs:99-130 | What exactly the checks before reconstruction accept |
| Shamir.SharesTampered | crates/secret-sharing/src/shamir.rs:99-130 | Which error each change to passing shares is refused for |
| Shamir.ReconstructInterpolates | crates/secret-sharing/src/shamir.rs:128-156 | The result is the value at zero of the one polynomial of degree below the threshold through the first threshold shares |
| BigEndian.CanonicalUnique | crates/secret-sharing/src/shamir.rs:162-173 | The stripped form is the one byte string with the same integer and no superfluous leading zero |
| Shamir.FewSharesFitEverySecret | crates/secret-sharing/src/shamir.rs:60-79 | For threshold - 1 indices and values and any secret exactly one coefficient tape gives those values |
| Shamir.FewSharesOfSplit | crates/secret-sharing/src/shamir.rs:60-79 | The shares of a split at threshold - 1 indices have given values exactly when the tape supplies the one fitting choice of coefficients |
| Shamir.SplitHidesSecret | crates/secret-sharing/src/shamir.rs:60-79 | For every tape there is one on which another secret's split gives the same shares at those indices |
| Mpcith.Trio.SharesReconstruct | crates/mpcith/src/prover.rs:430-545 | With product triples and masks that open combined or plaintext operands, three parties' shares sum to the plaintext at every shared node |
| MpcithHonest.Run.SharesSum | crates/mpcith/src/prover.rs:407-545 | In an honest run the shares of a secret-dependent node sum to its plaintext value |
| MpcithHonest.Run.OpeningsSum | crates/mpcith/src/prover.rs:575-590 | What the three parties open sums to the masks |
| MpcithProver.Prover.NextTriple | crates/mpcith/src/prover.rs:221-230 | Deals shares of a, b and a b from eight draws |
| MpcithProver.Prover.SimulateGate | crates/mpcith/src/prover.rs:455-620 | Every gate moves all three parties as the honest run prescribes |
| MpcithProver.Prover.Simulate | crates/mpcith/src/prover.rs:407-510 | The joint simulation of three parties is the honest run of each |
| MpcithProver.Prover.CommitRepetition | crates/mpcith/src/prover.rs:407-545 | Commits the honest views under fresh randomness and moves the tapes by exactly one repetition |
| MpcithProver.Prover.CommitPhase | crates/mpcith/src/prover.rs:341-351 | All repetitions are committed first, on consecutive pieces of the tapes; zero repetitions are refused |
| MpcithProver.Prover.FinishRepetition | crates/mpcith/src/prover.rs:360-400 | Opens the two other views in party order and adds the hidden party's shares and broadcasts |
| MpcithProver.Prover.ProveJoint | crates/mpcith/src/prover.rs:305-334 | The callback sees all commitments; whatever it answers, each error case is as in the code and a proof that comes out is honest and judged valid exactly when the secret-dependent outputs are right |
| SecretDependence.NodeDependsOnSecrets | crates/mpcith/src/verifier.rs:447-483 | The explicit-stack traversal terminates on every valid DAG, never unwraps an empty cache entry, and decides whether a secret input is reachable |
| MpcithVerifier.ReplayGate | crates/mpcith/src/verifier.rs:235-390 | A gate is accepted exactly when the next recorded operation, triple and opening are the honest ones |
| MpcithVerifier.ReplayParty | crates/mpcith/src/verifier.rs:201-395 | A view replays exactly when it is the honest view of its own shares under the masks and covers the circuit |
| MpcithVerifier.CollectMasks | crates/mpcith/src/verifier.rs:160-182 | The global masks are the sums of the three contributions; which lengths are refused |
| MpcithVerifier.CheckOutputs | crates/mpcith/src/verifier.rs:399-440 | Output sums are compared for secret-dependent outputs only; the hidden share of any other output must be zero |
| MpcithVerifier.VerifyRepetition | crates/mpcith/src/verifier.rs:121-193 | Has a verdict exactly on the repetitions that `MpcithBinding` describes, and then that verdict; otherwise an error |
| MpcithVerifier.Verify | crates/mpcith/src/verifier.rs:98-119 | Returns exactly the verdict of all repetitions in order, which the first repetition that is not valid decides |
| MpcithBinding.FirstOutputDecides | crates/mpcith/src/verifier.rs:399-440 | The verdict on a repetition is positive exactly when every secret-dependent output sums to what is expected and the hidden share of every other output is zero; the first output that fails makes it negative, or an error |
| MpcithBinding.FirstRepetitionDecides | crates/mpcith/src/verifier.rs:98-119 | A proof is valid exactly when every repetition is in its place with a positive verdict; the first that is not makes it invalid, or an error |
| MpcithBinding.VerdictMeansOpened | crates/mpcith/src/verifier.rs:121-158 | A verdict presupposes three commitments and, of each party that is not hidden, an opening of this repetition with 32 bytes of randomness to which its commitment commits |
| MpcithBinding.VerdictMeansSizes | crates/mpcith/src/verifier.rs:160-193 | And one share per secret input, two openings and two broadcasts per triple, one hidden share per output |
| MpcithBinding.CommitmentsChecked | crates/mpcith/src/verifier.rs:147-154 | No verdict survives another commitment of an opened party; the hidden party's commitment changes nothing |
| MpcithBinding.SameCommitmentSameOpening | crates/mpcith/src/commitment.rs:67-79 | Two repetitions with verdicts and the same commitments open the same view of a party that both open, or exhibit two openings with one commitment |
| MpcithBinding.TranscriptDetermined | crates/mpcith/src/verifier.rs:201-395 | What a replaying view records and opens follows from its shares and the masks |
| MpcithBinding.OpenedViewTraces | crates/mpcith/src/verifier.rs:201-395 | An opened view records exactly the gates that leave a trace, in order, each with the value held there and its public operand or triple and masks |
| MpcithTheorems.Completeness | crates/mpcith/src/verifier.rs:98-193 | An honest proof for any circuit, witness, tape and challenges is judged valid exactly when each secret-dependent expected output is the reference output |
| MpcithTheorems.ThreeViewSoundness | crates/mpcith/src/verifier.rs:201-395 | If three views replay under the masks their openings sum to and the triples multiply, the replayed shares sum to the reference value of the witness the input shares sum to |
| MpcithTheorems.AcceptanceIsTruth | crates/mpcith/src/verifier.rs:121-193 | With a fitting hidden view the verdict is whether the expected outputs are the reference outputs of the extracted witness |
| MpcithTheorems.HonestHiddenView | crates/mpcith/src/prover.rs:360-545 | In an honest run the hidden view fits, and the three views extract to the run's own secrets |
| MpcithTheorems.WitnessIndistinguishable | crates/mpcith/src/prover.rs:360-545 | On the shifted tape another witness with equal reference outputs shows the same opened views, broadcasts, output shares and opened commitments |
| MpcithTheorems.ShiftIsInvertible | crates/mpcith/src/prover.rs:213-226 | The shift of the tape is undone by the shift back |
| Policies.EvalNode | crates/policy/src/evaluator.rs:43-113 | The outcome tree mirrors the policy and every flag is the meaning of its sub-policy |
| Policies.CollectRequirements | crates/policy/src/witness.rs:146-160 | What is collected decides coverage, for every witness |
| Policies.Evaluate | crates/policy/src/evaluator.rs:27-41 | Fails exactly on uncovered witnesses; the decision is the meaning of the policy |
| PolicyValidation.Context.ValidateNode | crates/policy/src/validation.rs:47-108 | From any counters, passes exactly when shape, depth, node and credential limits hold, and advances the counters by the subtree |
| PolicyValidation.CheckDistinctCredentials | crates/policy/src/validation.rs:113-126 | Decides whether direct credential members are distinct |
| PolicyValidation.Validate | crates/policy/src/validation.rs:32-39 | Accepts exactly the policies that obey every rule and limit |
| PolicyShape.ValidByListing | crates/policy/src/validation.rs:14-126 | A policy is valid exactly if the flat list of its nodes has at most 10000 entries, at most 1000 credentials, none more than 100 levels deep, and each obeys its own rule |
| PolicyEncoding.EncodeInto | crates/policy/src/encoding.rs:51-81 | Appends the canonical bytes of a policy |
| PolicyEncoding.PrefixFree | crates/policy/src/encoding.rs:51-81 | At most one encodable policy's encoding starts a given byte string |
| PolicyEncoding.EncodeInjective | crates/policy/src/encoding.rs:40-49 | Distinct encodable policies have distinct encodings |
| Layouts.PolicyLayout | crates/policy/src/encoding.rs:40-81 | Byte by byte: version 1, tags 1 to 5, eight bytes of limit, 32 of id, two of threshold, four of member count, the members in order |
| PolicyEncoding.TruncatedCountsCollide | crates/policy/src/encoding.rs:61-79 | Past 2^32 members two different policies share an encoding |
| PolicyEncoding.TakeNode | crates/policy/src/encoding.rs:161-204 | Reads exactly a policy's encoding, or none starts there |
| PolicyEncoding.Decode | crates/policy/src/encoding.rs:95-106 | Returns p exactly when p is encodable and the bytes are its encoding; which error otherwise |
| PolicyNormal.NormalizeNode | crates/policy/src/normalize.rs:41-60 | Computes the normal form, whose members ascend as `PolicyOrder.NormalOrder` says |
| PolicyNormal.NormalizeCombinator | crates/policy/src/normalize.rs:65-93 | Flattens, de-duplicates, sorts in that order and collapses |
| PolicyNormal.SortOrders | crates/policy/src/normalize.rs:86-87 | Sorting by encoding orders, strictly when the encodings differ; the order is that of `PolicyOrder.BeforeIsLess` |
| PolicyOrder.BeforeIsLess | crates/policy/src/normalize.rs:86-87 | Byte strings of one length are ordered as the integers they denote, and a proper prefix comes first |
| PolicyOrder.NormalOrder | crates/policy/src/normalize.rs:44-93 | In a normal form the encodings of an earlier and a later member agree up to a position where the earlier one's byte is smaller; in a threshold they may be equal |
| PolicyOrder.CanonicalExactly | crates/policy/src/normalize.rs:41-106 | Normalisation leaves exactly the policies alone whose members ascend so, with no combinator of one member and none directly inside its own kind |
| PolicyNormalLaws.NormalizeKeepsMeaning | crates/policy/src/normalize.rs:41-106 | Normalising changes neither the decision nor which witnesses cover the policy |
| PolicyNormalLaws.Idempotent | crates/policy/src/normalize.rs:41-106 | Normalising twice changes nothing more, for every policy |
| PolicyNormalLaws.SameCombinator | crates/policy/src/normalize.rs:65-93 | Two conjunctions (disjunctions) share a normal form exactly when their flattened normal members are the same set |
| PolicyNormalLaws.SameThreshold | crates/policy/src/normalize.rs:44-56 | Two thresholds share one exactly when k and the multiset of normal members agree |
| PolicyEdits.EditsKeepNormalForm | crates/policy/src/normalize.rs:41-106 | Reordering, nesting, duplicating and singleton wrapping, in any sequence and at any depth, leave the normal form alone |
| PolicyEdits.EditsToNormal | crates/policy/src/normalize.rs:41-106 | Such edits lead from every policy to its normal form |
| PolicyEdits.SameFormByEdits | crates/policy/src/identity.rs:1-6 | Two policies share a normal form, and the encoding the id hashes, exactly when such edits turn one into the other |
| PolicyEdits.SameFormAgrees | crates/policy/src/identity.rs:1-6 | Policies that share a normal form have the same decision and coverage for every witness |
| PolicyNormalLaws.EqualMeaningDistinctNormalForm | crates/policy/src/identity.rs:1-6 | Two policies with the same meaning for every witness can have different normal forms |
| PolicyLimits.NormalizingKeepsValidity | crates/policy/src/compiler.rs:142-143 | The normal form of a valid policy is valid exactly when the normal members of every threshold are different credentials and no flattened combinator exceeds the member limit |
| PolicyLimits.ShapeKept | crates/policy/src/validation.rs:47-126 | The same for the node-by-node rules alone, at every sub-policy |
| PolicyLimits.CountsShrink | crates/policy/src/validation.rs:14-30 | Normalising never adds nodes or credential leaves |
| PolicyLimits.DepthShrinks | crates/policy/src/validation.rs:14-30 | Nor depth |
| PolicyLimits.NormalizingCanDuplicate | crates/policy/src/validation.rs:113-126 | A valid policy whose normal form has a duplicate credential under a threshold |
| PolicyLimits.NormalizingCanOverflow | crates/policy/src/validation.rs:97 | A valid policy whose normal form has a conjunction of 1200 members |
| PolicyLimits.SmallFits | crates/policy/src/encoding.rs:61-79 | Fewer than 2^32 nodes are enough for every count met while normalising |
| CircuitGates.FermatChain | crates/policy/src/compiler.rs:341-355 | Square-and-multiply over the bits of p - 1 computes x^(p-1) on every input |
| CircuitGates.FermatNonzero | crates/policy/src/compiler.rs:341-355 | The wire is zero for zero and one for everything else, for every prime p |
| PrimeField.FermatIndicator | crates/policy/src/compiler.rs:236-239 | x^(p-1) tells zero from non-zero |
| RangeCheck.EmitSide | crates/policy/src/range_check.rs:91-113 | The two wires carry the booleanity sum and the weighted sum minus the target |
| RangeCheck.ProveBoundedDifference | crates/policy/src/range_check.rs:73-88 | The four wires carry the constraints of value and limit - value |
| RangeCheck.RangeCheckExact | crates/policy/src/range_check.rs:73-113 | For binary digits all four are zero exactly when the digits are the expansions of value and limit - value as integers with value at most limit |
| RangeCheck.SuppliedDigits | crates/policy/src/compiler.rs:494-506 | With the digits the builder supplies, the last wire is non-zero exactly when the amount exceeds the limit |
| FreeDigits.SumDecidesBoundary | crates/policy/src/range_check.rs:12-20 | The booleanity sum decides whether the digits are binary exactly when at most one digit, at whatever position, is not known to be |
| FreeDigits.TwoFreeDigits | crates/policy/src/range_check.rs:103-104 | At any two positions two non-binary digits cancel in the sum |
| FreeDigits.AnyTarget | crates/policy/src/range_check.rs:91-113 | Every field element is the weighted sum of 64 digits with zero booleanity sum that are not binary |
| FreeDigits.ConstraintsWithFreeDigits | crates/policy/src/range_check.rs:73-113 | So for every value and limit there are digits, not binary, at which all four wires vanish |
| RangeCheck.LastDigitForced | crates/policy/src/range_check.rs:103-104 | It does as soon as all digits but one are known to be binary |
| RangeCheck.Decompose | crates/policy/src/compiler.rs:602-608 | The 64 binary digits of a word, lowest first |
| PolicyCompiler.Compiler.EmitCredential | crates/policy/src/compiler.rs:240-248 | On every input the wire is one minus the Fermat indicator of slot difference; slots and counters advance |
| PolicyCompiler.Compiler.EmitAmount | crates/policy/src/compiler.rs:270-296 | On every input the wire is the product of the four zero tests; 129 secret slots and one public slot are declared |
| PolicyCompiler.Compiler.EmitMembers | crates/policy/src/compiler.rs:213-234 | Members are emitted in order and folded; fails exactly when empty or some member cannot be emitted |
| PolicyCompiler.Compiler.EmitDiscriminant | crates/policy/src/compiler.rs:318-327 | The product of sum - t for t below k; fails exactly for k = 0 |
| PolicyCompiler.Compiler.EmitAuxiliary | crates/policy/src/compiler.rs:329-338 | Declares the auxiliary after its target and publishes w (1 - w) for the product w |
| PolicyCompiler.Compiler.EmitThreshold | crates/policy/src/compiler.rs:302-338 | The wire is discriminant times auxiliary, on every input |
| PolicyCompiler.Compiler.EmitPolicy | crates/policy/src/compiler.rs:203-211 | On every input the wire carries the policy's boolean and the new targets its discriminants; fails exactly on empty combinators and zero thresholds |
| PolicyCompiler.Compiler.Finish | crates/policy/src/compiler.rs:172-201 | Publishes the constraints in order, then the root |
| PolicyCompiler.CompileWithLayout | crates/policy/src/compiler.rs:139-148 | Succeeds exactly when the normal form validates, which for a valid policy is the guard of `PolicyLimits.NormalizingKeepsValidity`, and then implements it; every output depends on a secret |
| PolicyWires.DiscriminantZero | crates/policy/src/compiler.rs:318-327 | The discriminant of a count vanishes exactly below k |
| PolicyWires.FoldBoolean | crates/policy/src/compiler.rs:213-234 | Products and disjunctions of boolean wires are boolean |
| PolicyWireLaws.ConstraintSoundness | crates/policy/src/compiler.rs:213-338 | For any inputs with binary digits and zero constraints, every leaf and combinator wire is zero or one, and one only if its sub-policy holds on the slots |
| PolicyWireLaws.SolvedWires | crates/policy/src/compiler.rs:447-475 | With honest digits and solved auxiliaries the wire is the truth value of the policy and all constraints vanish |
| PolicyInputs.Fill | crates/policy/src/compiler.rs:478-521 | Appends exactly the policy's slots in emission order; fails exactly on a missing credential |
| PolicyInputs.FilledStable | crates/policy/src/compiler.rs:465-468 | Filled inputs stay filled whatever the auxiliary slots hold |
| PolicySlots.SlotsDescribeInputs | crates/policy/src/compiler.rs:478-521 | Every input is what its slot says: the commitment of the numbered credential's secret, its id, the amount, a digit of the amount or of the distance to a limit |
| DigestField.DigestsMerge | crates/policy/src/compiler.rs:597-599 | Two digests become one element exactly when their little-endian integers are congruent modulo p; an integer below p is the element |
| DigestField.DigestByte | crates/policy/src/compiler.rs:597-599 | Byte k of a digest counts 256^k times |
| PolicyInputs.RoundSettles | crates/policy/src/compiler.rs:458-470 | After round r the first r auxiliaries are final |
| PolicyInputs.SolveRound | crates/policy/src/compiler.rs:459-469 | One round overwrites every auxiliary from the values before it |
| PolicyInputs.SolveAuxiliaries | crates/policy/src/compiler.rs:458-474 | Refuses inputs of the wrong number; pairs auxiliaries with targets and changes nothing else; when they fit the circuit one round more than there are leaves every one the inverse of its discriminant or zero |
| PolicyInputs.BuildInputs | crates/policy/src/compiler.rs:428-476 | Vectors of the declared lengths, filled from the witness and, for the circuit of the same policy, solved; the two errors, for any compiled circuit |
| PolicyInputs.ReferenceEvaluate | crates/policy/src/compiler.rs:537-556 | For the circuit of the same policy true exactly when the normal form is satisfied with the integers of digests compared modulo p; the two errors, for any compiled circuit |
| PolicyInputs.CircuitSoundness | crates/policy/src/compiler.rs:213-338 | For any secret vector with binary digits, zero constraint outputs and a root of one mean the policy holds on the slots |
| PolicyInputs.CompilationPreservesMeaning | crates/policy/src/compiler.rs:523-556 | The circuit accepts whatever the evaluator authorises, and nothing else unless a secret's commitment differs from an id of the policy but is congruent to it modulo p |
| PolicyInputs.CredentialDecided | crates/policy/src/compiler.rs:485-492 | For one credential the evaluator asks that commitment and id are equal, the circuit that their integers are congruent modulo p: a wrong secret is refused unless they are |
| PolicyInputs.CompileAndEvaluate | crates/policy/src/compiler.rs:139-148 | The same for the pipeline compile, build inputs, evaluate; on a valid policy it fails exactly when normalising breaks a limit |
| PolicyInputs.AgreementNeedsApartDigests | crates/policy/src/compiler.rs:597-599 | Circuit and evaluator agree on every covered policy over some credentials exactly when no commitment differs from an id but is congruent to it |
| PolicyInputs.MissingAmountPasses | crates/policy/src/compiler.rs:494-498 | Without an amount the circuit accepts every cap, where the evaluator refuses the witness |
| PolicyInputs.MergedDigestAccepted | crates/policy/src/compiler.rs:597-599 | For every secret there is a valid credential policy, built from its commitment plus or minus p, that the circuit accepts and the evaluator refuses |
| FiatShamir.FsMessage | crates/proof/src/fiat_shamir.rs:117-140 | Writes the message for a selected repetition, or refuses a selector out of range |
| FiatShamir.FsInputInjective | crates/proof/src/fiat_shamir.rs:117-140 | Equal messages come from the same statement, the same sessions and the same selected id |
| Layouts.MessageLayout | crates/proof/src/fiat_shamir.rs:117-140 | Byte by byte: the domain, the backend's id, version 2, the statement, the number of repetitions, each id with its three commitments, the selected id |
| FiatShamir.DeriveChallenges | crates/proof/src/fiat_shamir.rs:162-188 | One challenge per session from the message that selects it |
| FiatShamir.ChallengesDrawn | crates/proof/src/fiat_shamir.rs:162-188 | Challenges exist exactly for one or more sessions of three commitments each; challenge i is what the first eight expanded bytes of message i, big-endian, leave modulo three |
| FiatShamir.StatementPrefixFree | crates/proof/src/statement.rs:61-71 | No statement's encoding is the start of another's |
| Layouts.StatementLayout | crates/proof/src/statement.rs:61-71 | Byte by byte: version 1, circuit id, both lists of 32-byte elements after their counts |
| ViewEncoding.EncodeView | crates/mpcith/src/encoding.rs:84-139 | Appends the canonical bytes of a view |
| ViewEncoding.ReadOperation | crates/mpcith/src/encoding.rs:157-192 | Reads exactly the one recorded operation whose bytes stand here, or none does |
| ViewEncoding.DecodeView | crates/mpcith/src/encoding.rs:147-218 | Reads exactly the one view whose bytes stand at the front, leaving the rest, or none does |
| Layouts.OperationPrinted | crates/mpcith/src/encoding.rs:101-139 | Byte by byte: tags 0 to 2, gate, triple index, elements |
| Layouts.ViewLayout | crates/mpcith/src/encoding.rs:84-139 | Byte by byte: repetition id, party, input shares, operations, triples and openings |
| ProofEncoding.SerializeProof | crates/proof/src/encoding.rs:45-82 | Writes the canonical print of any proof, well-formed or not |
| Layouts.RepetitionLayout | crates/proof/src/encoding.rs:53-80 | Byte by byte: three commitments, hidden party, broadcasts, output shares, two views with lengths and randomness |
| Layouts.ProofLayout | crates/proof/src/encoding.rs:45-82 | Byte by byte: version 2, protocol 1, backend id, statement, repetition count, repetitions |
| ProofEncoding.DecodeStatement | crates/proof/src/statement.rs:96-125 | Reads exactly the statement at the front; a wrong version is reported as such |
| ProofEncoding.WholeView | crates/proof/src/encoding.rs:174-180 | A view is accepted exactly when its bytes fill the announced length |
| ProofEncoding.ReadRepetition | crates/proof/src/encoding.rs:137-192 | Reads exactly the one repetition whose bytes stand here: three commitments, two openings with 32 bytes of randomness |
| ProofEncoding.DeserializeProof | crates/proof/src/encoding.rs:91-135 | Canonical both ways: accepted bytes are the print of the result, every well-formed proof within the limit comes back from its print, one above it is refused as excessive; wrong version, protocol and backend are reported |
| ProofSizes.HonestFits | crates/proof/src/encoding.rs:45-82 | Honest repetitions for circuits of at most a million nodes never exceed the 32-bit lengths of the format |
| ProofLayer.Prove | crates/proof/src/prover.rs:44-137 | Never fails on a valid statement; every hidden party is drawn from the whole transcript; the proof is accepted exactly when the secret-dependent expected outputs are the reference outputs; for circuits and counts within the format's limits it can be serialized |
| ProofLayer.ProveSendVerify | crates/proof/src/encoding.rs:45-135 | A proof sent as bytes arrives unchanged: the receiver accepts exactly when the secret-dependent expected outputs are right |
| ProofLayer.Verify | crates/proof/src/verifier.rs:75-147 | Accepts exactly what `ProofLayer.AcceptanceMeans` spells out; otherwise the error of the first check that fails |
| ProofLayer.AcceptanceMeans | crates/proof/src/verifier.rs:75-147 | Accepted are exactly the proofs with backend, version 2 and protocol 1, this statement of this circuit, at least one repetition, hidden parties drawn from the transcript, and a positive verdict on every repetition |
| ProofLayer.HeaderTampered | crates/proof/src/verifier.rs:75-111 | Which error an accepted proof is refused for after another backend, version, protocol, statement or circuit, or without repetitions |
| ProofLayer.HiddenTampered | crates/proof/src/verifier.rs:112-130 | Another hidden party contradicts the challenge |
| ProofLayer.CommitmentTampered | crates/proof/src/verifier.rs:112-147 | Another commitment of an opened party contradicts a challenge or its opening |
| Proofs.StoredInner | crates/proof/src/verifier.rs:151-172 | Converting a repetition to its stored form and back loses nothing |
| PaymentWiring.BindStatement | crates/payment/src/wiring.rs:55-87 | Builds the bound circuit, or fails when that is invalid |
| PaymentWiring.BoundIsValid | crates/payment/src/wiring.rs:55-87 | For a compiled policy it is valid and every output depends on a secret |
| PaymentWiring.BoundValues | crates/payment/src/wiring.rs:55-87 | Every policy wire keeps its value and the last output is root times binding product |
| PaymentWiring.BoundRootDecides | crates/payment/src/authorization.rs:134-144 | The bound root equals the product exactly when the root is one or the product zero |
| PaymentWiring.ProductVanishes | crates/payment/src/wiring.rs:34-41 | The product is zero exactly when a binding value is |
| PaymentWiring.PolicyPublicInputs | crates/payment/src/wiring.rs:110-144 | Both queues fit the slots, and the result is the policy's public inputs |
| PaymentWiring.PublicsRebuilt | crates/payment/src/wiring.rs:94-144 | The public inputs the prover fills are those the verifier rebuilds |
| PaymentAuthorization.PaymentPolicy.ValidateRelation | crates/payment/src/relation.rs:38-90 | Decides the relation, or reports its first failing check; the final circuit check never refuses what the other checks admit |
| PaymentAuthorization.PaymentPolicy.AuthorizePayment | crates/payment/src/authorization.rs:57-98 | Succeeds exactly when the statement names the pipeline and the relation holds; the proof has twelve repetitions and is accepted for the rebuilt statement; otherwise which error |
| PaymentAuthorization.PaymentPolicy.VerifyPaymentAuthorization | crates/payment/src/authorization.rs:115-153 | Returns true exactly for proofs the proof layer accepts for the rebuilt statement, hence for one payment only (`PaymentMeaning.OneProofOnePayment`), never false, and otherwise which error |
| PaymentAuthorization.PaymentPolicy.AuthorizeThenVerify | crates/payment/src/authorization.rs:57-153 | An authorised payment verifies |
| PaymentMeaning.AcceptedStates | crates/payment/src/authorization.rs:131-144 | An accepted proof's last four public inputs are the amount and the integers of recipient, nonce and payment id modulo p; its expected outputs are zeros and their product modulo p |
| PaymentMeaning.OneProofOnePayment | crates/payment/src/authorization.rs:101-153 | A proof accepted for two statements, be it under two policies, is for one amount, one version, one circuit, and recipient, nonce and payment id with integers congruent modulo p |
| PaymentMeaning.ProofFitsOtherStatement | crates/payment/src/authorization.rs:101-153 | Under one policy a proof of one statement is accepted for another exactly when these and the policy id agree |
| PaymentMeaning.CongruentRecipientAccepted | crates/payment/src/authorization.rs:101-105 | Every accepted proof is accepted for another recipient commitment too, its digest moved by p |
| PaymentMeaning.AuthorizedMeans | crates/payment/src/relation.rs:38-90 | The relation in plain terms: policy, secrets of 1 to 4096 bytes, the statement's amount below every cap with its 64 digits and those of the distance, and satisfaction |
| PaymentMeaning.RelationTampered | crates/payment/src/relation.rs:48-90 | Which error each change to an authorised payment is refused for |
| PaymentMeaning.BindingTampered | crates/payment/src/authorization.rs:155-171 | Which error another version, policy id or circuit id is refused for |
| PaymentMeaning.PolicyIdDecides | crates/policy/src/identity.rs:1-22 | Policies share an id exactly when the forgotten edits connect them or two encodings collide under the hash |
| PaymentMeaning.OneStatementOnePolicy | crates/payment/src/authorization.rs:155-171 | A statement accepted under two policies is for policies that agree on every witness, or exhibits a collision |
| PaymentAuthorization.HonestOutputs | crates/payment/src/authorization.rs:77-84 | The prover's reference outputs are the outputs the verifier expects |
| PaymentAuthorization.CapsDecided | crates/payment/src/relation.rs:59-72 | Some private witness is within all caps of a policy exactly when they are one and the same and the amount is below it |
| PaymentAuthorization.SatisfiedButRefused | crates/payment/src/relation.rs:59-72 | A disjunction of two caps between which the amount lies is satisfied, but no such payment is authorised |
| PaymentMeaning.OutputsRightExactly | crates/payment/src/authorization.rs:115-153 | Secret inputs give the outputs the verifier expects exactly when every constraint vanishes and the policy root is one or the binding product zero |
| PaymentMeaning.ProveInputs | crates/payment/src/authorization.rs:84-153 | A proof made from any secret inputs is accepted exactly then |
| PaymentMeaning.BuiltInputsPass | crates/payment/src/wiring.rs:34-41 | Inputs built from a covering witness pass exactly when it satisfies the policy or a binding value is zero |
| PaymentMeaning.FreeDigitsPass | crates/policy/src/range_check.rs:73-113 | A single cap is passed by every amount at some digits that are not binary |
| PaymentMeaning.PaymentSoundness | crates/payment/src/authorization.rs:115-153 | If an accepted proof has a repetition with a fitting hidden view and honest triples, the extracted inputs pass; with binary digits among them and no zero binding value, the policy holds on the extracted input slots |

## Left out

- Circuits.CircuitBuilder.SecretInput: node ids are unbounded, the panic on the 2^32nd node is not modelled.
- CircuitEncoding.Deserialize: which error a refused byte string gets is not stated; memory reserved from a claimed count and recursion depth are not modelled.
- CircuitEncoding.TakeNode: which error a byte string that starts no node gets is not stated.
- MpcithVerifier.Verify: that some error is returned is stated, which one only partly; the same holds for MpcithVerifier.VerifyRepetition and MpcithVerifier.ReplayParty.
- MpcithProver.Prover.ProveJoint: the interactive entry points with a challenge source and the transcript hooks are left out; they run the same phases one repetition at a time.
- PolicyValidation.Validate: which of several faults is reported is not stated.
- PolicyNormalLaws.NormalizeKeepsMeaning: requires the member counts met while normalising to fit 32 bits, because the code de-duplicates by encodings whose counts are truncated; PolicyLimits.SmallFits gives a node bound that implies it.
- PolicyInputs.ReferenceEvaluate: for the circuit of another policy that declares the same numbers of inputs the answer itself is not characterised; the same holds for the auxiliaries of PolicyInputs.BuildInputs.
- PaymentAuthorization.PaymentPolicy.AuthorizePayment: both pipelines compile the policy in every call; the model compiles once and hands the result to both, as compilation is deterministic. The panic of the policy id on an encoding above one mebibyte is not modelled.
- PaymentMeaning.PaymentSoundness: the hidden view and the products behind its triples are hypotheses, met by honest runs; that hidden challenges and commitments make them likely is a probabilistic claim.
- The repetition and proof codecs of the inner protocol layer: the outer layer has its own and never calls them.
- Hash functions, their expansion, hiding and binding of commitments, soundness error probabilities.
- Rejection sampling and modulo bias of random field elements: the tape holds field elements.
- Zeroisation, redacted debug output, constant-time comparison.
- The orchestration crate, fixed-width codecs of amounts, payments and shares, transcript hooks, benchmarks.
- The multiplication counter of the compilation metadata: it omits gates inside the range check.
