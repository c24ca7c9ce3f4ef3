/** What an accepted payment authorisation says about the policy, exactly, and which hypotheses that
    needs. */
module PaymentMeaning {
  import opened Wrappers
  import opened PrimeField
  import opened BigEndian
  import opened DigestField
  import opened RandomTape
  import opened Circuits
  import opened CircuitGates
  import opened Policies
  import opened PolicyValidation
  import PolicyEncoding
  import opened PolicyNormal
  import opened PolicyLimits
  import PolicyEdits
  import opened RangeCheck
  import opened FreeDigits
  import opened PolicyWires
  import opened PolicyWireLaws
  import opened PolicyCompiler
  import opened PolicyInputs
  import opened MpcithProof
  import opened MpcithTheorems
  import opened Proofs
  import opened ProofLayer
  import FiatShamir
  import Mpcith
  import MpcithProver
  import MpcithVerifier
  import opened PaymentWiring
  import opened PaymentAuthorization

  // ---- what acceptance means ---------------------------------------------------------------------------

  /** Every repetition of an accepted proof has a positive verdict. */
  lemma {:induction false} VerdictOfEach(s: Statement, proof: seq<Repetition>, c: Circuit, from: nat, i: nat)
    requires ValidStatement(s, c) && from <= i < |proof| && MpcithVerifier.Verdict(s, proof, c, from) == Some(true)
    ensures MpcithVerifier.Consistent(c, s, proof[i]) && MpcithVerifier.OutputVerdict(c, s, proof[i], 0) == Ok(true)
    decreases i - from
  {
    hide MpcithVerifier.Consistent, MpcithVerifier.OutputVerdict, ValidStatement;
    if from < i {
      VerdictOfEach(s, proof, c, from + 1, i);
    }
  }

  /** What the rebuilt statement asks of secret inputs: every constraint vanishes, and the policy root
      is one or the binding product zero. */
  ghost predicate Passes(c: CompiledPolicy, n: Policy, st: PaymentStatement, secrets: seq<Elem>)
    requires OutputsDefined(c.circuit) && |c.circuit.outputs| == c.rangeCheckOutputs + 1
  {
    var y := Inputs(secrets, PolicyPublics(n));
    && (forall j :: 0 <= j < c.rangeCheckOutputs ==> At(c.circuit.nodes, y, c.circuit.outputs[j]) == 0)
    && (At(c.circuit.nodes, y, c.circuit.outputs[c.rangeCheckOutputs]) == 1 || Product(BindingValues(st)) == 0)
  }

  lemma ImplementsOutputs(c: CompiledPolicy, n: Policy)
    requires Implements(c, n)
    ensures OutputsDefined(c.circuit) && |c.circuit.outputs| == c.rangeCheckOutputs + 1
    ensures ValidCircuit(c.circuit) && c.circuit.numPublicInputs == Publics(n)
  {
    hide At, AtAll, Wire, Discriminants, AuxPositions;
  }

  /** Every output of the bound circuit depends on a secret, so every output is compared. */
  lemma OutputsCompared(c: CompiledPolicy, n: Policy, st: PaymentStatement, secrets: seq<Elem>)
    requires Implements(c, n) && c.circuit.outputs != [] && ValidStatement(RebuiltStatement(c, n, st), Bound(c))
    ensures |Bound(c).outputs| == c.rangeCheckOutputs + 1 && OutputsDefined(Bound(c))
    ensures var x := Inputs(secrets, PolicyPublics(n) + BindingValues(st));
            OutputsRight(Bound(c), RebuiltStatement(c, n, st), secrets, 0) <==>
            && (forall j :: 0 <= j < c.rangeCheckOutputs ==> At(Bound(c).nodes, x, Bound(c).outputs[j]) == 0)
            && At(Bound(c).nodes, x, Bound(c).outputs[c.rangeCheckOutputs]) == Product(BindingValues(st))
  {
    hide Implements, Product, BindingValues, PolicyPublics, Value, Shared;
    BoundIsValid(c, n);
    ImplementsSizes(c, n);
    var s := RebuiltStatement(c, n, st);
    var x := Inputs(secrets, s.publicInputs);
    forall j | 0 <= j <= c.rangeCheckOutputs
      ensures At(Bound(c).nodes, x, Bound(c).outputs[j]) == Value(Bound(c).nodes, secrets, s.publicInputs, Bound(c).outputs[j])
      ensures s.expectedOutputs[j] == if j < c.rangeCheckOutputs then 0 else Product(BindingValues(st))
      ensures Shared(Bound(c).nodes, Bound(c).outputs[j])
    {
    }
  }

  /** The bound outputs are what the verifier expects exactly when the inputs pass. */
  lemma OutputsRightExactly(c: CompiledPolicy, n: Policy, st: PaymentStatement, secrets: seq<Elem>)
    requires Implements(c, n)
    ensures OutputsDefined(c.circuit) && |c.circuit.outputs| == c.rangeCheckOutputs + 1
    ensures ValidStatement(RebuiltStatement(c, n, st), Bound(c))
    ensures OutputsRight(Bound(c), RebuiltStatement(c, n, st), secrets, 0) <==> Passes(c, n, st, secrets)
  {
    hide Implements, Product, BindingValues, PolicyPublics, At, Mul, ValidCircuit, ValidStatement, OutputsRight, RebuiltStatement;
    ImplementsOutputs(c, n);
    RebuiltIsValid(c, n, st);
    PublicsCount(n);
    var b := BindingValues(st);
    OutputsCompared(c, n, st, secrets);
    BoundValues(c, secrets, PolicyPublics(n), b);
    var y := Inputs(secrets, PolicyPublics(n));
    BoundRootDecides(At(c.circuit.nodes, y, c.circuit.outputs[c.rangeCheckOutputs]), Product(b));
    assert forall j :: 0 <= j < c.rangeCheckOutputs ==> Bound(c).outputs[j] == c.circuit.outputs[j];
  }

  /** The proof layer's prover on any secret inputs: its proof for the rebuilt statement is accepted
      exactly when they pass. */
  method ProveInputs(c: CompiledPolicy, ghost n: Policy, st: PaymentStatement, s: Statement, secrets: seq<Elem>, count: nat,
                     rng: Tape, blockRng: MpcithProver.BlockTape)
    returns (proof: NonInteractiveProof)
    requires Implements(c, n) && |secrets| == c.circuit.numSecretInputs && count > 0
    requires c.circuit.outputs != [] && s == RebuiltStatement(c, n, st)
    modifies rng, blockRng
    ensures OutputsDefined(c.circuit) && |c.circuit.outputs| == c.rangeCheckOutputs + 1
    ensures Accepts(Bound(c), s, proof) <==> Passes(c, n, st, secrets)
  {
    hide Implements, Passes, Accepts, OutputsRight, RebuiltStatement, ValidStatement, ValidCircuit;
    OutputsRightExactly(c, n, st, secrets);
    BoundIsValid(c, n);
    var bound := BindStatement(c);
    var proved := Prove(bound.value, s, secrets, count, rng, blockRng);
    return proved.value;
  }

  /** If the inputs pass, the binding product is not zero and the digits are binary, the policy holds
      on the inputs. */
  lemma PassingMeans(c: CompiledPolicy, n: Policy, st: PaymentStatement, secrets: seq<Elem>)
    requires Wide() && Implements(c, n) && ValidPolicy(n)
    requires OutputsDefined(c.circuit) && |c.circuit.outputs| == c.rangeCheckOutputs + 1
    requires Passes(c, n, st, secrets) && Product(BindingValues(st)) != 0
    requires DigitsBinary(n, Inputs(secrets, PolicyPublics(n)), 0)
    ensures Holds(n, Inputs(secrets, PolicyPublics(n)), 0, 0)
  {
    hide Implements, WellShaped, FitsDepth, Holds, DigitsBinary, Product, BindingValues, PolicyPublics, Sound, At, LimitsFit, Shows, OutputsDefined;
    var y := Inputs(secrets, PolicyPublics(n));
    ShownPublics(n, secrets);
    ShownLimitsFit(n, y, 0);
    CircuitSoundness(c, n, y);
  }

  lemma ShownPublics(n: Policy, secrets: seq<Elem>)
    ensures Shows(Inputs(secrets, PolicyPublics(n)), 0, PolicyPublics(n))
  {
    hide PolicyPublics;
  }

  /** Soundness of an accepted authorisation. If some repetition's hidden view fits its broadcasts
      and output shares and its triples are honest, the three views carry secret inputs, and these
      pass. If moreover no binding value is zero and the digit slots among the inputs are binary, the
      policy holds on them: every satisfied credential leaf's slot is its credential id as a field element, every
      satisfied amount leaf's slot is at most its limit. */
  lemma PaymentSoundness(c: CompiledPolicy, n: Policy, st: PaymentStatement, proof: NonInteractiveProof, i: nat, hiddenView: Mpcith.PartyView)
    requires Wide() && Implements(c, n) && ValidPolicy(n) && c.circuit.outputs != []
    requires Accepts(Bound(c), RebuiltStatement(c, n, st), proof) && i < |proof.repetitions|
    requires HiddenViewFits(Bound(c), RebuiltStatement(c, n, st), Inner(proof.repetitions[i], i), hiddenView)
    ensures var secrets := Extracted(Bound(c), RebuiltStatement(c, n, st), Inner(proof.repetitions[i], i), hiddenView);
            && OutputsDefined(c.circuit) && |c.circuit.outputs| == c.rangeCheckOutputs + 1
            && Passes(c, n, st, secrets)
            && (DigitsBinary(n, Inputs(secrets, PolicyPublics(n)), 0) && 0 !in BindingValues(st)
                ==> Holds(n, Inputs(secrets, PolicyPublics(n)), 0, 0))
  {
    hide Passes, Implements, WellShaped, FitsDepth, Holds, DigitsBinary, HiddenViewFits, Extracted, MpcithVerifier.OutputVerdict, OutputsRight, Bound, RebuiltStatement, Product, BindingValues, PolicyPublics, ValidStatement, Inner, MpcithVerifier.Consistent;
    var s := RebuiltStatement(c, n, st);
    var rep := Inner(proof.repetitions[i], i);
    var secrets := Extracted(Bound(c), s, rep, hiddenView);
    VerdictOfEach(s, InnerProof(proof.repetitions), Bound(c), 0, i);
    RebuiltIsValid(c, n, st);
    AcceptanceIsTruth(Bound(c), s, rep, hiddenView);
    OutputsRightExactly(c, n, st, secrets);
    ProductVanishes(BindingValues(st));
    if DigitsBinary(n, Inputs(secrets, PolicyPublics(n)), 0) && 0 !in BindingValues(st) {
      PassingMeans(c, n, st, secrets);
    }
  }

  // ---- one proof, one payment --------------------------------------------------------------------------

  /** Two statements about one payment: the same amount, and recipient, nonce and payment id whose
      little-endian integers agree modulo p. */
  predicate SamePayment(st: PaymentStatement, st': PaymentStatement) {
    && st.amount == st'.amount
    && DigestNumber(st.recipientCommitment) % P == DigestNumber(st'.recipientCommitment) % P
    && DigestNumber(st.nonce) % P == DigestNumber(st'.nonce) % P
    && DigestNumber(st.paymentId) % P == DigestNumber(st'.paymentId) % P
  }

  lemma SameBinding(st: PaymentStatement, st': PaymentStatement)
    requires Wide()
    ensures BindingValues(st) == BindingValues(st') <==> SamePayment(st, st')
  {
    FeOfSmall(st.amount);
    FeOfSmall(st'.amount);
    DigestsMerge(st.recipientCommitment, st'.recipientCommitment);
    DigestsMerge(st.nonce, st'.nonce);
    DigestsMerge(st.paymentId, st'.paymentId);
    hide DigestToField, DigestNumber;
    var (b, b') := (BindingValues(st), BindingValues(st'));
    assert b == b' ==> b[0] == b'[0] && b[1] == b'[1] && b[2] == b'[2] && b[3] == b'[3];
  }

  /** What an accepted proof states, in plain numbers: its last four public inputs are the amount and
      the integers of recipient, nonce and payment id modulo p, in this order; every expected output is
      zero but the last, which is the product of these four modulo p. */
  lemma AcceptedStates(pp: PaymentPolicy, st: PaymentStatement, proof: NonInteractiveProof)
    requires Wide() && pp.Accepted(st, proof)
    ensures var (s, r, n, i) := (proof.statement, DigestNumber(st.recipientCommitment), DigestNumber(st.nonce), DigestNumber(st.paymentId));
            var (publics, outs) := (|s.publicInputs|, |s.expectedOutputs|);
            && publics >= 4 && s.publicInputs[publics - 4] == st.amount && s.publicInputs[publics - 3] == r % P
            && s.publicInputs[publics - 2] == n % P && s.publicInputs[publics - 1] == i % P
            && outs >= 1 && s.expectedOutputs[outs - 1] == (((st.amount * r) * n) * i) % P
            && forall k :: 0 <= k < outs - 1 ==> s.expectedOutputs[k] == 0
  {
    hide Normalize, PolicyPublics, Bound, BindingValues, Product, PolicyId, ValidStatement, FiatShamir.DeriveAll, MpcithVerifier.Verdict, DigestNumber;
    BindingNumbers(st);
  }

  lemma BindingNumbers(st: PaymentStatement)
    requires Wide()
    ensures var (b, r, n, i) := (BindingValues(st), DigestNumber(st.recipientCommitment), DigestNumber(st.nonce), DigestNumber(st.paymentId));
            && b[0] == st.amount && b[1] == r % P && b[2] == n % P && b[3] == i % P
            && Product(b) == (((st.amount * r) * n) * i) % P
  {
    hide Product, Mul, LittleEndian, DigestNumber;
    var (b, r, n, i) := (BindingValues(st), DigestNumber(st.recipientCommitment), DigestNumber(st.nonce), DigestNumber(st.paymentId));
    LittleEndianNumber(st.recipientCommitment);
    LittleEndianNumber(st.nonce);
    LittleEndianNumber(st.paymentId);
    FeOfSmall(st.amount);
    ProductOfFour(b);
    assert b[0] == Fe(st.amount) && b[1] == Fe(r) && b[2] == Fe(n) && b[3] == Fe(i);
    hide BindingValues, Fe;
    FeMul(st.amount, r);
    FeMul(st.amount * r, n);
    FeMul((st.amount * r) * n, i);
    ReducedIs((((st.amount * r) * n) * i));
    ReducedIs(r);
    ReducedIs(n);
    ReducedIs(i);
  }

  lemma ReducedIs(x: int)
    ensures Fe(x) == x % P
  {
  }

  lemma LastFour(a: seq<Elem>, a': seq<Elem>, b: seq<Elem>, b': seq<Elem>)
    requires |b| == |b'| && a + b == a' + b'
    ensures a == a' && b == b'
  {
    assert |a + b| == |a' + b'|;
    assert a == (a + b)[..|a|] && b == (a + b)[|a|..];
    assert a' == (a' + b')[..|a'|] && b' == (a' + b')[|a'|..];
  }

  /** A proof that is accepted for two statements, be it under two policies, is for one payment. */
  lemma OneProofOnePayment(pp: PaymentPolicy, st: PaymentStatement, pp': PaymentPolicy, st': PaymentStatement, proof: NonInteractiveProof)
    requires Wide() && pp.Accepted(st, proof) && pp'.Accepted(st', proof)
    ensures SamePayment(st, st') && st.protocolVersion == st'.protocolVersion && st.circuitId == st'.circuitId
    ensures pp.policy == pp'.policy ==> st.policyId == st'.policyId
  {
    hide Normalize, PolicyPublics, Bound, BindingValues, Product, PolicyId, SamePayment, ValidStatement, FiatShamir.DeriveAll, MpcithVerifier.Verdict;
    LastFour(PolicyPublics(Normalize(pp.policy)), PolicyPublics(Normalize(pp'.policy)), BindingValues(st), BindingValues(st'));
    SameBinding(st, st');
  }

  /** Under one policy that is all: the proof of one statement is accepted for another exactly when
      both are about one payment and name the same policy, circuit and version. */
  lemma ProofFitsOtherStatement(pp: PaymentPolicy, st: PaymentStatement, st': PaymentStatement, proof: NonInteractiveProof)
    requires Wide() && pp.Accepted(st, proof)
    ensures pp.Accepted(st', proof) <==>
              && SamePayment(st, st') && st'.policyId == st.policyId && st'.circuitId == st.circuitId
              && st'.protocolVersion == st.protocolVersion
  {
    if pp.Accepted(st', proof) {
      OneProofOnePayment(pp, st, pp, st', proof);
    }
    hide Normalize, PolicyPublics, Bound, BindingValues, Product, PolicyId, SamePayment, Accepts;
    SameBinding(st, st');
  }

  /** The exact statement is not determined: some other recipient commitment is congruent to the one
      proved for, and the proof is accepted for it too. */
  lemma CongruentRecipientAccepted(pp: PaymentPolicy, st: PaymentStatement, proof: NonInteractiveProof) returns (st': PaymentStatement)
    requires Wide() && DigestsCollide() && pp.Accepted(st, proof)
    ensures st'.recipientCommitment != st.recipientCommitment
    ensures st' == st.(recipientCommitment := st'.recipientCommitment) && pp.Accepted(st', proof)
  {
    var other := MergedDigest(st.recipientCommitment);
    st' := st.(recipientCommitment := other);
    hide Accepts, DigestNumber, PaymentPolicy.Accepted;
    ProofFitsOtherStatement(pp, st, st', proof);
  }

  // ---- what is authorised ------------------------------------------------------------------------------

  /** Sixty-four binary digits, lowest first, that stand for an integer. */
  predicate SpellsWord(ds: seq<Elem>, x: int) {
    |ds| == 64 && (forall i :: 0 <= i < 64 ==> ds[i] == 0 || ds[i] == 1) && IntegerOf(ds) == x
  }

  lemma WordSpelled(ds: seq<Elem>, x: U64)
    ensures ds == Digits(x, 64) <==> SpellsWord(ds, x)
  {
    hide Digits, IntegerOf;
    WordWidth();
    DigitsDenote(x, 64);
    if SpellsWord(ds, x) {
      DigitsUnique(ds);
    }
  }

  /** The amount is below every cap, and the digits of the amount and of its distance to every cap are
      as they should be. */
  predicate CapsMet(pw: PrivateWitness, amount: U64, limits: seq<U64>) {
    forall k :: 0 <= k < |limits| ==> CapMet(pw, amount, limits[k])
  }

  predicate CapMet(pw: PrivateWitness, amount: U64, limit: U64) {
    amount <= limit && SpellsWord(pw.amountBits, amount) && SpellsWord(pw.differenceBits, limit - amount)
  }

  predicate SecretsSized(secrets: seq<seq<Byte>>) {
    forall k :: 0 <= k < |secrets| ==> 1 <= |secrets[k]| <= 4096
  }

  /** The relation in plain terms: a valid policy that stays valid when normalised and whose normal
      form's encoding hashes to the statement's policy id; for every credential leaf one secret of 1 to
      4096 bytes; the statement's amount, below every cap, with its binary digits and those of the
      distance to every cap; and the policy satisfied by these secrets and this amount. */
  lemma AuthorizedMeans(st: PaymentStatement, pw: PrivateWitness, p: Policy)
    ensures Authorized(st, pw, p) <==>
              && ValidPolicy(p) && KeepsLimits(p) && st.policyId == PolicyIdOf(PolicyEncoding.Encode(Normalize(p)))
              && |pw.credentialSecrets| == |CredentialIds(p)| && SecretsSized(pw.credentialSecrets)
              && pw.amount == st.amount && CapsMet(pw, st.amount, Limits(p))
              && Satisfied(p, Witness(Paired(CredentialIds(p), pw.credentialSecrets), Some(st.amount)))
  {
    hide ValidPolicy, KeepsLimits, Satisfied, Normalize, PolicyEncoding.Encode, CredentialIds, Limits, Paired, WithinCaps, CapsMet, SecretsSized, WellFormed;
    CapsSpelled(pw, Limits(p));
    SecretsSpelled(pw, p);
  }

  lemma SecretsSpelled(pw: PrivateWitness, p: Policy)
    ensures WellFormed(pw, p) <==> |pw.credentialSecrets| == |CredentialIds(p)| && SecretsSized(pw.credentialSecrets)
  {
    hide CredentialIds;
  }

  lemma CapsSpelled(pw: PrivateWitness, limits: seq<U64>)
    ensures WithinCaps(pw, limits) <==> CapsMet(pw, pw.amount, limits)
  {
    hide WithinCap, CapMet;
    forall k | 0 <= k < |limits|
      ensures WithinCap(pw, limits[k]) <==> CapMet(pw, pw.amount, limits[k])
    {
      CapSpelled(pw, limits[k]);
    }
  }

  lemma CapSpelled(pw: PrivateWitness, limit: U64)
    ensures WithinCap(pw, limit) <==> CapMet(pw, pw.amount, limit)
  {
    hide Digits, SpellsWord;
    WordSpelled(pw.amountBits, pw.amount);
    if pw.amount <= limit {
      WordSpelled(pw.differenceBits, limit - pw.amount);
    }
  }

  /** What a change to an authorised payment is refused for: another policy id, another number of
      secrets, a secret that is empty or too long, another amount on one side, other digits, an amount
      above the first cap on both sides, or secrets that do not satisfy the policy. */
  lemma RelationTampered(st: PaymentStatement, pw: PrivateWitness, p: Policy, d: Digest, a: U64, secrets: seq<seq<Byte>>, bits: seq<Elem>)
    requires Authorized(st, pw, p)
    ensures d != st.policyId ==> RelationFault(st.(policyId := d), pw, p) == Some(PolicyIdMismatch)
    ensures a != st.amount ==> RelationFault(st.(amount := a), pw, p) == Some(AmountMismatch)
    ensures |secrets| != |pw.credentialSecrets| ==> RelationFault(st, pw.(credentialSecrets := secrets), p) == Some(WitnessCountMismatch)
    ensures |secrets| == |pw.credentialSecrets| && (exists k :: 0 <= k < |secrets| && (secrets[k] == [] || |secrets[k]| > 4096)) ==>
              RelationFault(st, pw.(credentialSecrets := secrets), p) == Some(MalformedCredentialSecret)
    ensures |secrets| == |pw.credentialSecrets| && (forall k :: 0 <= k < |secrets| ==> 1 <= |secrets[k]| <= 4096)
            && !Satisfied(p, Witness(Paired(CredentialIds(p), secrets), Some(st.amount))) ==>
              RelationFault(st, pw.(credentialSecrets := secrets), p) == Some(PolicyNotSatisfied)
    ensures |Limits(p)| > 0 && bits != pw.amountBits ==> RelationFault(st, pw.(amountBits := bits), p) == Some(InvalidBitWitness)
    ensures |Limits(p)| > 0 && bits != pw.differenceBits ==> RelationFault(st, pw.(differenceBits := bits), p) == Some(InvalidBitWitness)
    ensures |Limits(p)| > 0 && a > Limits(p)[0] ==>
              RelationFault(st.(amount := a), pw.(amount := a), p) == Some(AmountExceedsLimit)
  {
    hide ValidPolicy, KeepsLimits, Satisfied, PolicyId, CredentialIds, Limits, Digits, Paired;
    NoCapFault(pw, Limits(p), 0);
    NoCapFault(pw.(credentialSecrets := secrets), Limits(p), 0);
    assert |Limits(p)| > 0 ==> WithinCap(pw, Limits(p)[0]);
    assert forall k :: 0 <= k < |Limits(p)| ==> WithinCap(pw.(credentialSecrets := secrets), Limits(p)[k]) == WithinCap(pw, Limits(p)[k]);
  }

  /** What a statement that does not name the pipeline is refused for. */
  lemma BindingTampered(pp: PaymentPolicy, st: PaymentStatement, v: Byte, d: Digest)
    requires pp.BindingMatches(st)
    ensures v != st.protocolVersion ==>
              !pp.BindingMatches(st.(protocolVersion := v)) && pp.BindingFault(st.(protocolVersion := v)) == StatementMismatch
    ensures d != st.policyId ==> !pp.BindingMatches(st.(policyId := d)) && pp.BindingFault(st.(policyId := d)) == PolicyIdMismatch
    ensures d != st.circuitId ==> !pp.BindingMatches(st.(circuitId := d)) && pp.BindingFault(st.(circuitId := d)) == StatementMismatch
  {
    hide PolicyId, Bound;
  }

  /** Two byte strings with one policy hash. */
  predicate PolicyHashesCollide(a: seq<Byte>, b: seq<Byte>) {
    a != b && PolicyIdOf(a) == PolicyIdOf(b)
  }

  /** Policies share an id if edits that normalisation forgets connect them, and otherwise only if the
      encodings of their normal forms collide. */
  lemma PolicyIdDecides(p: Policy, q: Policy)
    requires CountsFit(p) && CountsFit(q)
    ensures PolicyId(p) == PolicyId(q) <==>
              || PolicyEdits.Connected(p, q)
              || PolicyHashesCollide(PolicyEncoding.Encode(Normalize(p)), PolicyEncoding.Encode(Normalize(q)))
  {
    hide CountsFit, Normalize, PolicyEncoding.Encode, PolicyEdits.Connected;
    PolicyEdits.SameFormByEdits(p, q);
  }

  /** A statement names one policy, up to such edits: a payment statement that is accepted under two
      policies exhibits a collision or is for policies that agree on every witness. */
  lemma OneStatementOnePolicy(pp: PaymentPolicy, pp': PaymentPolicy, st: PaymentStatement, proof: NonInteractiveProof, proof': NonInteractiveProof, w: Witness)
    requires CountsFit(pp.policy) && CountsFit(pp'.policy) && pp.Accepted(st, proof) && pp'.Accepted(st, proof')
    ensures PolicyHashesCollide(PolicyEncoding.Encode(Normalize(pp.policy)), PolicyEncoding.Encode(Normalize(pp'.policy)))
            || Satisfied(pp.policy, w) == Satisfied(pp'.policy, w)
  {
    hide CountsFit, PolicyEdits.Connected, Normalize, PolicyEncoding.Encode, Satisfied, Covers, Accepts, Bound, PolicyPublics, RebuiltStatement;
    assert PolicyId(pp.policy) == st.policyId == PolicyId(pp'.policy);
    PolicyEdits.SameFormByEdits(pp.policy, pp'.policy);
    if Normalize(pp.policy) == Normalize(pp'.policy) {
      PolicyEdits.SameFormAgrees(pp.policy, pp'.policy, w);
    }
  }

  // ---- both hypotheses are needed ----------------------------------------------------------------------

  /** Inputs built from a covering witness pass exactly when it satisfies the policy, or some binding
      value is zero: then every covering witness will do. */
  lemma BuiltInputsPass(c: CompiledPolicy, n: Policy, st: PaymentStatement, w: Witness, x: Inputs)
    requires Wide() && Implements(c, n) && ValidPolicy(n) && BuiltFor(n, w, x)
    requires OutputsDefined(c.circuit) && |c.circuit.outputs| == c.rangeCheckOutputs + 1
    ensures x.publics == PolicyPublics(n)
    ensures Passes(c, n, st, x.secrets) <==> FieldSatisfied(n, w) || 0 in BindingValues(st)
  {
    hide Implements, WellShaped, FitsDepth, Product, BindingValues, PolicyPublics, At, FieldSatisfied, BuiltFor, Wire, Discriminants, AuxPositions, ConstraintsZero, OutputsDefined;
    PublicsRebuilt(n, w, x);
    OutputsRead(c, n, x);
    BuiltIsExact(n, w, x);
    ProductVanishes(BindingValues(st));
  }

  /** Inputs of a single amount cap at which everything vanishes, whatever the amount: the digits are
      not binary. */
  lemma FreeDigitsPass(c: CompiledPolicy, limit: U64, st: PaymentStatement, amount: Elem) returns (secrets: seq<Elem>)
    requires Wide() && Implements(c, AmountAtMost(limit))
    requires OutputsDefined(c.circuit) && |c.circuit.outputs| == c.rangeCheckOutputs + 1
    ensures |secrets| == c.circuit.numSecretInputs && Passes(c, AmountAtMost(limit), st, secrets)
    ensures var (n, y) := (AmountAtMost(limit), Inputs(secrets, PolicyPublics(AmountAtMost(limit))));
            !DigitsBinary(n, y, 0) && (Holds(n, y, 0, 0) <==> amount <= limit)
  {
    hide Implements, At, Product, BindingValues, Constraints, OutputsDefined, Discriminants, AuxPositions, ConstraintsZero, AllZero, Fe;
    var n := AmountAtMost(limit);
    var ds, es := ConstraintsWithFreeDigits(amount, Fe(limit));
    secrets := [amount] + (ds + es);
    var y := Inputs(secrets, PolicyPublics(n));
    FeOfSmall(limit);
    assert secrets[1..65] == ds && secrets[65..129] == es;
    BlockAt(y, 1, ds);
    BlockAt(y, 65, es);
    AllZeroBoolean(Constraints(amount, Fe(limit), ds, es));
    ReadyToSolve(c, n);
    OutputsRead(c, n, y);
    NothingPublished(n, y);
  }

  lemma NothingPublished(n: Policy, y: Inputs)
    requires n.AmountAtMost?
    ensures ConstraintsZero(Discriminants(n, y, 0, 0), AuxPositions(n, 0), y)
  {
  }
}
