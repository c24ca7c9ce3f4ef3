/** Authorising a payment and checking an authorisation: the prover's and the verifier's pipelines,
    their agreement, and what an accepted authorisation says about the policy. */
module PaymentAuthorization {
  import opened Wrappers
  import opened PrimeField
  import opened BigEndian
  import opened DigestField
  import opened RandomTape
  import opened Circuits
  import opened CircuitGates
  import opened Policies
  import PolicyEncoding
  import opened PolicyValidation
  import opened PolicyNormal
  import opened PolicyNormalLaws
  import opened PolicyLimits
  import opened RangeCheck
  import opened PolicyWires
  import opened PolicyWireLaws
  import opened PolicyCompiler
  import opened PolicyInputs
  import opened MpcithProof
  import opened MpcithTheorems
  import opened Proofs
  import opened ProofLayer
  import Mpcith
  import MpcithProver
  import MpcithVerifier
  import opened PaymentWiring

  const AUTHORIZATION_REPETITIONS: nat := 12
  const MAX_CREDENTIAL_SECRET_LEN: nat := 4096

  /** The hash of a canonical policy encoding. */
  const PolicyIdOf: seq<Byte> -> Digest

  function PolicyId(p: Policy): Digest {
    PolicyIdOf(PolicyEncoding.Encode(Normalize(p)))
  }

  datatype PrivateWitness = PrivateWitness(
    credentialSecrets: seq<seq<Byte>>,
    amount: U64,
    amountBits: seq<Elem>,
    differenceBits: seq<Elem>)

  // ---- the plaintext relation --------------------------------------------------------------------------

  function Paired(ids: seq<CredentialId>, secrets: seq<seq<Byte>>): (pairs: seq<(CredentialId, seq<Byte>)>)
    requires |ids| == |secrets|
    ensures |pairs| == |ids|
  {
    seq(|ids|, k requires 0 <= k < |ids| && |ids| == |secrets| => (ids[k], secrets[k]))
  }

  /** Secrets are matched with the credential leaves in depth-first order. */
  function PolicyWitness(pw: PrivateWitness, p: Policy): Witness
    requires |pw.credentialSecrets| == |CredentialIds(p)|
  {
    Witness(Paired(CredentialIds(p), pw.credentialSecrets), Some(pw.amount))
  }

  predicate WellFormed(pw: PrivateWitness, p: Policy) {
    && |pw.credentialSecrets| == |CredentialIds(p)|
    && forall k :: 0 <= k < |pw.credentialSecrets| ==> 1 <= |pw.credentialSecrets[k]| <= MAX_CREDENTIAL_SECRET_LEN
  }

  /** The digit witnesses match the amount and its distance to every cap of the policy. */
  predicate WithinCaps(pw: PrivateWitness, limits: seq<U64>) {
    forall k :: 0 <= k < |limits| ==> WithinCap(pw, limits[k])
  }

  predicate WithinCap(pw: PrivateWitness, limit: U64) {
    pw.amount <= limit && pw.amountBits == Digits(pw.amount, 64) && pw.differenceBits == Digits(limit - pw.amount, 64)
  }

  /** What the relation asks of a payment. */
  ghost predicate Authorized(st: PaymentStatement, pw: PrivateWitness, p: Policy) {
    && ValidPolicy(p) && PolicyId(p) == st.policyId && WellFormed(pw, p) && pw.amount == st.amount
    && WithinCaps(pw, Limits(p)) && Satisfied(p, PolicyWitness(pw, p)) && KeepsLimits(p)
  }

  /** What the first cap that fails, from the k-th on, is refused for. */
  function CapFault(pw: PrivateWitness, limits: seq<U64>, k: nat): Option<PaymentError>
    requires k <= |limits|
    decreases |limits| - k
  {
    if k == |limits| then None
    else if pw.amount > limits[k] then Some(AmountExceedsLimit)
    else if !WithinCap(pw, limits[k]) then Some(InvalidBitWitness)
    else CapFault(pw, limits, k + 1)
  }

  lemma {:induction false} NoCapFault(pw: PrivateWitness, limits: seq<U64>, k: nat)
    requires k <= |limits|
    ensures CapFault(pw, limits, k).None? <==> forall i :: k <= i < |limits| ==> WithinCap(pw, limits[i])
    decreases |limits| - k
  {
    hide Digits;
    if k < |limits| {
      NoCapFault(pw, limits, k + 1);
    }
  }

  /** The first thing wrong with a payment. */
  ghost function RelationFault(st: PaymentStatement, pw: PrivateWitness, p: Policy): Option<PaymentError> {
    if !ValidPolicy(p) then Some(PaymentError.InvalidPolicy)
    else if PolicyId(p) != st.policyId then Some(PolicyIdMismatch)
    else if |pw.credentialSecrets| != |CredentialIds(p)| then Some(WitnessCountMismatch)
    else if !WellFormed(pw, p) then Some(MalformedCredentialSecret)
    else if pw.amount != st.amount then Some(AmountMismatch)
    else if CapFault(pw, Limits(p), 0).Some? then CapFault(pw, Limits(p), 0)
    else if !Satisfied(p, PolicyWitness(pw, p)) then Some(PolicyNotSatisfied)
    else if !KeepsLimits(p) then Some(PaymentError.InvalidPolicy)
    else None
  }

  lemma NoRelationFault(st: PaymentStatement, pw: PrivateWitness, p: Policy)
    ensures RelationFault(st, pw, p).None? <==> Authorized(st, pw, p)
  {
    hide WellShaped, FitsDepth, Satisfied, KeepsLimits, CredentialIds, Limits, PolicyId, CapFault;
    NoCapFault(pw, Limits(p), 0);
  }

  /** One difference vector serves every cap: some private witness is within all caps of a policy
      exactly when they are one and the same and the amount is below it. */
  lemma CapsDecided(amount: U64, limits: seq<U64>)
    ensures (exists pw: PrivateWitness :: pw.amount == amount && WithinCaps(pw, limits)) <==>
            (forall k :: 0 <= k < |limits| ==> amount <= limits[k] == limits[0])
  {
    hide Digits;
    if pw: PrivateWitness :| pw.amount == amount && WithinCaps(pw, limits) {
      forall k | 0 <= k < |limits|
        ensures amount <= limits[k] == limits[0]
      {
        assert WithinCap(pw, limits[0]) && WithinCap(pw, limits[k]);
        SameDigits(limits[0] - amount, limits[k] - amount);
      }
    }
    if forall k :: 0 <= k < |limits| ==> amount <= limits[k] == limits[0] {
      var difference := if limits == [] then [] else Digits(limits[0] - amount, 64);
      var pw := PrivateWitness([], amount, Digits(amount, 64), difference);
      forall k | 0 <= k < |limits|
        ensures WithinCap(pw, limits[k])
      {
      }
      assert WithinCaps(pw, limits);
    }
  }

  lemma SameDigits(x: U64, y: U64)
    requires Digits(x, 64) == Digits(y, 64)
    ensures x == y
  {
    hide Digits;
    WordWidth();
    DigitsDenote(x, 64);
    DigitsDenote(y, 64);
  }

  /** So a disjunction of two caps between which the amount lies is satisfied, but no such payment is
      ever authorised. */
  lemma SatisfiedButRefused(low: U64, high: U64, w: Witness, st: PaymentStatement, pw: PrivateWitness)
    requires w.amount.Some? && low < w.amount.value <= high && pw.amount == w.amount.value
    ensures var p := Or([AmountAtMost(low), AmountAtMost(high)]);
            Satisfied(p, w) && !Authorized(st, pw, p)
  {
    hide Normalize, PolicyId, ValidPolicy, KeepsLimits, WellFormed;
    var ms := [AmountAtMost(low), AmountAtMost(high)];
    assert Satisfied(ms[1], w);
    LimitsOfPair(low, high);
    CapsDecided(pw.amount, [low, high]);
    var limits := [low, high];
    assert !WithinCap(pw, limits[0]);
  }

  lemma LimitsOfPair(low: U64, high: U64)
    ensures Limits(Or([AmountAtMost(low), AmountAtMost(high)])) == [low, high]
  {
    var ms := [AmountAtMost(low), AmountAtMost(high)];
    assert ms[..1][..0] == [] && LimitsOf([]) == [];
    assert LimitsOf(ms[..1]) == LimitsOf([]) + Limits(ms[0]);
    assert LimitsOf(ms) == LimitsOf(ms[..1]) + Limits(ms[1]);
  }

  lemma {:induction false} WitnessCovers(p: Policy, w: Witness)
    requires w.amount.Some? && forall k :: 0 <= k < |CredentialIds(p)| ==> w.SecretFor(CredentialIds(p)[k]).Some?
    ensures Covers(w, p)
    decreases p, 1
  {
    hide Witness.SecretFor;
    if p.Credential? {
      assert CredentialIds(p)[0] == p.id;
    } else if !p.IsLeaf() {
      assert CredentialIds(p) == CredentialIdsOf(p.members);
      WitnessCoversOf(p.members, w);
    }
  }

  lemma {:induction false} WitnessCoversOf(ms: seq<Policy>, w: Witness)
    requires w.amount.Some? && forall k :: 0 <= k < |CredentialIdsOf(ms)| ==> w.SecretFor(CredentialIdsOf(ms)[k]).Some?
    ensures forall i :: 0 <= i < |ms| ==> Covers(w, ms[i])
    decreases ms, 0
  {
    hide Witness.SecretFor, CredentialIds, Covers;
    if ms != [] {
      var (front, last) := (ms[..|ms| - 1], ms[|ms| - 1]);
      var (a, b) := (CredentialIdsOf(front), CredentialIds(last));
      assert CredentialIdsOf(ms) == a + b;
      forall k | 0 <= k < |a|
        ensures w.SecretFor(a[k]).Some?
      {
        assert (a + b)[k] == a[k];
      }
      forall k | 0 <= k < |b|
        ensures w.SecretFor(b[k]).Some?
      {
        assert (a + b)[|a| + k] == b[k];
      }
      WitnessCoversOf(front, w);
      WitnessCovers(last, w);
    }
  }

  lemma PairedCovers(pw: PrivateWitness, p: Policy)
    requires |pw.credentialSecrets| == |CredentialIds(p)|
    ensures Covers(PolicyWitness(pw, p), p)
  {
    hide Covers, CredentialIds;
    var w := PolicyWitness(pw, p);
    forall k | 0 <= k < |CredentialIds(p)|
      ensures w.SecretFor(CredentialIds(p)[k]).Some?
    {
      assert w.secrets[k].0 == CredentialIds(p)[k];
    }
    WitnessCovers(p, w);
  }

  // ---- the statement the verifier rebuilds -------------------------------------------------------------

  /** Public inputs, expected outputs and circuit id, all from public data. */
  function RebuiltStatement(c: CompiledPolicy, n: Policy, st: PaymentStatement): Statement
    requires c.circuit.outputs != []
  {
    Statement(CircuitIdOf(Bound(c)), PolicyPublics(n) + BindingValues(st),
              seq(c.rangeCheckOutputs, k => 0) + [Product(BindingValues(st))])
  }

  lemma RebuiltIsValid(c: CompiledPolicy, n: Policy, st: PaymentStatement)
    requires Implements(c, n)
    ensures c.circuit.outputs != [] && ValidStatement(RebuiltStatement(c, n, st), Bound(c))
  {
    BoundIsValid(c, n);
    PublicsCount(n);
    ImplementsSizes(c, n);
    hide Implements, PolicyPublics, ValidCircuit, BindingValues;
  }

  lemma ImplementsSizes(c: CompiledPolicy, n: Policy)
    requires Implements(c, n)
    ensures |c.circuit.outputs| == c.rangeCheckOutputs + 1 && c.publicSlots == PublicSlots(n, 0)
    ensures c.circuit.numPublicInputs == Publics(n) && c.circuit.numSecretInputs == Secrets(n)
  {
    hide At, AtAll, Wire, Discriminants, AuxPositions, ValidCircuit;
  }

  /** On inputs built for a satisfied policy the bound circuit outputs exactly what the verifier
      expects: zeros for the constraints, and the binding product. */
  lemma HonestOutputs(c: CompiledPolicy, n: Policy, w: Witness, x: Inputs, st: PaymentStatement)
    requires Wide() && Implements(c, n) && ValidPolicy(n) && BuiltFor(n, w, x) && FieldSatisfied(n, w)
    ensures OutputsDefined(Bound(c))
    ensures Outputs(Bound(c), x.secrets, x.publics + BindingValues(st)) == RebuiltStatement(c, n, st).expectedOutputs
  {
    hide Implements, Wire, At, FieldSatisfied, WellShaped, ValidCircuit, Mul, Product, BindingValues, Discriminants, AuxPositions, ConstraintsZero, BuiltFor;
    BoundIsValid(c, n);
    ValidOutputs(Bound(c));
    OutputsRead(c, n, x);
    BuiltIsExact(n, w, x);
    ReadyToSolve(c, n);
    BuiltSizes(n, w, x);
    var b := BindingValues(st);
    BoundValues(c, x.secrets, x.publics, b);
    BoundRootDecides(1, Product(b));
    var outs := Outputs(Bound(c), x.secrets, x.publics + b);
    var last := c.rangeCheckOutputs;
    forall k | 0 <= k < |outs|
      ensures outs[k] == if k < last then 0 else Product(b)
    {
      assert outs[k] == At(Bound(c).nodes, Inputs(x.secrets, x.publics + b), Bound(c).outputs[k]) by { OutputAt(Bound(c), Inputs(x.secrets, x.publics + b), k); }
    }
  }

  lemma ValidOutputs(c: Circuit)
    requires ValidCircuit(c)
    ensures OutputsDefined(c)
  {
  }

  lemma BuiltSizes(n: Policy, w: Witness, x: Inputs)
    requires BuiltFor(n, w, x)
    ensures |x.publics| == Publics(n) && |x.secrets| == Secrets(n)
  {
    hide Filled, Solved, Discriminants, AuxPositions;
  }

  lemma OutputAt(c: Circuit, x: Inputs, k: nat)
    requires OutputsDefined(c) && k < |c.outputs|
    ensures Outputs(c, x.secrets, x.publics)[k] == At(c.nodes, x, c.outputs[k])
  {
  }

  // ---- the two pipelines -------------------------------------------------------------------------------

  /** A policy with its compilation. The compiler is deterministic and both pipelines compile the
      same policy, so the result is kept here instead of being recomputed in every call. */
  class PaymentPolicy {
    const policy: Policy
    const compiled: Result<CompiledPolicy, PolicyError>

    ghost predicate Valid() {
      && (compiled.Ok? <==> ValidPolicy(Normalize(policy)))
      && (compiled.Ok? ==> Implements(compiled.value, Normalize(policy)))
    }

    constructor (policy: Policy)
      ensures Valid() && this.policy == policy
    {
      hide Implements, Normalize, WellShaped;
      this.policy := policy;
      var c := CompileWithLayout(policy);
      this.compiled := c;
    }

    ghost predicate BindingMatches(st: PaymentStatement) {
      && st.protocolVersion == PROTOCOL_VERSION && st.policyId == PolicyId(policy)
      && compiled.Ok? && compiled.value.circuit.outputs != [] && st.circuitId == CircuitIdOf(Bound(compiled.value))
    }

    /** What a statement that does not name this pipeline is refused for. */
    ghost function BindingFault(st: PaymentStatement): PaymentError {
      if st.protocolVersion != PROTOCOL_VERSION then StatementMismatch
      else if st.policyId != PolicyId(policy) then PolicyIdMismatch
      else if compiled.Err? then PaymentError.InvalidPolicy
      else StatementMismatch
    }

    /** The statement names this pipeline, and the proof layer accepts the proof for the statement
        rebuilt from it. */
    ghost predicate Accepted(st: PaymentStatement, proof: NonInteractiveProof) {
      && BindingMatches(st)
      && Accepts(Bound(compiled.value), RebuiltStatement(compiled.value, Normalize(policy), st), proof)
    }

    method CheckStatementBinding(st: PaymentStatement) returns (r: Result<Circuit, PaymentError>)
      requires Valid()
      ensures r.Ok? <==> BindingMatches(st)
      ensures r.Ok? ==> r.value == Bound(compiled.value)
      ensures r.Err? ==> r.error == BindingFault(st)
    {
      hide Implements, Normalize, KeepsLimits, CredentialIds, WellShaped, ValidCircuit;
      if st.protocolVersion != PROTOCOL_VERSION {
        return Err(StatementMismatch);
      }
      var n := NormalizeNode(policy);
      var encoded := PolicyEncoding.EncodePolicy(n);
      if PolicyIdOf(encoded) != st.policyId {
        return Err(PolicyIdMismatch);
      }
      if compiled.Err? {
        return Err(InvalidPolicy);
      }
      BoundIsValid(compiled.value, Normalize(policy));
      var bound := BindStatement(compiled.value);
      if CircuitIdOf(bound.value) != st.circuitId {
        return Err(StatementMismatch);
      }
      return Ok(bound.value);
    }

    method ToPolicyWitness(pw: PrivateWitness) returns (r: Result<Witness, PaymentError>)
      ensures r.Ok? <==> WellFormed(pw, policy)
      ensures r.Ok? ==> r.value == PolicyWitness(pw, policy)
      ensures r.Err? ==> r.error == if |pw.credentialSecrets| != |CredentialIds(policy)| then WitnessCountMismatch
                                    else MalformedCredentialSecret
    {
      hide CredentialIds;
      var ids := CollectIds(policy);
      if |pw.credentialSecrets| != |ids| {
        return Err(WitnessCountMismatch);
      }
      for k := 0 to |pw.credentialSecrets|
        invariant forall j :: 0 <= j < k ==> 1 <= |pw.credentialSecrets[j]| <= MAX_CREDENTIAL_SECRET_LEN
      {
        if pw.credentialSecrets[k] == [] || |pw.credentialSecrets[k]| > MAX_CREDENTIAL_SECRET_LEN {
          return Err(MalformedCredentialSecret);
        }
      }
      return Ok(Witness(Paired(ids, pw.credentialSecrets), Some(pw.amount)));
    }

    method CheckCaps(pw: PrivateWitness) returns (r: Result<(), PaymentError>)
      ensures r == match CapFault(pw, Limits(policy), 0) case None => Ok(()) case Some(fault) => Err(fault)
    {
      hide Limits, Digits;
      var limits := CollectLimits(policy);
      var amountBits := Decompose(pw.amount);
      for k := 0 to |limits|
        invariant CapFault(pw, limits, k) == CapFault(pw, limits, 0)
      {
        if pw.amount > limits[k] {
          return Err(AmountExceedsLimit);
        }
        var differenceBits := Decompose(limits[k] - pw.amount);
        if pw.amountBits != amountBits || pw.differenceBits != differenceBits {
          return Err(InvalidBitWitness);
        }
      }
      return Ok(());
    }

    /** The reference relation. Its last check, that the compiled circuit agrees with the evaluator,
        never refuses a payment the other checks admit. */
    method ValidateRelation(st: PaymentStatement, pw: PrivateWitness) returns (r: Result<(), PaymentError>)
      requires Valid() && Wide()
      ensures r.Ok? <==> Authorized(st, pw, policy)
      ensures r.Err? ==> RelationFault(st, pw, policy) == Some(r.error)
    {
      NoRelationFault(st, pw, policy);
      hide CapFault, Implements, Normalize, KeepsLimits, CredentialIds, WellShaped, FitsDepth, Satisfied, FieldSatisfied, Covers, CountsFit, CredentialsCovered, WithinCaps;
      var shaped := PolicyValidation.Validate(policy);
      if shaped.Err? {
        return Err(InvalidPolicy);
      }
      var n := NormalizeNode(policy);
      var encoded := PolicyEncoding.EncodePolicy(n);
      if PolicyIdOf(encoded) != st.policyId {
        return Err(PolicyIdMismatch);
      }
      var witness' := ToPolicyWitness(pw);
      if witness'.Err? {
        return Err(witness'.error);
      }
      if pw.amount != st.amount {
        return Err(AmountMismatch);
      }
      var caps := CheckCaps(pw);
      if caps.Err? {
        return Err(caps.error);
      }
      PairedCovers(pw, policy);
      var evaluated := Evaluate(policy, witness'.value);
      if evaluated.Err? {
        return Err(InvalidPolicy);
      }
      if !evaluated.value.authorized {
        return Err(PolicyNotSatisfied);
      }
      NormalizingKeepsValidity(policy);
      if compiled.Err? {
        return Err(InvalidPolicy);
      }
      ReadyToSolve(compiled.value, n);
      ValidPolicyFits(policy);
      CompilationPreservesMeaning(policy, witness'.value);
      var agreed := ReferenceEvaluate(compiled.value, Normalize(policy), policy, witness'.value);
      if agreed.Err? || !agreed.value {
        return Err(InvalidPolicy);
      }
      return Ok(());
    }

    /** Authorisation succeeds exactly when the statement names this pipeline and the relation holds,
        and the proof it returns is one the verifier accepts for the statement it rebuilds. */
    method AuthorizePayment(st: PaymentStatement, pw: PrivateWitness, rng: Tape, blockRng: MpcithProver.BlockTape)
      returns (r: Result<NonInteractiveProof, PaymentError>)
      requires Valid() && Wide()
      modifies rng, blockRng
      ensures r.Ok? <==> BindingMatches(st) && Authorized(st, pw, policy)
      ensures r.Ok? ==> Accepted(st, r.value) && |r.value.repetitions| == 12
      ensures r.Err? ==> if BindingMatches(st) then RelationFault(st, pw, policy) == Some(r.error) else r.error == BindingFault(st)
    {
      hide Implements, Normalize, KeepsLimits, CredentialIds, WellShaped, FitsDepth, Satisfied, FieldSatisfied, Covers, CountsFit, CredentialsCovered, WithinCaps, Accepts, OutputsRight, ValidStatement, BuiltFor, Outputs, OutputsDefined, PolicyPublics, Bound, ValidCircuit, BindingValues, CircuitIdOf, PolicyId;
      var bound := CheckStatementBinding(st);
      if bound.Err? {
        return Err(bound.error);
      }
      var related := ValidateRelation(st, pw);
      if related.Err? {
        return Err(related.error);
      }
      var c := compiled.value;
      ghost var n := Normalize(policy);
      var inputs, fsStatement := BindInputs(st, pw, bound.value);
      RebuiltIsValid(c, n, st);
      var proof := Prove(bound.value, fsStatement, inputs.secrets, AUTHORIZATION_REPETITIONS, rng, blockRng);
      if proof.Err? {
        return Err(ProofGenerationFailed);
      }
      return Ok(proof.value);
    }

    /** The prover's inputs and its statement, which is the statement the verifier rebuilds. */
    method BindInputs(st: PaymentStatement, pw: PrivateWitness, bound: Circuit) returns (x: Inputs, s: Statement)
      requires Valid() && Wide() && compiled.Ok? && Authorized(st, pw, policy)
      requires compiled.value.circuit.outputs != [] && bound == Bound(compiled.value)
      ensures s == RebuiltStatement(compiled.value, Normalize(policy), st)
      ensures |x.secrets| == bound.numSecretInputs
      ensures ValidStatement(s, bound) && OutputsRight(bound, s, x.secrets, 0)
    {
      hide Implements, Normalize, KeepsLimits, CredentialIds, WellShaped, FitsDepth, Satisfied, FieldSatisfied, Covers, CountsFit, CredentialsCovered, WithinCaps, BuiltFor, ValidCircuit, BindingValues, PolicyPublics, Outputs, OutputsRight;
      var c := compiled.value;
      ghost var n := Normalize(policy);
      var witness' := ToPolicyWitness(pw);
      PairedCovers(pw, policy);
      ReadyToSolve(c, n);
      ValidPolicyFits(policy);
      CompilationPreservesMeaning(policy, witness'.value);
      var inputs := BuildInputs(c, n, policy, witness'.value);
      x := inputs.value;
      var publics := x.publics + BindingValues(st);
      BoundIsValid(c, n);
      ImplementsSizes(c, n);
      BuiltSizes(n, witness'.value, x);
      PublicsRebuilt(n, witness'.value, x);
      HonestOutputs(c, n, witness'.value, x, st);
      var outputs := EvaluateReference(bound, x.secrets, publics);
      s := Statement(CircuitIdOf(bound), publics, outputs.value);
      RebuiltIsValid(c, n, st);
      ReferenceIsRight(bound, s, x.secrets);
    }

    /** Verification accepts exactly the proofs the proof layer accepts for the rebuilt statement. */
    method VerifyPaymentAuthorization(st: PaymentStatement, proof: NonInteractiveProof) returns (r: Result<bool, PaymentError>)
      requires Valid()
      ensures r == Ok(true) <==> Accepted(st, proof)
      ensures r.Err? && !BindingMatches(st) ==> r.error == BindingFault(st)
      ensures r.Err? && BindingMatches(st) ==>
                var fault := ProofFault(Bound(compiled.value), RebuiltStatement(compiled.value, Normalize(policy), st), proof);
                && fault.Some?
                && r.error == if proof.statement.circuitId != st.circuitId || fault.value.InvalidStatement?
                              then StatementMismatch else ProofRejected
      ensures r != Ok(false)
    {
      hide Implements, Normalize, KeepsLimits, CredentialIds, WellShaped, FitsDepth, MpcithVerifier.Verdict, PolicyPublics, ValidCircuit, BindingValues, Product, PublicSlots;
      var bound := CheckStatementBinding(st);
      if bound.Err? {
        return Err(bound.error);
      }
      var c := compiled.value;
      ghost var n := Normalize(policy);
      NoFaultMeansAccepted(bound.value, RebuiltStatement(c, n, st), proof);
      if proof.statement.circuitId != CircuitIdOf(bound.value) {
        return Err(StatementMismatch);
      }
      var normalized := NormalizeNode(policy);
      ImplementsSizes(c, n);
      var publics := PolicyPublicInputs(c, normalized);
      var product := BindingProduct(st);
      var fsStatement := Statement(CircuitIdOf(bound.value), publics.value + BindingValues(st),
                                   seq(c.rangeCheckOutputs, k => 0) + [product]);
      var verified := Verify(bound.value, fsStatement, proof);
      if verified.Err? {
        return Err(if verified.error.InvalidStatement? then StatementMismatch else ProofRejected);
      }
      return Ok(true);
    }

    method BindingProduct(st: PaymentStatement) returns (product: Elem)
      ensures product == Product(BindingValues(st))
    {
      hide Mul, BindingValues;
      var values := BindingValues(st);
      product := 1;
      for k := 0 to |values|
        invariant product == Product(values[..k])
      {
        product := Mul(product, values[k]);
        assert values[..k + 1][..k] == values[..k];
      }
      assert values[..|values|] == values;
    }

    /** End to end: an authorised payment verifies. */
    method AuthorizeThenVerify(st: PaymentStatement, pw: PrivateWitness, rng: Tape, blockRng: MpcithProver.BlockTape)
      returns (authorized: bool, verified: bool)
      requires Valid() && Wide()
      modifies rng, blockRng
      ensures authorized <==> BindingMatches(st) && Authorized(st, pw, policy)
      ensures authorized ==> verified
    {
      hide *;
      var proof := AuthorizePayment(st, pw, rng, blockRng);
      if proof.Err? {
        return false, false;
      }
      var checked := VerifyPaymentAuthorization(st, proof.value);
      return true, checked == Ok(true);
    }
  }

  lemma ReferenceIsRight(c: Circuit, s: Statement, secrets: seq<Elem>)
    requires ValidStatement(s, c) && s.expectedOutputs == Outputs(c, secrets, s.publicInputs)
    ensures OutputsRight(c, s, secrets, 0)
  {
    hide Value, Shared;
  }
}
