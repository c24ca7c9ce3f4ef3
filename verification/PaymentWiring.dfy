/** Payment data on the compiled circuit: the statement is bound into the root, and the public
    inputs are rebuilt from the policy alone. */
module PaymentWiring {
  import opened Wrappers
  import opened PrimeField
  import opened BigEndian
  import opened DigestField
  import opened Circuits
  import opened CircuitGates
  import opened Policies
  import PolicyValidation
  import opened PolicyWires
  import opened PolicyCompiler
  import opened PolicyInputs
  import opened MpcithProof

  datatype PaymentError =
    | InvalidPolicy | PolicyIdMismatch | StatementMismatch | WitnessCountMismatch | MalformedCredentialSecret
    | AmountMismatch | AmountExceedsLimit | InvalidBitWitness | PolicyNotSatisfied
    | ProofGenerationFailed | ProofRejected

  datatype PaymentStatement = PaymentStatement(
    paymentId: Digest,
    amount: U64,
    recipientCommitment: Digest,
    policyId: Digest,
    circuitId: Digest,
    protocolVersion: Byte,
    nonce: Digest)

  const BINDING_SLOTS: nat := 4

  /** The public values that tie a proof to its payment. */
  function BindingValues(st: PaymentStatement): (b: seq<Elem>)
    ensures |b| == BINDING_SLOTS
  {
    [Fe(st.amount), DigestToField(st.recipientCommitment), DigestToField(st.nonce), DigestToField(st.paymentId)]
  }

  function Product(b: seq<Elem>): Elem {
    if b == [] then 1 else Mul(Product(b[..|b| - 1]), b[|b| - 1])
  }

  // ---- binding the statement into the circuit ----------------------------------------------------------

  /** The bound circuit: four public leaves, their product, and the root times that product. */
  function Bound(c: CompiledPolicy): Circuit
    requires c.circuit.outputs != []
  {
    var (n, outputs) := (|c.circuit.nodes|, c.circuit.outputs);
    Circuit(c.circuit.nodes + [PublicInput, PublicInput, PublicInput, PublicInput]
            + [MulGate(n, n + 1), MulGate(n + 4, n + 2), MulGate(n + 5, n + 3), MulGate(outputs[|outputs| - 1], n + 6)],
            c.circuit.numSecretInputs, c.circuit.numPublicInputs + BINDING_SLOTS, outputs[|outputs| - 1 := n + 7])
  }

  method BindStatement(c: CompiledPolicy) returns (r: Result<Circuit, PaymentError>)
    ensures c.circuit.outputs == [] ==> r == Err(InvalidPolicy)
    ensures c.circuit.outputs != [] ==> r == if ValidCircuit(Bound(c)) then Ok(Bound(c)) else Err(InvalidPolicy)
  {
    hide ValidCircuit;
    var nodes := c.circuit.nodes;
    var leaves: seq<NodeId> := [];
    for i := 0 to BINDING_SLOTS
      invariant nodes == c.circuit.nodes + seq(i, k => PublicInput)
      invariant leaves == seq(i, k requires k >= 0 => |c.circuit.nodes| + k)
    {
      leaves := leaves + [|nodes|];
      nodes := nodes + [PublicInput];
    }
    assert nodes == c.circuit.nodes + [PublicInput, PublicInput, PublicInput, PublicInput];
    ghost var n := |c.circuit.nodes|;
    var product := leaves[0];
    for i := 1 to BINDING_SLOTS
      invariant product == if i == 1 then n else n + 2 + i
      invariant nodes == c.circuit.nodes + [PublicInput, PublicInput, PublicInput, PublicInput]
                         + [MulGate(n, n + 1), MulGate(n + 4, n + 2), MulGate(n + 5, n + 3)][..i - 1]
    {
      var id := |nodes|;
      nodes := nodes + [MulGate(product, leaves[i])];
      product := id;
    }
    if c.circuit.outputs == [] {
      return Err(InvalidPolicy);
    }
    var oldRoot := c.circuit.outputs[|c.circuit.outputs| - 1];
    var final := |nodes|;
    nodes := nodes + [MulGate(oldRoot, product)];
    var bound := Circuit(nodes, c.circuit.numSecretInputs, c.circuit.numPublicInputs + BINDING_SLOTS,
                         c.circuit.outputs[|c.circuit.outputs| - 1 := final]);
    assert bound == Bound(c);
    var validated := Validate(bound);
    if validated.Err? {
      return Err(InvalidPolicy);
    }
    return Ok(bound);
  }

  /** Binding keeps the circuit valid and every output dependent on a secret. */
  lemma BoundIsValid(c: CompiledPolicy, n: Policy)
    requires Implements(c, n)
    ensures c.circuit.outputs != [] && ValidCircuit(Bound(c))
    ensures forall j :: 0 <= j < |Bound(c).outputs| ==> Shared(Bound(c).nodes, Bound(c).outputs[j])
  {
    hide At, AtAll, Wire, Discriminants, AuxPositions, SecretSlots, PublicSlots;
    BindingStructure(c);
    BindingSharing(c);
  }

  lemma BindingStructure(c: CompiledPolicy)
    requires ValidCircuit(c.circuit)
    ensures ValidCircuit(Bound(c))
    ensures var (bound, m, n) := (Bound(c).nodes, |c.circuit.nodes|, c.circuit.numPublicInputs);
            && PublicsBefore(bound, m) == n && PublicsBefore(bound, m + 1) == n + 1
            && PublicsBefore(bound, m + 2) == n + 2 && PublicsBefore(bound, m + 3) == n + 3
  {
    BoundOrder(c);
    BoundNodes(c);
    hide PublicsBefore, SecretsBefore, TopologicalOrder;
    var (base, bound, m) := (c.circuit.nodes, Bound(c).nodes, |c.circuit.nodes|);
    CountsOfPrefix(base, bound, m);
    PublicLeaf(bound, m);
    PublicLeaf(bound, m + 1);
    PublicLeaf(bound, m + 2);
    PublicLeaf(bound, m + 3);
    GatesCountNothing(bound, m + 4, m + 8);
    SecretsOfPublics(bound, m, m + 4);
  }

  lemma BoundNodes(c: CompiledPolicy)
    requires c.circuit.outputs != []
    ensures var (bound, m) := (Bound(c).nodes, |c.circuit.nodes|);
            && |bound| == m + 8 && bound[..m] == c.circuit.nodes && (forall k :: m <= k < m + 4 ==> bound[k] == PublicInput)
            && (forall k :: m + 4 <= k < m + 8 ==> bound[k].IsGate())
  {
  }

  lemma BoundOrder(c: CompiledPolicy)
    requires ValidCircuit(c.circuit)
    ensures TopologicalOrder(Bound(c).nodes)
  {
    hide PublicsBefore, SecretsBefore;
    var (base, bound, m) := (c.circuit.nodes, Bound(c).nodes, |c.circuit.nodes|);
    forall i | 0 <= i < |bound|
      ensures OperandsBefore(bound[i], i)
    {
      if i < m {
        assert bound[i] == base[i] && OperandsBefore(base[i], i);
      }
    }
  }

  lemma PublicLeaf(nodes: seq<Node>, i: nat)
    requires i < |nodes| && nodes[i] == PublicInput
    ensures PublicsBefore(nodes, i + 1) == PublicsBefore(nodes, i) + 1
  {
  }

  lemma {:induction false} GatesCountNothing(nodes: seq<Node>, i: nat, j: nat)
    requires i <= j <= |nodes| && forall k :: i <= k < j ==> nodes[k].IsGate()
    ensures PublicsBefore(nodes, j) == PublicsBefore(nodes, i) && SecretsBefore(nodes, j) == SecretsBefore(nodes, i)
    decreases j - i
  {
    if i < j {
      GatesCountNothing(nodes, i, j - 1);
    }
  }

  lemma {:induction false} SecretsOfPublics(nodes: seq<Node>, i: nat, j: nat)
    requires i <= j <= |nodes| && forall k :: i <= k < j ==> nodes[k].PublicInput?
    ensures SecretsBefore(nodes, j) == SecretsBefore(nodes, i)
    decreases j - i
  {
    if i < j {
      SecretsOfPublics(nodes, i, j - 1);
    }
  }

  lemma BindingSharing(c: CompiledPolicy)
    requires ValidCircuit(c.circuit)
    requires forall j :: 0 <= j < |c.circuit.outputs| ==> Shared(c.circuit.nodes, c.circuit.outputs[j])
    ensures forall j :: 0 <= j < |Bound(c).outputs| ==> Bound(c).outputs[j] < |Bound(c).nodes| && Shared(Bound(c).nodes, Bound(c).outputs[j])
  {
    var (bound, outputs) := (Bound(c), c.circuit.outputs);
    forall j | 0 <= j < |outputs|
      ensures outputs[j] < |bound.nodes| && Shared(bound.nodes, outputs[j])
    {
      AppendingKeepsSharing(c.circuit.nodes, bound.nodes, outputs[j]);
    }
    var last := |c.circuit.nodes| + 7;
    assert bound.nodes[last] == MulGate(outputs[|outputs| - 1], last - 1);
    assert OperandShared(bound.nodes, last, outputs[|outputs| - 1]);
  }

  /** More public inputs than a circuit declares change none of its values. */
  lemma {:induction false} SurplusPublics(nodes: seq<Node>, secrets: seq<Elem>, publics: seq<Elem>, more: seq<Elem>, i: NodeId)
    requires i < |nodes| && PublicsBefore(nodes, i + 1) <= |publics|
    ensures Value(nodes, secrets, publics + more, i) == Value(nodes, secrets, publics, i)
    decreases i
  {
    hide Add, Mul;
    if nodes[i].IsGate() {
      if nodes[i].a < i {
        CountsMonotone(nodes, nodes[i].a + 1, i + 1);
        SurplusPublics(nodes, secrets, publics, more, nodes[i].a);
      }
      if nodes[i].b < i {
        CountsMonotone(nodes, nodes[i].b + 1, i + 1);
        SurplusPublics(nodes, secrets, publics, more, nodes[i].b);
      }
    }
  }

  /** The bound circuit computes what the policy circuit computes, and its last output is the root
      wire times the product of the binding values. */
  lemma BoundValues(c: CompiledPolicy, secrets: seq<Elem>, publics: seq<Elem>, b: seq<Elem>)
    requires ValidCircuit(c.circuit) && |publics| == c.circuit.numPublicInputs && |b| == BINDING_SLOTS
    ensures var (bound, x, y) := (Bound(c), Inputs(secrets, publics + b), Inputs(secrets, publics));
            var last := |c.circuit.outputs| - 1;
            && (forall i :: 0 <= i < |c.circuit.nodes| ==> At(bound.nodes, x, i) == At(c.circuit.nodes, y, i))
            && At(bound.nodes, x, bound.outputs[last]) == Mul(At(c.circuit.nodes, y, c.circuit.outputs[last]), Product(b))
  {
    hide Mul, Value, Product;
    var (base, bound, x, y) := (c.circuit.nodes, Bound(c).nodes, Inputs(secrets, publics + b), Inputs(secrets, publics));
    forall i | 0 <= i < |base|
      ensures At(bound, x, i) == At(base, y, i)
    {
      AppendingKeepsValues(base, bound, x.secrets, x.publics, i);
      CountsMonotone(base, i + 1, |base|);
      SurplusPublics(base, secrets, publics, b, i);
    }
    BindingLeaves(c, x, b);
    var m := |base|;
    GateAt(bound, x, m + 4);
    GateAt(bound, x, m + 5);
    GateAt(bound, x, m + 6);
    GateAt(bound, x, m + 7);
    ProductOfFour(b);
  }

  lemma BindingLeaves(c: CompiledPolicy, x: Inputs, b: seq<Elem>)
    requires ValidCircuit(c.circuit) && |b| == BINDING_SLOTS
    requires |x.publics| == c.circuit.numPublicInputs + BINDING_SLOTS && x.publics[c.circuit.numPublicInputs..] == b
    ensures forall k :: 0 <= k < 4 ==> At(Bound(c).nodes, x, |c.circuit.nodes| + k) == b[k]
  {
    BindingStructure(c);
    forall k | 0 <= k < 4
      ensures At(Bound(c).nodes, x, |c.circuit.nodes| + k) == b[k]
    {
      assert Bound(c).nodes[|c.circuit.nodes| + k] == PublicInput;
      assert b[k] == x.publics[c.circuit.numPublicInputs + k];
    }
  }

  lemma ProductOfFour(b: seq<Elem>)
    requires |b| == 4
    ensures Product(b) == Mul(Mul(Mul(b[0], b[1]), b[2]), b[3])
  {
    hide Mul, Fe;
    FeOf(1);
    MulLaws(b[0], 0, 0);
    assert b[..3][..2] == b[..2] && b[..2][..1] == b[..1] && b[..1][..0] == [];
    assert Product(b[..1]) == Mul(Product([]), b[0]);
    assert Product(b[..2]) == Mul(Product(b[..1]), b[1]);
    assert Product(b[..3]) == Mul(Product(b[..2]), b[2]);
  }

  /** For a non-zero product the bound root equals it exactly when the policy root is one; a zero
      product is matched by every root. */
  lemma BoundRootDecides(root: Elem, product: Elem)
    ensures Mul(root, product) == product <==> root == 1 || product == 0
  {
    hide Mul, Sub, Fe;
    FeOf(1);
    MulLaws(root, 1, product);
    MulLaws(product, 0, 0);
    MulLaws(1, product, 0);
    SubZero(root, 1);
    SubZero(Mul(root, product), Mul(1, product));
    ZeroProduct(Sub(root, 1), product);
  }

  /** The product of the binding values vanishes exactly when one of them does: a zero amount, or a
      digest that is a multiple of p. */
  lemma {:induction false} ProductVanishes(b: seq<Elem>)
    ensures Product(b) == 0 <==> exists k :: 0 <= k < |b| && b[k] == 0
  {
    hide Mul;
    if b != [] {
      var n := |b| - 1;
      ProductVanishes(b[..n]);
      ZeroProduct(Product(b[..n]), b[n]);
      assert forall k :: 0 <= k < n ==> b[..n][k] == b[k];
    }
  }

  // ---- the public inputs, from the policy alone --------------------------------------------------------

  function Limits(p: Policy): seq<U64>
    decreases p, 1
  {
    match p
    case Credential(_) => []
    case AmountAtMost(limit) => [limit]
    case _ => LimitsOf(p.members)
  }

  function LimitsOf(ms: seq<Policy>): seq<U64>
    decreases ms, 0
  {
    if ms == [] then [] else LimitsOf(ms[..|ms| - 1]) + Limits(ms[|ms| - 1])
  }

  /** The public inputs of a policy in slot order. */
  function PolicyPublics(p: Policy): seq<Elem>
    decreases p, 1
  {
    match p
    case Credential(id) => [DigestToField(id)]
    case AmountAtMost(limit) => [Fe(limit)]
    case _ => PolicyPublicsOf(p.members)
  }

  function PolicyPublicsOf(ms: seq<Policy>): seq<Elem>
    decreases ms, 0
  {
    if ms == [] then [] else PolicyPublicsOf(ms[..|ms| - 1]) + PolicyPublics(ms[|ms| - 1])
  }

  method CollectIds(p: Policy) returns (ids: seq<CredentialId>)
    ensures ids == CredentialIds(p)
    decreases p
  {
    match p {
      case Credential(id) =>
        ids := [id];
      case AmountAtMost(_) =>
        ids := [];
      case _ =>
        ids := [];
        for i := 0 to |p.members|
          invariant ids == CredentialIdsOf(p.members[..i])
        {
          var more := CollectIds(p.members[i]);
          ids := ids + more;
          assert p.members[..i + 1][..i] == p.members[..i];
        }
        assert p.members[..|p.members|] == p.members;
    }
  }

  method CollectLimits(p: Policy) returns (limits: seq<U64>)
    ensures limits == Limits(p)
    decreases p
  {
    match p {
      case Credential(_) =>
        limits := [];
      case AmountAtMost(limit) =>
        limits := [limit];
      case _ =>
        limits := [];
        for i := 0 to |p.members|
          invariant limits == LimitsOf(p.members[..i])
        {
          var more := CollectLimits(p.members[i]);
          limits := limits + more;
          assert p.members[..i + 1][..i] == p.members[..i];
        }
        assert p.members[..|p.members|] == p.members;
    }
  }

  /** Filling slots from two queues: every credential slot takes the next id, every limit slot the
      next limit. */
  function Dealt(slots: seq<PublicSlot>, ids: seq<CredentialId>, limits: seq<U64>): Option<seq<Elem>> {
    if slots == [] then Some([])
    else if slots[0].AmountLimitSlot? then
      if limits == [] then None
      else match Dealt(slots[1..], ids, limits[1..]) case None => None case Some(vs) => Some([Fe(limits[0])] + vs)
    else
      if ids == [] then None
      else match Dealt(slots[1..], ids[1..], limits) case None => None case Some(vs) => Some([DigestToField(ids[0])] + vs)
  }

  /** The queues run out exactly with the slots, and hand every leaf its own value. */
  lemma {:induction false} DealtPolicy(p: Policy, c: nat, slots: seq<PublicSlot>, ids: seq<CredentialId>, limits: seq<U64>)
    ensures Dealt(PublicSlots(p, c) + slots, CredentialIds(p) + ids, Limits(p) + limits) ==
              match Dealt(slots, ids, limits) case None => None case Some(vs) => Some(PolicyPublics(p) + vs)
    decreases p, 1
  {
    hide DigestToField, Fe;
    match p {
      case Credential(id) =>
        assert (PublicSlots(p, c) + slots)[1..] == slots && (CredentialIds(p) + ids)[1..] == ids && Limits(p) + limits == limits;
      case AmountAtMost(limit) =>
        assert (PublicSlots(p, c) + slots)[1..] == slots && (Limits(p) + limits)[1..] == limits && CredentialIds(p) + ids == ids;
      case _ =>
        DealtPolicyOf(p.members, c, slots, ids, limits);
    }
  }

  lemma {:induction false} DealtPolicyOf(ms: seq<Policy>, c: nat, slots: seq<PublicSlot>, ids: seq<CredentialId>, limits: seq<U64>)
    ensures Dealt(PublicSlotsOf(ms, c) + slots, CredentialIdsOf(ms) + ids, LimitsOf(ms) + limits) ==
              match Dealt(slots, ids, limits) case None => None case Some(vs) => Some(PolicyPublicsOf(ms) + vs)
    decreases ms, 0
  {
    hide Dealt, PublicSlots, CredentialIds, Limits, PolicyPublics;
    if ms == [] {
      assert PublicSlotsOf(ms, c) + slots == slots && CredentialIdsOf(ms) + ids == ids && LimitsOf(ms) + limits == limits;
      match Dealt(slots, ids, limits) {
        case None =>
        case Some(vs) =>
          assert PolicyPublicsOf(ms) + vs == vs;
      }
    } else {
      var (front, last) := (ms[..|ms| - 1], ms[|ms| - 1]);
      var c' := c + PolicyValidation.CredentialsOf(front);
      DealtPolicy(last, c', slots, ids, limits);
      DealtPolicyOf(front, c, PublicSlots(last, c') + slots, CredentialIds(last) + ids, Limits(last) + limits);
      QueuesSplit(ms, c, slots, ids, limits);
      match Dealt(slots, ids, limits) {
        case None =>
        case Some(vs) =>
          Associate(PolicyPublicsOf(front), PolicyPublics(last), vs);
      }
    }
  }

  lemma QueuesSplit(ms: seq<Policy>, c: nat, slots: seq<PublicSlot>, ids: seq<CredentialId>, limits: seq<U64>)
    requires ms != []
    ensures var (front, last) := (ms[..|ms| - 1], ms[|ms| - 1]);
            var c' := c + PolicyValidation.CredentialsOf(front);
            && PublicSlotsOf(ms, c) + slots == PublicSlotsOf(front, c) + (PublicSlots(last, c') + slots)
            && CredentialIdsOf(ms) + ids == CredentialIdsOf(front) + (CredentialIds(last) + ids)
            && LimitsOf(ms) + limits == LimitsOf(front) + (Limits(last) + limits)
  {
    hide *;
    SlotsUnfold(ms, c);
    IdsUnfold(ms);
    LimitsUnfold(ms);
    var (front, last) := (ms[..|ms| - 1], ms[|ms| - 1]);
    Associate(PublicSlotsOf(front, c), PublicSlots(last, c + PolicyValidation.CredentialsOf(front)), slots);
    Associate(CredentialIdsOf(front), CredentialIds(last), ids);
    Associate(LimitsOf(front), Limits(last), limits);
  }

  lemma SlotsUnfold(ms: seq<Policy>, c: nat)
    requires ms != []
    ensures var (front, last) := (ms[..|ms| - 1], ms[|ms| - 1]);
            PublicSlotsOf(ms, c) == PublicSlotsOf(front, c) + PublicSlots(last, c + PolicyValidation.CredentialsOf(front))
  {
    hide PublicSlots, PolicyValidation.CredentialsOf;
  }

  lemma IdsUnfold(ms: seq<Policy>)
    requires ms != []
    ensures CredentialIdsOf(ms) == CredentialIdsOf(ms[..|ms| - 1]) + CredentialIds(ms[|ms| - 1])
  {
    hide CredentialIds;
  }

  lemma LimitsUnfold(ms: seq<Policy>)
    requires ms != []
    ensures LimitsOf(ms) == LimitsOf(ms[..|ms| - 1]) + Limits(ms[|ms| - 1])
  {
    hide Limits;
  }

  lemma Associate<T>(a: seq<T>, b: seq<T>, c: seq<T>)
    ensures a + b + c == a + (b + c)
  {
  }

  lemma AllDealt(n: Policy)
    ensures Dealt(PublicSlots(n, 0), CredentialIds(n), Limits(n)) == Some(PolicyPublics(n))
  {
    hide PublicSlots, CredentialIds, Limits, PolicyPublics;
    DealtPolicy(n, 0, [], [], []);
    assert PublicSlots(n, 0) + [] == PublicSlots(n, 0) && CredentialIds(n) + [] == CredentialIds(n);
    assert Limits(n) + [] == Limits(n) && PolicyPublics(n) + [] == PolicyPublics(n);
    assert Dealt([], [], []) == Some([]);
  }

  /** One slot's step of the dealing. */
  lemma DealtStep(slots: seq<PublicSlot>, ids: seq<CredentialId>, limits: seq<U64>)
    requires Dealt(slots, ids, limits).Some? && slots != []
    ensures slots[0].AmountLimitSlot? ==>
              && limits != [] && Dealt(slots[1..], ids, limits[1..]).Some?
              && Dealt(slots, ids, limits).value == [Fe(limits[0])] + Dealt(slots[1..], ids, limits[1..]).value
    ensures !slots[0].AmountLimitSlot? ==>
              && ids != [] && Dealt(slots[1..], ids[1..], limits).Some?
              && Dealt(slots, ids, limits).value == [DigestToField(ids[0])] + Dealt(slots[1..], ids[1..], limits).value
  {
    hide DigestToField, Fe;
  }

  method PolicyPublicInputs(c: CompiledPolicy, n: Policy) returns (r: Result<seq<Elem>, PaymentError>)
    requires c.publicSlots == PublicSlots(n, 0)
    ensures r == Ok(PolicyPublics(n))
  {
    hide DigestToField, Fe, PublicSlots, PolicyPublics, Dealt, CredentialIds, Limits;
    var ids := CollectIds(n);
    var limits := CollectLimits(n);
    AllDealt(n);
    NothingDealt(ids, limits);
    var publics: seq<Elem> := [];
    var nextCredential, nextLimit := 0, 0;
    assert c.publicSlots[0..] == c.publicSlots && ids[0..] == ids && limits[0..] == limits;
    for k := 0 to |c.publicSlots|
      invariant nextCredential <= |ids| && nextLimit <= |limits|
      invariant Dealt(c.publicSlots[k..], ids[nextCredential..], limits[nextLimit..]).Some?
      invariant publics + Dealt(c.publicSlots[k..], ids[nextCredential..], limits[nextLimit..]).value == PolicyPublics(n)
    {
      DealtStep(c.publicSlots[k..], ids[nextCredential..], limits[nextLimit..]);
      assert c.publicSlots[k..][1..] == c.publicSlots[k + 1..];
      match c.publicSlots[k] {
        case CredentialCommitmentSlot(_) =>
          if nextCredential >= |ids| {
            return Err(InvalidPolicy);
          }
          assert ids[nextCredential..][1..] == ids[nextCredential + 1..];
          publics := publics + [DigestToField(ids[nextCredential])];
          nextCredential := nextCredential + 1;
        case AmountLimitSlot =>
          if nextLimit >= |limits| {
            return Err(InvalidPolicy);
          }
          assert limits[nextLimit..][1..] == limits[nextLimit + 1..];
          publics := publics + [Fe(limits[nextLimit])];
          nextLimit := nextLimit + 1;
      }
    }
    assert c.publicSlots[|c.publicSlots|..] == [] && publics + [] == publics;
    return Ok(publics);
  }

  lemma NothingDealt(ids: seq<CredentialId>, limits: seq<U64>)
    ensures forall i, j :: 0 <= i <= |ids| && 0 <= j <= |limits| ==> Dealt([], ids[i..], limits[j..]) == Some([])
  {
  }

  // ---- both sides see the same public inputs -----------------------------------------------------------

  /** A window of the public inputs holds what the policy prescribes. */
  predicate Shows(x: Inputs, q: nat, vs: seq<Elem>) {
    forall k :: 0 <= k < |vs| ==> x.Public(q + k) == vs[k]
  }

  lemma ShowsSum(x: Inputs, q: nat, vs: seq<Elem>, vs': seq<Elem>)
    ensures Shows(x, q, vs + vs') <==> Shows(x, q, vs) && Shows(x, q + |vs|, vs')
  {
    hide Inputs.Public;
    if Shows(x, q, vs + vs') {
      forall k | 0 <= k < |vs|
        ensures x.Public(q + k) == vs[k]
      {
        assert (vs + vs')[k] == vs[k];
      }
      forall k | 0 <= k < |vs'|
        ensures x.Public(q + |vs| + k) == vs'[k]
      {
        assert (vs + vs')[|vs| + k] == vs'[k];
      }
    }
    if Shows(x, q, vs) && Shows(x, q + |vs|, vs') {
      forall k | 0 <= k < |vs + vs'|
        ensures x.Public(q + k) == (vs + vs')[k]
      {
        if k >= |vs| {
          assert x.Public(q + |vs| + (k - |vs|)) == vs'[k - |vs|];
        }
      }
    }
  }

  lemma {:induction false} PublicsCount(p: Policy)
    ensures |PolicyPublics(p)| == Publics(p)
    decreases p, 1
  {
    if !p.IsLeaf() {
      PublicsCountOf(p.members);
    }
  }

  lemma {:induction false} PublicsCountOf(ms: seq<Policy>)
    ensures |PolicyPublicsOf(ms)| == PublicsOf(ms)
    decreases ms, 0
  {
    hide PolicyPublics, Publics;
    if ms != [] {
      PublicsCountOf(ms[..|ms| - 1]);
      PublicsCount(ms[|ms| - 1]);
    }
  }

  lemma {:induction false} FilledShows(p: Policy, w: Witness, x: Inputs, s: nat, q: nat)
    requires Filled(p, w, x, s, q)
    ensures Shows(x, q, PolicyPublics(p))
    decreases p, 1
  {
    hide Inputs.Public, Inputs.Secret, DigestToField, Fe, Witness.SecretFor, RangeCheck.Digits;
    if !p.IsLeaf() {
      FilledShowsOf(p.members, w, x, s, q);
    }
  }

  lemma {:induction false} FilledShowsOf(ms: seq<Policy>, w: Witness, x: Inputs, s: nat, q: nat)
    requires FilledOf(ms, w, x, s, q)
    ensures Shows(x, q, PolicyPublicsOf(ms))
    decreases ms, 0
  {
    hide Filled, PolicyPublics, Inputs.Public;
    if ms != [] {
      var (front, last) := (ms[..|ms| - 1], ms[|ms| - 1]);
      FilledShowsOf(front, w, x, s, q);
      FilledShows(last, w, x, s + SecretsOf(front), q + PublicsOf(front));
      PublicsCountOf(front);
      ShowsSum(x, q, PolicyPublicsOf(front), PolicyPublics(last));
    }
  }

  /** The prover's filled public inputs are the ones the verifier rebuilds. */
  lemma PublicsRebuilt(n: Policy, w: Witness, x: Inputs)
    requires BuiltFor(n, w, x)
    ensures x.publics == PolicyPublics(n)
  {
    hide Filled, Solved, PolicyPublics, Discriminants, AuxPositions;
    FilledShows(n, w, x, 0, 0);
    PublicsCount(n);
    assert forall k :: 0 <= k < |x.publics| ==> x.Public(0 + k) == x.publics[k];
  }

  /** The limits the verifier rebuilds are 64-bit integers. */
  lemma {:induction false} ShownLimitsFit(p: Policy, x: Inputs, q: nat)
    requires Wide() && Shows(x, q, PolicyPublics(p))
    ensures LimitsFit(p, x, q)
    decreases p, 1
  {
    hide Inputs.Public, DigestToField, Fe;
    match p {
      case Credential(_) =>
      case AmountAtMost(limit) =>
        FeOfSmall(limit);
        assert PolicyPublics(p)[0] == Fe(limit);
        assert x.Public(q + 0) == Fe(limit);
      case _ =>
        ShownLimitsFitOf(p.members, x, q);
    }
  }

  lemma {:induction false} ShownLimitsFitOf(ms: seq<Policy>, x: Inputs, q: nat)
    requires Wide() && Shows(x, q, PolicyPublicsOf(ms))
    ensures LimitsFitOf(ms, x, q)
    decreases ms, 0
  {
    hide Inputs.Public, PolicyPublics, LimitsFit, Shows;
    if ms != [] {
      var (front, last) := (ms[..|ms| - 1], ms[|ms| - 1]);
      PublicsCountOf(front);
      ShowsSum(x, q, PolicyPublicsOf(front), PolicyPublics(last));
      ShownLimitsFitOf(front, x, q);
      ShownLimitsFit(last, x, q + PublicsOf(front));
    }
  }
}
