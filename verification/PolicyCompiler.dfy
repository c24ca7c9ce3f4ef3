/** The policy compiler: one pass over the normalised policy that emits gates, input slots,
    auxiliary targets and published constraints. */
module PolicyCompiler {
  import opened Wrappers
  import opened PrimeField
  import opened Circuits
  import opened CircuitGates
  import opened Policies
  import opened PolicyValidation
  import PolicyNormal
  import PolicyLimits
  import RangeCheck
  import opened PolicyWires

  // ---- the state of a compilation as a value -----------------------------------------------------------

  datatype Snapshot = Snapshot(
    circuit: Circuit,
    secretSlots: seq<SecretSlot>,
    publicSlots: seq<PublicSlot>,
    targets: seq<NodeId>,
    constraints: seq<NodeId>,
    aux: seq<nat>,
    credentials: nat)

  /** Slots count the inputs, and every published constraint is w (1 - w) for the product w of a
      discriminant wire and an auxiliary input declared after it, so it depends on a secret. */
  ghost predicate Coherent(s: Snapshot) {
    && s.circuit.outputs == [] && s.circuit.numSecretInputs == |s.secretSlots| && s.circuit.numPublicInputs == |s.publicSlots|
    && |s.targets| == |s.constraints| == |s.aux|
    && Defined(s.circuit.nodes, s.targets) && Defined(s.circuit.nodes, s.constraints)
    && (forall j :: 0 <= j < |s.targets| ==>
          SecretsBefore(s.circuit.nodes, s.targets[j] + 1) <= s.aux[j] < |s.secretSlots|)
    && (forall j: nat, x: Inputs :: j < |s.targets| ==>
          At(s.circuit.nodes, x, s.constraints[j])
          == Booleanity(Mul(At(s.circuit.nodes, x, s.targets[j]), x.Secret(s.aux[j]))))
    && (forall j :: 0 <= j < |s.targets| ==> Shared(s.circuit.nodes, s.constraints[j]))
  }

  /** Only gates were added. */
  ghost predicate Quiet(a: Snapshot, b: Snapshot) {
    Grows(a.circuit, b.circuit) && b == a.(circuit := b.circuit)
  }

  lemma CoherentExtends(a: Snapshot, b: Snapshot)
    requires Coherent(a) && Extends(a.circuit.nodes, b.circuit.nodes) && b.circuit.outputs == []
    requires b.targets == a.targets && b.constraints == a.constraints && b.aux == a.aux && a.secretSlots <= b.secretSlots
    requires b.circuit.numSecretInputs == |b.secretSlots| && b.circuit.numPublicInputs == |b.publicSlots|
    ensures Coherent(b)
  {
    hide At, Shared, Booleanity, Mul, Inputs.Secret;
    forall j | 0 <= j < |b.targets|
      ensures SecretsBefore(b.circuit.nodes, b.targets[j] + 1) <= b.aux[j] < |b.secretSlots|
    {
      CountsOfPrefix(a.circuit.nodes, b.circuit.nodes, b.targets[j] + 1);
    }
    forall j: nat, x: Inputs | j < |b.targets|
      ensures At(b.circuit.nodes, x, b.constraints[j])
           == Booleanity(Mul(At(b.circuit.nodes, x, b.targets[j]), x.Secret(b.aux[j])))
    {
      assert At(a.circuit.nodes, x, a.constraints[j])
          == Booleanity(Mul(At(a.circuit.nodes, x, a.targets[j]), x.Secret(a.aux[j])));
    }
  }

  /** What was declared between two states. */
  ghost predicate Added(a: Snapshot, b: Snapshot, secrets: seq<SecretSlot>, publics: seq<PublicSlot>, aux: seq<nat>, creds: nat) {
    && Extends(a.circuit.nodes, b.circuit.nodes)
    && b.secretSlots == a.secretSlots + secrets && b.publicSlots == a.publicSlots + publics
    && b.aux == a.aux + aux && b.credentials == a.credentials + creds
    && a.targets <= b.targets && |b.targets| == |a.targets| + |aux|
  }

  lemma ExtendsFurther(a: seq<Node>, b: seq<Node>, c: seq<Node>)
    requires Extends(a, b) && Extends(b, c)
    ensures Extends(a, c)
  {
    hide At, Shared;
    forall x: Inputs, i: nat | i < |a|
      ensures At(c, x, i) == At(a, x, i)
    {
      assert At(b, x, i) == At(a, x, i);
    }
    assert forall i: nat :: i < |a| ==> Shared(b, i) == Shared(a, i);
  }

  lemma AddedThen(a: Snapshot, b: Snapshot, c: Snapshot,
                  ss: seq<SecretSlot>, ps: seq<PublicSlot>, aux: seq<nat>, creds: nat,
                  ss': seq<SecretSlot>, ps': seq<PublicSlot>, aux': seq<nat>, creds': nat)
    requires Added(a, b, ss, ps, aux, creds) && Added(b, c, ss', ps', aux', creds')
    ensures Added(a, c, ss + ss', ps + ps', aux + aux', creds + creds')
    ensures c.targets[|a.targets|..] == b.targets[|a.targets|..] + c.targets[|b.targets|..]
  {
    hide Extends;
    ExtendsFurther(a.circuit.nodes, b.circuit.nodes, c.circuit.nodes);
    assert c.targets[..|b.targets|] == b.targets;
  }

  lemma AddedQuietly(a: Snapshot, b: Snapshot, c: Snapshot, ss: seq<SecretSlot>, ps: seq<PublicSlot>, aux: seq<nat>, creds: nat)
    requires Added(a, b, ss, ps, aux, creds) && Quiet(b, c)
    ensures Added(a, c, ss, ps, aux, creds)
  {
    hide Extends;
    ExtendsFurther(a.circuit.nodes, b.circuit.nodes, c.circuit.nodes);
  }

  /** A sub-policy was emitted: its inputs and auxiliaries were declared, its wire carries its
      boolean, and the new targets carry its discriminants. */
  ghost predicate Emitted(p: Policy, a: Snapshot, b: Snapshot, wire: NodeId) {
    var (s, q, c) := (|a.secretSlots|, |a.publicSlots|, a.credentials);
    && Added(a, b, SecretSlots(p, c), PublicSlots(p, c), AuxPositions(p, s), Credentials(p))
    && wire < |b.circuit.nodes| && Defined(b.circuit.nodes, b.targets) && Shared(b.circuit.nodes, wire)
    && (forall x: Inputs :: At(b.circuit.nodes, x, wire) == Wire(p, x, s, q))
    && (forall x: Inputs :: AtAll(b.circuit.nodes, x, b.targets[|a.targets|..]) == Discriminants(p, x, s, q))
  }

  ghost predicate EmittedOf(ms: seq<Policy>, kind: FoldKind, a: Snapshot, b: Snapshot, wire: NodeId) {
    var (s, q, c) := (|a.secretSlots|, |a.publicSlots|, a.credentials);
    && Added(a, b, SecretSlotsOf(ms, c), PublicSlotsOf(ms, c), AuxPositionsOf(ms, s), CredentialsOf(ms))
    && wire < |b.circuit.nodes| && Defined(b.circuit.nodes, b.targets) && Shared(b.circuit.nodes, wire)
    && (forall x: Inputs :: At(b.circuit.nodes, x, wire) == Fold(kind, Wires(ms, x, s, q)))
    && (forall x: Inputs :: AtAll(b.circuit.nodes, x, b.targets[|a.targets|..]) == DiscriminantsOf(ms, x, s, q))
  }

  lemma OneMember(m: Policy, kind: FoldKind, a: Snapshot, b: Snapshot, wire: NodeId)
    requires Emitted(m, a, b, wire)
    ensures EmittedOf([m], kind, a, b, wire)
  {
    hide At, Shared, AtAll, Added, Wire, Discriminants, SecretSlots, PublicSlots, AuxPositions, Credentials, Step;
    var (s, q, c) := (|a.secretSlots|, |a.publicSlots|, a.credentials);
    SingleLayout(m, s, c);
    forall x: Inputs
      ensures At(b.circuit.nodes, x, wire) == Fold(kind, Wires([m], x, s, q))
      ensures DiscriminantsOf([m], x, s, q) == Discriminants(m, x, s, q)
    {
      SingleWires(m, kind, x, s, q);
    }
  }

  lemma SingleLayout(m: Policy, s: nat, c: nat)
    ensures SecretSlotsOf([m], c) == SecretSlots(m, c) && PublicSlotsOf([m], c) == PublicSlots(m, c)
    ensures AuxPositionsOf([m], s) == AuxPositions(m, s) && CredentialsOf([m]) == Credentials(m)
  {
    hide SecretSlots, PublicSlots, AuxPositions, Credentials;
    assert [m][..0] == [];
    assert CredentialsOf([]) == 0 && SecretsOf([]) == 0;
  }

  lemma SingleWires(m: Policy, kind: FoldKind, x: Inputs, s: nat, q: nat)
    ensures Fold(kind, Wires([m], x, s, q)) == Wire(m, x, s, q)
    ensures DiscriminantsOf([m], x, s, q) == Discriminants(m, x, s, q)
  {
    hide Wire, Discriminants, Step;
    assert [m][..0] == [] && SecretsOf([]) == 0 && PublicsOf([]) == 0;
    var ws := Wires([m], x, s, q);
    assert ws[..0] == [];
    UnitStep(kind, Wire(m, x, s, q));
  }

  lemma NextMember(ms: seq<Policy>, kind: FoldKind, a: Snapshot, b: Snapshot, acc: NodeId, c: Snapshot, wire: NodeId)
    requires ms != [] && EmittedOf(ms[..|ms| - 1], kind, a, b, acc) && Emitted(ms[|ms| - 1], b, c, wire)
    ensures var (s, q, n) := (|a.secretSlots|, |a.publicSlots|, a.credentials);
            && Added(a, c, SecretSlotsOf(ms, n), PublicSlotsOf(ms, n), AuxPositionsOf(ms, s), CredentialsOf(ms))
            && (forall x: Inputs :: AtAll(c.circuit.nodes, x, c.targets[|a.targets|..]) == DiscriminantsOf(ms, x, s, q))
            && Shared(c.circuit.nodes, wire)
            && (forall x: Inputs ::
                  Step(kind, At(c.circuit.nodes, x, acc), At(c.circuit.nodes, x, wire)) == Fold(kind, Wires(ms, x, s, q)))
  {
    hide At, Shared, AtAll, Wire, Discriminants, SecretSlots, PublicSlots, AuxPositions, Credentials, Step;
    var (s, q, n) := (|a.secretSlots|, |a.publicSlots|, a.credentials);
    var (front, last) := (ms[..|ms| - 1], ms[|ms| - 1]);
    FrontSizes(front, s, q, n);
    AddedThen(a, b, c, SecretSlotsOf(front, n), PublicSlotsOf(front, n), AuxPositionsOf(front, s), CredentialsOf(front),
              SecretSlots(last, b.credentials), PublicSlots(last, b.credentials), AuxPositions(last, |b.secretSlots|), Credentials(last));
    forall x: Inputs
      ensures AtAll(c.circuit.nodes, x, c.targets[|a.targets|..]) == DiscriminantsOf(ms, x, s, q)
      ensures Step(kind, At(c.circuit.nodes, x, acc), At(c.circuit.nodes, x, wire)) == Fold(kind, Wires(ms, x, s, q))
    {
      AtAllSum(c.circuit.nodes, x, b.targets[|a.targets|..], c.targets[|b.targets|..]);
      AtAllExtends(b.circuit.nodes, c.circuit.nodes, x, b.targets[|a.targets|..]);
      LastWire(ms, kind, x, s, q);
    }
  }

  lemma FrontSizes(ms: seq<Policy>, s: nat, q: nat, c: nat)
    ensures |SecretSlotsOf(ms, c)| == SecretsOf(ms) && |PublicSlotsOf(ms, c)| == PublicsOf(ms)
  {
    LayoutSizesOf(ms, Inputs([], []), s, q, c);
  }

  lemma LastWire(ms: seq<Policy>, kind: FoldKind, x: Inputs, s: nat, q: nat)
    requires ms != []
    ensures var (front, last) := (ms[..|ms| - 1], ms[|ms| - 1]);
            Fold(kind, Wires(ms, x, s, q)) ==
              Step(kind, Fold(kind, Wires(front, x, s, q)), Wire(last, x, s + SecretsOf(front), q + PublicsOf(front)))
  {
    hide Wire, Step;
    var front := ms[..|ms| - 1];
    assert Wires(ms, x, s, q)[..|front|] == Wires(front, x, s, q);
  }

  lemma AtAllSum(nodes: seq<Node>, x: Inputs, a: seq<NodeId>, b: seq<NodeId>)
    requires Defined(nodes, a) && Defined(nodes, b)
    ensures Defined(nodes, a + b) && AtAll(nodes, x, a + b) == AtAll(nodes, x, a) + AtAll(nodes, x, b)
  {
    hide At, Shared;
  }

  lemma InputAt(nodes: seq<Node>, x: Inputs)
    ensures At(nodes + [SecretInput], x, |nodes|) == x.Secret(SecretsBefore(nodes, |nodes|))
    ensures At(nodes + [PublicInput], x, |nodes|) == x.Public(PublicsBefore(nodes, |nodes|))
    ensures Shared(nodes + [SecretInput], |nodes|)
  {
    CountsOfPrefix(nodes, nodes + [SecretInput], |nodes|);
    CountsOfPrefix(nodes, nodes + [PublicInput], |nodes|);
  }

  // ---- the compiler ------------------------------------------------------------------------------------

  datatype CompiledPolicy = CompiledPolicy(
    circuit: Circuit,
    secretSlots: seq<SecretSlot>,
    publicSlots: seq<PublicSlot>,
    auxiliaryTargets: seq<NodeId>,
    rangeCheckOutputs: nat)

  class Compiler {
    const builder: CircuitBuilder
    var secretSlots: seq<SecretSlot>
    var publicSlots: seq<PublicSlot>
    var auxiliaryTargets: seq<NodeId>
    var constraintOutputs: seq<NodeId>
    var credentialCounter: nat
    ghost var auxPositions: seq<nat>

    ghost function Now(): Snapshot
      reads this, builder
    {
      Snapshot(builder.Current(), secretSlots, publicSlots, auxiliaryTargets, constraintOutputs, auxPositions, credentialCounter)
    }

    ghost predicate Valid()
      reads this, builder
    {
      builder.Valid() && Coherent(Now())
    }

    constructor ()
      ensures Valid() && fresh(builder)
      ensures secretSlots == [] && publicSlots == [] && auxPositions == [] && auxiliaryTargets == [] && credentialCounter == 0
      ensures builder.nodes == []
    {
      builder := new CircuitBuilder();
      secretSlots, publicSlots, auxiliaryTargets, constraintOutputs := [], [], [], [];
      credentialCounter, auxPositions := 0, [];
    }

    method SecretInput(slot: SecretSlot) returns (id: NodeId)
      requires Valid()
      modifies this, builder
      ensures Valid() && Added(old(Now()), Now(), [slot], [], [], 0) && id < |builder.nodes|
      ensures forall x: Inputs :: At(builder.nodes, x, id) == x.Secret(|old(secretSlots)|)
      ensures Shared(builder.nodes, id)
    {
      hide At, Shared, Inputs.Secret, Coherent;
      OutputsOf(Now());
      ghost var before := Now();
      secretSlots := secretSlots + [slot];
      id := builder.SecretInput();
      Appended(before.circuit.nodes, builder.nodes);
      InputAt(before.circuit.nodes, Inputs([], []));
      forall x: Inputs
        ensures At(builder.nodes, x, id) == x.Secret(|before.secretSlots|)
      {
        InputAt(before.circuit.nodes, x);
      }
      CoherentExtends(before, Now());
    }

    method PublicInput(slot: PublicSlot) returns (id: NodeId)
      requires Valid()
      modifies this, builder
      ensures Valid() && Added(old(Now()), Now(), [], [slot], [], 0) && id < |builder.nodes|
      ensures forall x: Inputs :: At(builder.nodes, x, id) == x.Public(|old(publicSlots)|)
    {
      hide At, Shared, Inputs.Public, Coherent;
      OutputsOf(Now());
      ghost var before := Now();
      publicSlots := publicSlots + [slot];
      id := builder.PublicInput();
      Appended(before.circuit.nodes, builder.nodes);
      forall x: Inputs
        ensures At(builder.nodes, x, id) == x.Public(|before.publicSlots|)
      {
        InputAt(before.circuit.nodes, x);
      }
      CoherentExtends(before, Now());
    }

    lemma OutputsOf(s: Snapshot)
      requires Coherent(s)
      ensures s.circuit.outputs == [] && s.circuit.numSecretInputs == |s.secretSlots| && s.circuit.numPublicInputs == |s.publicSlots|
      ensures |s.targets| == |s.aux| && Defined(s.circuit.nodes, s.targets)
    {
    }

    /** Boolean 1 exactly when the secret slot equals the public slot. */
    method EmitCredential(id: CredentialId) returns (wire: NodeId)
      requires Valid()
      modifies this, builder
      ensures Valid() && Emitted(Credential(id), old(Now()), Now(), wire)
    {
      hide At, Shared, AtAll, Coherent, Inputs.Secret, Inputs.Public, Sub;
      ghost var s0 := Now();
      var index := credentialCounter;
      credentialCounter := credentialCounter + 1;
      CoherentExtendsItself(s0, Now());
      ghost var s1 := Now();
      var secret := SecretInput(CredentialSlot(index));
      ghost var s2 := Now();
      var commitment := PublicInput(CredentialCommitmentSlot(index));
      ghost var s3 := Now();
      OutputsOf(s3);
      wire := EmitMatch(secret, commitment);
      CoherentExtends(s3, Now());
      OutputsOf(Now());
      AddedThen(s1, s2, s3, [CredentialSlot(index)], [], [], 0, [], [CredentialCommitmentSlot(index)], [], 0);
      AddedQuietly(s1, s3, Now(), [CredentialSlot(index)], [CredentialCommitmentSlot(index)], [], 0);
      forall x: Inputs
        ensures At(builder.nodes, x, wire) == IsZero(Sub(x.Secret(|s0.secretSlots|), x.Public(|s0.publicSlots|)))
      {
        assert At(s3.circuit.nodes, x, secret) == At(s2.circuit.nodes, x, secret) == x.Secret(|s0.secretSlots|);
      }
      NothingNew(Now(), s0.targets);
    }

    /** Boolean 1 exactly when two wires carry the same value. */
    method EmitMatch(secret: NodeId, commitment: NodeId) returns (wire: NodeId)
      requires builder.Valid() && secret < |builder.nodes| && commitment < |builder.nodes|
      modifies builder
      ensures builder.Valid() && Grows(old(builder.Current()), builder.Current()) && wire < |builder.nodes|
      ensures forall x: Inputs ::
                At(builder.nodes, x, wire) == IsZero(Sub(At(old(builder.nodes), x, secret), At(old(builder.nodes), x, commitment)))
      ensures Shared(old(builder.nodes), secret) ==> Shared(builder.nodes, wire)
    {
      hide At, Shared, Sub;
      ghost var c0 := builder.Current();
      var difference := SubWires(builder, secret, commitment);
      ghost var c1 := builder.Current();
      var nonzero := FermatNonzero(builder, difference);
      ghost var c2 := builder.Current();
      wire := OneMinus(builder, nonzero);
      GrowsFurther(c0, c1, c2);
      GrowsFurther(c0, c2, builder.Current());
    }

    lemma CoherentExtendsItself(a: Snapshot, b: Snapshot)
      requires Coherent(a) && b == a.(credentials := b.credentials)
      ensures Coherent(b)
    {
    }

    lemma NothingNew(s: Snapshot, before: seq<NodeId>)
      requires s.targets == before && Defined(s.circuit.nodes, s.targets)
      ensures forall x: Inputs :: AtAll(s.circuit.nodes, x, s.targets[|before|..]) == []
    {
    }

    /** Declares 64 digit inputs, lowest digit first. */
    method DeclareBits(ofAmount: bool) returns (bits: seq<NodeId>)
      requires Valid()
      modifies this, builder
      ensures Valid() && Added(old(Now()), Now(), BitSlots(ofAmount, 64), [], [], 0)
      ensures |bits| == 64 && Defined(builder.nodes, bits)
      ensures forall x: Inputs :: AtAll(builder.nodes, x, bits) == SecretBlock(x, |old(secretSlots)|, 64)
    {
      hide At, Shared, AtAll, Coherent, Inputs.Secret;
      ghost var start := Now();
      bits := [];
      NoBits(builder.nodes, |start.secretSlots|);
      AddedNothing(start, ofAmount);
      for index := 0 to 64
        invariant Valid() && Added(start, Now(), BitSlots(ofAmount, index), [], [], 0)
        invariant |bits| == index && Defined(builder.nodes, bits)
        invariant forall x: Inputs :: AtAll(builder.nodes, x, bits) == SecretBlock(x, |start.secretSlots|, index)
      {
        ghost var before := Now();
        var slot := if ofAmount then AmountBit(index) else DifferenceBit(index);
        var id := SecretInput(slot);
        AddedThen(start, before, Now(), BitSlots(ofAmount, index), [], [], 0, [slot], [], [], 0);
        assert BitSlots(ofAmount, index + 1) == BitSlots(ofAmount, index) + [slot];
        forall x: Inputs
          ensures AtAll(builder.nodes, x, bits + [id]) == SecretBlock(x, |start.secretSlots|, index + 1)
        {
          AtAllExtends(before.circuit.nodes, builder.nodes, x, bits);
          OneMoreBit(builder.nodes, x, bits, id, |start.secretSlots|);
        }
        bits := bits + [id];
      }
    }

    lemma NoBits(nodes: seq<Node>, s: nat)
      ensures forall x: Inputs :: AtAll(nodes, x, []) == SecretBlock(x, s, 0)
    {
    }

    lemma AddedNothing(s: Snapshot, ofAmount: bool)
      ensures Added(s, s, BitSlots(ofAmount, 0), [], [], 0)
    {
      hide At, Shared;
    }

    lemma OneMoreBit(nodes: seq<Node>, x: Inputs, bits: seq<NodeId>, id: NodeId, s: nat)
      requires Defined(nodes, bits) && id < |nodes|
      requires AtAll(nodes, x, bits) == SecretBlock(x, s, |bits|) && At(nodes, x, id) == x.Secret(s + |bits|)
      ensures AtAll(nodes, x, bits + [id]) == SecretBlock(x, s, |bits| + 1)
    {
      hide At, Shared, Inputs.Secret;
      var (before, after) := (AtAll(nodes, x, bits), AtAll(nodes, x, bits + [id]));
      forall i | 0 <= i <= |bits|
        ensures after[i] == SecretBlock(x, s, |bits| + 1)[i]
      {
        if i < |bits| {
          assert after[i] == before[i] == SecretBlock(x, s, |bits|)[i];
        }
      }
    }

    /** The product of the zero tests of some wires. */
    method EmitAllZero(wires: seq<NodeId>) returns (product: NodeId)
      requires builder.Valid() && Defined(builder.nodes, wires)
      modifies builder
      ensures builder.Valid() && Grows(old(builder.Current()), builder.Current()) && product < |builder.nodes|
      ensures forall x: Inputs :: At(builder.nodes, x, product) == AllZero(AtAll(old(builder.nodes), x, wires))
      ensures (exists k :: 0 <= k < |wires| && Shared(old(builder.nodes), wires[k])) ==> Shared(builder.nodes, product)
    {
      hide At, Shared, AtAll, AllZero, IsZero, Mul, Sub;
      ghost var start := builder.Current();
      NoWires(builder.nodes, wires);
      product := ConstantGate(builder, 1);
      for i := 0 to |wires|
        invariant builder.Valid() && Grows(start, builder.Current()) && product < |builder.nodes|
        invariant forall x: Inputs :: At(builder.nodes, x, product) == AllZero(AtAll(start.nodes, x, wires[..i]))
        invariant forall k :: 0 <= k < i && Shared(start.nodes, wires[k]) ==> Shared(builder.nodes, product)
      {
        ghost var c0 := builder.Current();
        var fermat := FermatNonzero(builder, wires[i]);
        ghost var c1 := builder.Current();
        var satisfied := OneMinus(builder, fermat);
        ghost var c2 := builder.Current();
        product := MulWires(builder, product, satisfied);
        GrowsFurther(start, c0, c1);
        GrowsFurther(start, c1, c2);
        GrowsFurther(start, c2, builder.Current());
        forall x: Inputs
          ensures At(builder.nodes, x, product) == AllZero(AtAll(start.nodes, x, wires[..i + 1]))
        {
          OneMoreTest(start.nodes, x, wires, i);
          ZeroTest(At(start.nodes, x, wires[i]));
        }
      }
      assert wires[..|wires|] == wires;
    }

    lemma NoWires(nodes: seq<Node>, wires: seq<NodeId>)
      ensures forall x: Inputs :: AllZero(AtAll(nodes, x, wires[..0])) == 1
    {
    }

    lemma ZeroTest(v: Elem)
      ensures IsZero(v) == Sub(1, if v == 0 then 0 else 1)
    {
    }

    lemma OneMoreTest(nodes: seq<Node>, x: Inputs, wires: seq<NodeId>, i: nat)
      requires Defined(nodes, wires) && i < |wires|
      ensures AllZero(AtAll(nodes, x, wires[..i + 1]))
           == Mul(AllZero(AtAll(nodes, x, wires[..i])), IsZero(At(nodes, x, wires[i])))
    {
      hide At, Shared, IsZero, Mul;
      assert AtAll(nodes, x, wires[..i + 1])[..i] == AtAll(nodes, x, wires[..i]);
    }

    /** Boolean 1 exactly when all four range-check wires are zero. */
    method EmitAmount(limit: U64) returns (wire: NodeId)
      requires Valid()
      modifies this, builder
      ensures Valid() && Emitted(AmountAtMost(limit), old(Now()), Now(), wire)
    {
      hide At, Shared, AtAll, Coherent, Inputs.Secret, Inputs.Public, AllZero, RangeCheck.Constraints, SecretBlock, BitSlots;
      ghost var s0 := Now();
      var amount := SecretInput(AmountSlot);
      ghost var s1 := Now();
      var limitNode := PublicInput(AmountLimitSlot);
      ghost var s2 := Now();
      var valueBits := DeclareBits(true);
      ghost var s3 := Now();
      var differenceBits := DeclareBits(false);
      ghost var s4 := Now();
      AddedThen(s0, s1, s2, [AmountSlot], [], [], 0, [], [AmountLimitSlot], [], 0);
      AddedThen(s0, s2, s3, [AmountSlot], [AmountLimitSlot], [], 0, BitSlots(true, 64), [], [], 0);
      AddedThen(s0, s3, s4, [AmountSlot] + BitSlots(true, 64), [AmountLimitSlot], [], 0, BitSlots(false, 64), [], [], 0);
      OutputsOf(s4);
      wire := EmitBound(amount, limitNode, valueBits, differenceBits);
      CoherentExtends(s4, Now());
      OutputsOf(Now());
      AddedQuietly(s0, s4, Now(), [AmountSlot] + BitSlots(true, 64) + BitSlots(false, 64), [AmountLimitSlot], [], 0);
      forall x: Inputs
        ensures At(builder.nodes, x, wire) ==
                AllZero(RangeCheck.Constraints(x.Secret(|s0.secretSlots|), x.Public(|s0.publicSlots|),
                                               SecretBlock(x, |s0.secretSlots| + 1, 64), SecretBlock(x, |s0.secretSlots| + 65, 64)))
      {
        AtAllExtends(s3.circuit.nodes, s4.circuit.nodes, x, valueBits);
        assert At(s4.circuit.nodes, x, amount) == At(s3.circuit.nodes, x, amount) == At(s2.circuit.nodes, x, amount)
            == At(s1.circuit.nodes, x, amount);
        assert At(s4.circuit.nodes, x, limitNode) == At(s3.circuit.nodes, x, limitNode) == At(s2.circuit.nodes, x, limitNode);
      }
      NothingNew(Now(), s0.targets);
    }

    method EmitBound(amount: NodeId, limit: NodeId, valueBits: seq<NodeId>, differenceBits: seq<NodeId>) returns (wire: NodeId)
      requires builder.Valid() && amount < |builder.nodes| && limit < |builder.nodes|
      requires |valueBits| == |differenceBits| == 64 && Defined(builder.nodes, valueBits) && Defined(builder.nodes, differenceBits)
      modifies builder
      ensures builder.Valid() && Grows(old(builder.Current()), builder.Current()) && wire < |builder.nodes|
      ensures forall x: Inputs ::
                At(builder.nodes, x, wire) ==
                AllZero(RangeCheck.Constraints(At(old(builder.nodes), x, amount), At(old(builder.nodes), x, limit),
                                               AtAll(old(builder.nodes), x, valueBits), AtAll(old(builder.nodes), x, differenceBits)))
      ensures Shared(old(builder.nodes), amount) ==> Shared(builder.nodes, wire)
    {
      hide At, Shared, AtAll, AllZero, RangeCheck.Constraints;
      ghost var c0 := builder.Current();
      var outputs := RangeCheck.ProveBoundedDifference(builder, amount, limit, valueBits, differenceBits);
      ghost var c1 := builder.Current();
      wire := EmitAllZero(outputs);
      GrowsFurther(c0, c1, builder.Current());
    }

    // ---- combinators -----------------------------------------------------------------------------------

    /** The gates that add one more member wire to a running combination. */
    method EmitStep(kind: FoldKind, prev: NodeId, next: NodeId) returns (wire: NodeId)
      requires builder.Valid() && prev < |builder.nodes| && next < |builder.nodes|
      modifies builder
      ensures builder.Valid() && Grows(old(builder.Current()), builder.Current()) && wire < |builder.nodes|
      ensures forall x: Inputs ::
                At(builder.nodes, x, wire) == Step(kind, At(old(builder.nodes), x, prev), At(old(builder.nodes), x, next))
      ensures Shared(old(builder.nodes), prev) || Shared(old(builder.nodes), next) ==> Shared(builder.nodes, wire)
    {
      hide At, Shared, Add, Sub, Mul;
      match kind {
        case Conjunction =>
          wire := MulWires(builder, prev, next);
        case Total =>
          wire := AddWires(builder, prev, next);
        case Disjunction =>
          ghost var c0 := builder.Current();
          var product := MulWires(builder, prev, next);
          ghost var c1 := builder.Current();
          var summed := AddWires(builder, prev, next);
          ghost var c2 := builder.Current();
          wire := SubWires(builder, summed, product);
          GrowsFurther(c0, c1, c2);
          GrowsFurther(c0, c2, builder.Current());
      }
    }

    /** Emits the members from left to right and combines their wires on the way. */
    method EmitMembers(ms: seq<Policy>, kind: FoldKind) returns (r: Result<NodeId, PolicyError>)
      requires Valid()
      modifies this, builder
      ensures Valid()
      ensures r.Ok? <==> ms != [] && forall i :: 0 <= i < |ms| ==> Emittable(ms[i])
      ensures r.Ok? ==> EmittedOf(ms, kind, old(Now()), Now(), r.value)
      decreases ms, 2
    {
      hide At, Shared, AtAll, Coherent, Emitted, EmittedOf, Step, Emittable;
      ghost var start := Now();
      var wire: Option<NodeId> := None;
      for i := 0 to |ms|
        invariant Valid() && (wire.None? <==> i == 0) && (i == 0 ==> Now() == start)
        invariant forall j :: 0 <= j < i ==> Emittable(ms[j])
        invariant wire.Some? ==> EmittedOf(ms[..i], kind, start, Now(), wire.value)
      {
        ghost var before := Now();
        var member := EmitPolicy(ms[i]);
        if member.Err? {
          return Err(member.error);
        }
        if wire.None? {
          assert ms[..1] == [ms[0]];
          OneMember(ms[0], kind, start, Now(), member.value);
          wire := Some(member.value);
        } else {
          assert ms[..i + 1][..i] == ms[..i];
          var combined := CombineWith(ms[..i + 1], kind, start, before, wire.value, member.value);
          wire := Some(combined);
        }
      }
      assert ms[..|ms|] == ms;
      if wire.None? {
        return Err(EmptyPolicy);
      }
      return Ok(wire.value);
    }

    method CombineWith(ghost ms: seq<Policy>, kind: FoldKind, ghost start: Snapshot, ghost before: Snapshot, prev: NodeId, next: NodeId)
      returns (wire: NodeId)
      requires Valid() && ms != []
      requires EmittedOf(ms[..|ms| - 1], kind, start, before, prev) && Emitted(ms[|ms| - 1], before, Now(), next)
      modifies this, builder
      ensures Valid() && EmittedOf(ms, kind, start, Now(), wire)
    {
      hide At, Shared, AtAll, Coherent, Step, Fold, Wires, Wire, DiscriminantsOf, Discriminants;
      ghost var after := Now();
      NextMember(ms, kind, start, before, prev, after, next);
      OutputsOf(after);
      wire := EmitStep(kind, prev, next);
      CoherentExtends(after, Now());
      OutputsOf(Now());
      AddedQuietly(start, after, Now(), SecretSlotsOf(ms, start.credentials), PublicSlotsOf(ms, start.credentials),
                   AuxPositionsOf(ms, |start.secretSlots|), CredentialsOf(ms));
      forall x: Inputs
        ensures AtAll(builder.nodes, x, auxiliaryTargets[|start.targets|..])
             == DiscriminantsOf(ms, x, |start.secretSlots|, |start.publicSlots|)
      {
        AtAllExtends(after.circuit.nodes, builder.nodes, x, auxiliaryTargets[|start.targets|..]);
      }
    }

    // ---- thresholds ------------------------------------------------------------------------------------

    method EmitDiscriminant(k: U16, sum: NodeId) returns (r: Result<NodeId, PolicyError>)
      requires builder.Valid() && sum < |builder.nodes|
      modifies builder
      ensures builder.Valid() && Grows(old(builder.Current()), builder.Current())
      ensures r.Ok? <==> k > 0
      ensures r.Err? ==> r.error == InvalidThreshold
      ensures r.Ok? ==> r.value < |builder.nodes|
      ensures r.Ok? ==> forall x: Inputs :: At(builder.nodes, x, r.value) == Discriminant(k, At(old(builder.nodes), x, sum))
    {
      hide At, Shared, Add, Mul, Neg, Fe;
      ghost var start := builder.Current();
      GrowsNothing(start);
      var discriminant: Option<NodeId> := None;
      for t := 0 to k
        invariant builder.Valid() && Grows(start, builder.Current())
        invariant discriminant.None? <==> t == 0
        invariant discriminant.Some? ==> discriminant.value < |builder.nodes|
        invariant discriminant.Some? ==>
                    forall x: Inputs :: At(builder.nodes, x, discriminant.value) == Discriminant(t, At(start.nodes, x, sum))
      {
        ghost var c0 := builder.Current();
        var diff := ShiftWire(builder, sum, Neg(Fe(t)));
        ghost var c1 := builder.Current();
        GrowsFurther(start, c0, c1);
        match discriminant {
          case None =>
            forall x: Inputs
              ensures At(builder.nodes, x, diff) == Discriminant(1, At(start.nodes, x, sum))
            {
              FirstFactor(At(start.nodes, x, sum));
            }
            discriminant := Some(diff);
          case Some(prev) =>
            var product := MulWires(builder, prev, diff);
            GrowsFurther(start, c1, builder.Current());
            discriminant := Some(product);
        }
      }
      if discriminant.None? {
        return Err(InvalidThreshold);
      }
      return Ok(discriminant.value);
    }

    lemma GrowsNothing(c: Circuit)
      ensures Grows(c, c)
    {
      hide At, Shared;
    }

    lemma FirstFactor(sum: Elem)
      ensures Discriminant(1, sum) == Add(sum, Neg(Fe(0)))
    {
      hide Fe, Add, Mul, Neg;
      FeOf(1);
      MulLaws(Add(sum, Neg(Fe(0))), 0, 0);
      assert Discriminant(0, sum) == 1;
    }

    /** Declares the auxiliary input of a discriminant and publishes w (1 - w) for their product. */
    method EmitAuxiliary(discriminant: NodeId) returns (w: NodeId)
      requires Valid() && discriminant < |builder.nodes|
      modifies this, builder
      ensures Valid() && Added(old(Now()), Now(), [Auxiliary], [], [|old(secretSlots)|], 0) && w < |builder.nodes|
      ensures auxiliaryTargets == old(auxiliaryTargets) + [discriminant]
      ensures forall x: Inputs ::
                At(builder.nodes, x, w) == Mul(At(old(builder.nodes), x, discriminant), x.Secret(|old(secretSlots)|))
      ensures Shared(builder.nodes, w)
    {
      hide At, Shared, Inputs.Secret, Mul, Booleanity, Coherent;
      ghost var s0 := Now();
      OutputsOf(s0);
      secretSlots := secretSlots + [Auxiliary];
      auxiliaryTargets := auxiliaryTargets + [discriminant];
      auxPositions := auxPositions + [|s0.secretSlots|];
      var aux := builder.SecretInput();
      ghost var c1 := builder.Current();
      Appended(s0.circuit.nodes, c1.nodes);
      InputAt(s0.circuit.nodes, Inputs([], []));
      forall x: Inputs
        ensures At(c1.nodes, x, aux) == x.Secret(|s0.secretSlots|)
      {
        InputAt(s0.circuit.nodes, x);
      }
      w := MulWires(builder, discriminant, aux);
      ghost var c2 := builder.Current();
      var booleanity := BooleanityWire(builder, w);
      constraintOutputs := constraintOutputs + [booleanity];
      GrowsFurther(c1, c2, builder.Current());
      ExtendsFurther(s0.circuit.nodes, c1.nodes, builder.nodes);
      forall x: Inputs
        ensures At(builder.nodes, x, w) == Mul(At(s0.circuit.nodes, x, discriminant), x.Secret(|s0.secretSlots|))
      {
        assert At(c1.nodes, x, discriminant) == At(s0.circuit.nodes, x, discriminant);
      }
      CoherentWithAuxiliary(s0, Now(), discriminant, booleanity);
    }

    lemma CoherentWithAuxiliary(a: Snapshot, b: Snapshot, discriminant: NodeId, constraint: NodeId)
      requires Coherent(a) && Extends(a.circuit.nodes, b.circuit.nodes) && b.circuit.outputs == []
      requires CountsMatch(a.circuit)
      requires discriminant < |a.circuit.nodes| && constraint < |b.circuit.nodes|
      requires b.secretSlots == a.secretSlots + [Auxiliary] && b.publicSlots == a.publicSlots
      requires b.circuit.numSecretInputs == |b.secretSlots| && b.circuit.numPublicInputs == |b.publicSlots|
      requires b.targets == a.targets + [discriminant] && b.constraints == a.constraints + [constraint]
      requires b.aux == a.aux + [|a.secretSlots|]
      requires forall x: Inputs :: At(b.circuit.nodes, x, constraint)
                 == Booleanity(Mul(At(b.circuit.nodes, x, discriminant), x.Secret(|a.secretSlots|)))
      requires Shared(b.circuit.nodes, constraint)
      ensures Coherent(b)
    {
      hide At, Shared, Inputs.Secret, Mul, Booleanity;
      var n := |a.targets|;
      forall j | 0 <= j < |b.targets|
        ensures SecretsBefore(b.circuit.nodes, b.targets[j] + 1) <= b.aux[j] < |b.secretSlots|
      {
        CountsOfPrefix(a.circuit.nodes, b.circuit.nodes, b.targets[j] + 1);
        CountsMonotone(a.circuit.nodes, b.targets[j] + 1, |a.circuit.nodes|);
      }
      forall j: nat, x: Inputs | j < |b.targets|
        ensures At(b.circuit.nodes, x, b.constraints[j])
             == Booleanity(Mul(At(b.circuit.nodes, x, b.targets[j]), x.Secret(b.aux[j])))
      {
        if j < n {
          assert At(a.circuit.nodes, x, a.constraints[j])
              == Booleanity(Mul(At(a.circuit.nodes, x, a.targets[j]), x.Secret(a.aux[j])));
        }
      }
    }

    method EmitThreshold(k: U16, ms: seq<Policy>) returns (r: Result<NodeId, PolicyError>)
      requires Valid()
      modifies this, builder
      ensures Valid()
      ensures r.Ok? <==> Emittable(Threshold(k, ms))
      ensures r.Ok? ==> Emitted(Threshold(k, ms), old(Now()), Now(), r.value)
      decreases Threshold(k, ms), 0
    {
      hide At, Shared, AtAll, Coherent, EmittedOf, Emitted, Discriminant, Fold, Wires, Wire;
      ghost var s0 := Now();
      var sum := EmitMembers(ms, Total);
      if sum.Err? {
        return Err(sum.error);
      }
      ghost var s1 := Now();
      SumDefined(ms, s0, s1, sum.value);
      OutputsOf(s1);
      var discriminant := EmitDiscriminant(k, sum.value);
      if discriminant.Err? {
        CoherentExtends(s1, Now());
        return Err(discriminant.error);
      }
      CoherentExtends(s1, Now());
      ghost var s2 := Now();
      var w := EmitAuxiliary(discriminant.value);
      OutputsOf(Now());
      ThresholdEmitted(k, ms, s0, s1, s2, Now(), sum.value, discriminant.value, w);
      return Ok(w);
    }

    lemma SumDefined(ms: seq<Policy>, s0: Snapshot, s1: Snapshot, sum: NodeId)
      requires EmittedOf(ms, Total, s0, s1, sum)
      ensures sum < |s1.circuit.nodes|
    {
    }

    lemma ThresholdEmitted(k: U16, ms: seq<Policy>, s0: Snapshot, s1: Snapshot, s2: Snapshot, s3: Snapshot,
                           sum: NodeId, d: NodeId, w: NodeId)
      requires EmittedOf(ms, Total, s0, s1, sum) && Quiet(s1, s2) && Added(s2, s3, [Auxiliary], [], [|s2.secretSlots|], 0)
      requires d < |s2.circuit.nodes| && w < |s3.circuit.nodes| && s3.targets == s2.targets + [d] && Defined(s3.circuit.nodes, s3.targets)
      requires forall x: Inputs :: At(s2.circuit.nodes, x, d) == Discriminant(k, At(s1.circuit.nodes, x, sum))
      requires forall x: Inputs :: At(s3.circuit.nodes, x, w) == Mul(At(s2.circuit.nodes, x, d), x.Secret(|s2.secretSlots|))
      requires Shared(s3.circuit.nodes, w)
      ensures Emitted(Threshold(k, ms), s0, s3, w)
    {
      hide At, Shared, AtAll, Discriminant, Fold, Wires, DiscriminantsOf, Mul, Inputs.Secret, SecretSlotsOf, PublicSlotsOf, AuxPositionsOf, CredentialsOf;
      var (s, q, c) := (|s0.secretSlots|, |s0.publicSlots|, s0.credentials);
      FrontSizes(ms, s, q, c);
      AddedQuietly(s0, s1, s2, SecretSlotsOf(ms, c), PublicSlotsOf(ms, c), AuxPositionsOf(ms, s), CredentialsOf(ms));
      AddedThen(s0, s2, s3, SecretSlotsOf(ms, c), PublicSlotsOf(ms, c), AuxPositionsOf(ms, s), CredentialsOf(ms),
                [Auxiliary], [], [|s2.secretSlots|], 0);
      var old' := s1.targets[|s0.targets|..];
      forall x: Inputs
        ensures At(s3.circuit.nodes, x, w) == Wire(Threshold(k, ms), x, s, q)
        ensures AtAll(s3.circuit.nodes, x, s3.targets[|s0.targets|..]) == Discriminants(Threshold(k, ms), x, s, q)
      {
        AtAllSum(s3.circuit.nodes, x, old', [d]);
        ExtendsFurther(s1.circuit.nodes, s2.circuit.nodes, s3.circuit.nodes);
        AtAllExtends(s1.circuit.nodes, s3.circuit.nodes, x, old');
        AtOne(s3.circuit.nodes, x, d);
        assert At(s3.circuit.nodes, x, d) == At(s2.circuit.nodes, x, d);
      }
    }

    lemma AtOne(nodes: seq<Node>, x: Inputs, id: NodeId)
      requires id < |nodes|
      ensures AtAll(nodes, x, [id]) == [At(nodes, x, id)]
    {
      hide At, Shared;
    }

    /** Emits the boolean wire of a policy; it fails exactly on an empty combinator or a threshold of
        zero. */
    method EmitPolicy(p: Policy) returns (r: Result<NodeId, PolicyError>)
      requires Valid()
      modifies this, builder
      ensures Valid()
      ensures r.Ok? <==> Emittable(p)
      ensures r.Ok? ==> Emitted(p, old(Now()), Now(), r.value)
      decreases p, 1
    {
      hide Coherent, Emitted, EmittedOf;
      match p {
        case AmountAtMost(limit) =>
          var wire := EmitAmount(limit);
          return Ok(wire);
        case Credential(id) =>
          var wire := EmitCredential(id);
          return Ok(wire);
        case Threshold(k, ms) =>
          r := EmitThreshold(k, ms);
        case And(ms) =>
          ghost var before := Now();
          r := EmitMembers(ms, Conjunction);
          if r.Ok? {
            CombinatorEmitted(ms, before, Now(), r.value);
          }
        case Or(ms) =>
          ghost var before := Now();
          r := EmitMembers(ms, Disjunction);
          if r.Ok? {
            CombinatorEmitted(ms, before, Now(), r.value);
          }
      }
    }

    lemma CombinatorEmitted(ms: seq<Policy>, a: Snapshot, b: Snapshot, wire: NodeId)
      ensures EmittedOf(ms, Conjunction, a, b, wire) ==> Emitted(And(ms), a, b, wire)
      ensures EmittedOf(ms, Disjunction, a, b, wire) ==> Emitted(Or(ms), a, b, wire)
    {
      hide At, Shared, AtAll, Fold, Wires, DiscriminantsOf, Added;
    }

    /** Publishes the constraints, then the root, and builds the circuit. */
    method Finish(root: NodeId) returns (r: Result<CompiledPolicy, PolicyError>)
      requires Valid() && root < |builder.nodes|
      modifies builder
      ensures r == Ok(CompiledPolicy(old(builder.Current()).(outputs := old(constraintOutputs) + [root]),
                                     old(secretSlots), old(publicSlots), old(auxiliaryTargets), |old(constraintOutputs)|))
      ensures r.Ok? ==> ValidCircuit(r.value.circuit)
    {
      hide Coherent, ValidCircuit, SecretsBefore, PublicsBefore;
      OutputsOf(Now());
      ConstraintsDefined(Now());
      for i := 0 to |constraintOutputs|
        invariant builder.Valid() && builder.Current() == old(builder.Current()).(outputs := constraintOutputs[..i])
      {
        var published := builder.Output(constraintOutputs[i]);
        if published.Err? {
          return Err(CircuitValidationFailure);
        }
      }
      assert constraintOutputs[..|constraintOutputs|] == constraintOutputs;
      var published := builder.Output(root);
      if published.Err? {
        return Err(CircuitValidationFailure);
      }
      var circuit := builder.Build();
      if circuit.Err? {
        return Err(CircuitValidationFailure);
      }
      return Ok(CompiledPolicy(circuit.value, secretSlots, publicSlots, auxiliaryTargets, |constraintOutputs|));
    }

    lemma ConstraintsDefined(s: Snapshot)
      requires Coherent(s)
      ensures Defined(s.circuit.nodes, s.constraints)
    {
    }
  }

  // ---- compilation -------------------------------------------------------------------------------------

  /** What a compiled policy promises for every input: its last output carries the boolean wire of
      the policy, its other outputs are w (1 - w) for the thresholds in order, and its auxiliary
      targets carry their discriminants, which read only inputs declared before the auxiliary. Every
      output depends on a secret. */
  ghost predicate Implements(c: CompiledPolicy, n: Policy) {
    var (nodes, outputs, aux) := (c.circuit.nodes, c.circuit.outputs, AuxPositions(n, 0));
    && ValidCircuit(c.circuit) && c.secretSlots == SecretSlots(n, 0) && c.publicSlots == PublicSlots(n, 0)
    && c.circuit.numSecretInputs == Secrets(n) && c.circuit.numPublicInputs == Publics(n)
    && |outputs| == c.rangeCheckOutputs + 1 && c.rangeCheckOutputs == |c.auxiliaryTargets| == |aux|
    && Defined(nodes, c.auxiliaryTargets)
    && (forall j :: 0 <= j < |aux| ==> SecretsBefore(nodes, c.auxiliaryTargets[j] + 1) <= aux[j])
    && (forall j :: 0 <= j < |outputs| ==> Shared(nodes, outputs[j]))
    && (forall x: Inputs :: At(nodes, x, outputs[|outputs| - 1]) == Wire(n, x, 0, 0))
    && (forall x: Inputs :: AtAll(nodes, x, c.auxiliaryTargets) == Discriminants(n, x, 0, 0))
    && (forall j: nat, x: Inputs :: j < |aux| ==>
          At(nodes, x, outputs[j]) == Booleanity(Mul(At(nodes, x, c.auxiliaryTargets[j]), x.Secret(aux[j]))))
  }

  lemma EmissionImplements(n: Policy, s: Snapshot, t: Snapshot, wire: NodeId, c: CompiledPolicy)
    requires Coherent(t) && Emitted(n, s, t, wire)
    requires s.secretSlots == [] && s.publicSlots == [] && s.aux == [] && s.targets == [] && s.credentials == 0
    requires c == CompiledPolicy(t.circuit.(outputs := t.constraints + [wire]), t.secretSlots, t.publicSlots, t.targets, |t.constraints|)
    requires ValidCircuit(c.circuit)
    ensures Implements(c, n)
  {
    hide At, Shared, AtAll, Booleanity, Mul, Inputs.Secret, Extends, Wire, Discriminants, AuxPositions, SecretSlots, PublicSlots;
    LayoutSizes(n, Inputs([], []), 0, 0, 0);
    assert t.targets[0..] == t.targets;
    assert t.aux == AuxPositions(n, 0);
    forall j: nat, x: Inputs | j < |t.aux|
      ensures At(t.circuit.nodes, x, c.circuit.outputs[j])
           == Booleanity(Mul(At(t.circuit.nodes, x, t.targets[j]), x.Secret(t.aux[j])))
    {
      assert c.circuit.outputs[j] == t.constraints[j];
    }
  }

  /** What validation leaves for the emitter. */
  lemma {:induction false} ShapedIsEmittable(p: Policy)
    requires WellShaped(p)
    ensures Emittable(p)
    ensures Wide() ==> Countable(p)
    decreases p
  {
    if !p.IsLeaf() {
      forall i | 0 <= i < |p.members|
        ensures Emittable(p.members[i]) && (Wide() ==> Countable(p.members[i]))
      {
        ShapedIsEmittable(p.members[i]);
      }
    }
  }

  /** Compiles the normal form. Compilation succeeds exactly when the normal form validates, which for
      a valid policy means that normalising keeps the limits; the circuit then implements the normal form. */
  method CompileWithLayout(p: Policy) returns (r: Result<CompiledPolicy, PolicyError>)
    ensures r.Ok? <==> ValidPolicy(PolicyNormal.Normalize(p))
    ensures ValidPolicy(p) ==> (r.Ok? <==> PolicyLimits.KeepsLimits(p))
    ensures r.Ok? ==> Implements(r.value, PolicyNormal.Normalize(p))
  {
    hide Coherent, Emitted, Implements, WellShaped, PolicyNormal.Normalize, PolicyLimits.KeepsLimits;
    if ValidPolicy(p) {
      PolicyLimits.NormalizingKeepsValidity(p);
    }
    var normalized := PolicyNormal.NormalizeNode(p);
    var valid := PolicyValidation.Validate(normalized);
    if valid.Err? {
      return Err(valid.error);
    }
    ShapedIsEmittable(normalized);
    var compiler := new Compiler();
    ghost var start := compiler.Now();
    var root := compiler.EmitPolicy(normalized);
    WireDefined(normalized, start, compiler.Now(), root.value);
    ghost var done := compiler.Now();
    r := compiler.Finish(root.value);
    EmissionImplements(normalized, start, done, root.value, r.value);
  }

  lemma WireDefined(n: Policy, s: Snapshot, t: Snapshot, wire: NodeId)
    requires Emitted(n, s, t, wire)
    ensures wire < |t.circuit.nodes|
  {
  }
}
