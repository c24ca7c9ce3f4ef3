/** Circuit inputs for a policy and a witness, the solver of the auxiliary inputs, and the
    agreement of the compiled circuit with the evaluator. */
module PolicyInputs {
  import opened Wrappers
  import opened NumberTheory
  import opened PrimeField
  import opened BigEndian
  import opened DigestField
  import opened Circuits
  import opened CircuitGates
  import opened Policies
  import opened PolicyValidation
  import opened PolicyNormal
  import opened PolicyNormalLaws
  import opened PolicyLimits
  import opened RangeCheck
  import opened PolicyWires
  import opened PolicyWireLaws
  import opened PolicyCompiler

  function AmountOrZero(w: Witness): U64 {
    if w.amount.Some? then w.amount.value else 0
  }

  // ---- filling -----------------------------------------------------------------------------------------

  /** The input slots of a policy hold what the witness supplies; auxiliary slots are free. */
  predicate Filled(p: Policy, w: Witness, x: Inputs, s: nat, q: nat)
    decreases p, 1
  {
    match p
    case Credential(id) =>
      && w.SecretFor(id).Some?
      && x.Secret(s) == DigestToField(CredentialCommitment(w.SecretFor(id).value)) && x.Public(q) == DigestToField(id)
    case AmountAtMost(limit) =>
      && x.Secret(s) == Fe(AmountOrZero(w)) && x.Public(q) == Fe(limit)
      && SecretBlock(x, s + 1, 64) == Digits(AmountOrZero(w), 64)
      && SecretBlock(x, s + 65, 64) == Digits(WrappingSub(limit, AmountOrZero(w)), 64)
    case _ => FilledOf(p.members, w, x, s, q)
  }

  predicate FilledOf(ms: seq<Policy>, w: Witness, x: Inputs, s: nat, q: nat)
    decreases ms, 0
  {
    ms != [] ==>
      var (front, last) := (ms[..|ms| - 1], ms[|ms| - 1]);
      FilledOf(front, w, x, s, q) && Filled(last, w, x, s + SecretsOf(front), q + PublicsOf(front))
  }

  predicate SameSlots(x: Inputs, y: Inputs, s: nat, s': nat, q: nat, q': nat, free: seq<nat>) {
    && (forall k :: s <= k < s' && k !in free ==> x.Secret(k) == y.Secret(k))
    && (forall k :: q <= k < q' ==> x.Public(k) == y.Public(k))
  }

  /** Filling is about a policy's own slots, and not about its auxiliary ones. */
  lemma {:induction false} FilledStable(p: Policy, w: Witness, x: Inputs, y: Inputs, s: nat, q: nat)
    requires Filled(p, w, x, s, q) && SameSlots(x, y, s, s + Secrets(p), q, q + Publics(p), AuxPositions(p, s))
    ensures Filled(p, w, y, s, q)
    decreases p, 1
  {
    hide Inputs.Secret, Inputs.Public, Digits, DigestToField, Witness.SecretFor, Fe;
    match p {
      case Credential(_) =>
      case AmountAtMost(_) =>
        assert SecretBlock(y, s + 1, 64) == SecretBlock(x, s + 1, 64);
        assert SecretBlock(y, s + 65, 64) == SecretBlock(x, s + 65, 64);
      case _ =>
        FilledStableOf(p.members, w, x, y, s, q);
    }
  }

  lemma {:induction false} FilledStableOf(ms: seq<Policy>, w: Witness, x: Inputs, y: Inputs, s: nat, q: nat)
    requires FilledOf(ms, w, x, s, q) && SameSlots(x, y, s, s + SecretsOf(ms), q, q + PublicsOf(ms), AuxPositionsOf(ms, s))
    ensures FilledOf(ms, w, y, s, q)
    decreases ms, 0
  {
    hide Inputs.Secret, Inputs.Public, Filled, AuxPositions, Secrets, Publics, Increasing;
    if ms != [] {
      var (front, last) := (ms[..|ms| - 1], ms[|ms| - 1]);
      var (s', q') := (s + SecretsOf(front), q + PublicsOf(front));
      AuxOrderedOf(front, s);
      AuxOrdered(last, s');
      SlotsSplit(x, y, s, s', s' + Secrets(last), q, q', q' + Publics(last), AuxPositionsOf(front, s), AuxPositions(last, s'));
      FilledStableOf(front, w, x, y, s, q);
      FilledStable(last, w, x, y, s', q');
    }
  }

  lemma SlotsSplit(x: Inputs, y: Inputs, s: nat, s': nat, s'': nat, q: nat, q': nat, q'': nat, free: seq<nat>, free': seq<nat>)
    requires s <= s' <= s'' && q <= q' <= q'' && Increasing(free, s, s') && Increasing(free', s', s'')
    requires SameSlots(x, y, s, s'', q, q'', free + free')
    ensures SameSlots(x, y, s, s', q, q', free) && SameSlots(x, y, s', s'', q', q'', free')
  {
    hide Inputs.Secret, Inputs.Public;
  }

  /** Which witnesses the filler accepts: it asks for credentials only. */
  predicate CredentialsCovered(w: Witness, p: Policy)
    decreases p
  {
    match p
    case AmountAtMost(_) => true
    case Credential(id) => w.SecretFor(id).Some?
    case _ => forall i :: 0 <= i < |p.members| ==> CredentialsCovered(w, p.members[i])
  }

  /** The vectors grew by exactly the policy's slots, filled from the witness. */
  ghost predicate FilledBy(p: Policy, w: Witness, before: Inputs, after: Inputs, auxBefore: seq<nat>, auxAfter: seq<nat>) {
    var (s, q) := (|before.secrets|, |before.publics|);
    && before.secrets <= after.secrets && before.publics <= after.publics
    && |after.secrets| == s + Secrets(p) && |after.publics| == q + Publics(p)
    && auxAfter == auxBefore + AuxPositions(p, s) && Filled(p, w, after, s, q)
  }

  ghost predicate FilledByAll(ms: seq<Policy>, w: Witness, before: Inputs, after: Inputs, auxBefore: seq<nat>, auxAfter: seq<nat>) {
    var (s, q) := (|before.secrets|, |before.publics|);
    && before.secrets <= after.secrets && before.publics <= after.publics
    && |after.secrets| == s + SecretsOf(ms) && |after.publics| == q + PublicsOf(ms)
    && auxAfter == auxBefore + AuxPositionsOf(ms, s) && FilledOf(ms, w, after, s, q)
  }

  lemma PrefixSlots(x: Inputs, y: Inputs, s: nat, q: nat, free: seq<nat>)
    requires x.secrets <= y.secrets && x.publics <= y.publics
    ensures SameSlots(x, y, s, |x.secrets|, q, |x.publics|, free)
  {
  }

  lemma FilledNext(ms: seq<Policy>, w: Witness, a: Inputs, b: Inputs, c: Inputs, auxA: seq<nat>, auxB: seq<nat>, auxC: seq<nat>)
    requires ms != [] && FilledByAll(ms[..|ms| - 1], w, a, b, auxA, auxB) && FilledBy(ms[|ms| - 1], w, b, c, auxB, auxC)
    ensures FilledByAll(ms, w, a, c, auxA, auxC)
  {
    hide Filled, Secrets, Publics, AuxPositions, SameSlots;
    var front := ms[..|ms| - 1];
    PrefixSlots(b, c, |a.secrets|, |a.publics|, AuxPositionsOf(front, |a.secrets|));
    FilledStableOf(front, w, b, c, |a.secrets|, |a.publics|);
  }

  datatype Filling = Filling(secrets: seq<Elem>, publics: seq<Elem>, auxPositions: seq<nat>)
  {
    function Inputs(): CircuitGates.Inputs { CircuitGates.Inputs(secrets, publics) }
  }

  method Fill(p: Policy, w: Witness, f: Filling) returns (r: Result<Filling, PolicyError>)
    ensures r.Ok? <==> CredentialsCovered(w, p)
    ensures r.Err? ==> r.error == WitnessMismatch
    ensures r.Ok? ==> FilledBy(p, w, f.Inputs(), r.value.Inputs(), f.auxPositions, r.value.auxPositions)
    decreases p, 1
  {
    hide FilledBy, FilledByAll;
    match p {
      case Credential(id) =>
        var secret := w.SecretFor(id);
        if secret.None? {
          return Err(WitnessMismatch);
        }
        var filled := Filling(f.secrets + [DigestToField(CredentialCommitment(secret.value))],
                              f.publics + [DigestToField(id)], f.auxPositions);
        CredentialFilled(id, w, f, filled);
        return Ok(filled);
      case AmountAtMost(limit) =>
        var amount := match w.amount case Some(a) => a case None => 0;
        var secrets := f.secrets + [Fe(amount)];
        var valueBits := Decompose(amount);
        var differenceBits := Decompose(WrappingSub(limit, amount));
        secrets := secrets + (valueBits + differenceBits);
        var filled := Filling(secrets, f.publics + [Fe(limit)], f.auxPositions);
        AmountFilled(limit, w, f, filled);
        return Ok(filled);
      case Threshold(k, ms) =>
        var members := FillMembers(p, w, f);
        if members.Err? {
          return members;
        }
        var m := members.value;
        var filled := m.(auxPositions := m.auxPositions + [|m.secrets|], secrets := m.secrets + [0]);
        ThresholdFilled(k, ms, w, f, m, filled);
        return Ok(filled);
      case _ =>
        r := FillMembers(p, w, f);
        if r.Ok? {
          CombinatorFilled(p, w, f, r.value);
        }
    }
  }

  method FillMembers(p: Policy, w: Witness, f: Filling) returns (r: Result<Filling, PolicyError>)
    requires !p.IsLeaf()
    ensures r.Ok? <==> CredentialsCovered(w, p)
    ensures r.Err? ==> r.error == WitnessMismatch
    ensures r.Ok? ==> FilledByAll(p.members, w, f.Inputs(), r.value.Inputs(), f.auxPositions, r.value.auxPositions)
    decreases p, 0
  {
    hide FilledBy, FilledByAll;
    var ms := p.members;
    var filling := f;
    NothingFilled(w, f);
    for i := 0 to |ms|
      invariant forall j :: 0 <= j < i ==> CredentialsCovered(w, ms[j])
      invariant FilledByAll(ms[..i], w, f.Inputs(), filling.Inputs(), f.auxPositions, filling.auxPositions)
    {
      var member := Fill(ms[i], w, filling);
      if member.Err? {
        return member;
      }
      assert ms[..i + 1][..i] == ms[..i];
      FilledNext(ms[..i + 1], w, f.Inputs(), filling.Inputs(), member.value.Inputs(),
                 f.auxPositions, filling.auxPositions, member.value.auxPositions);
      filling := member.value;
    }
    assert ms[..|ms|] == ms;
    return Ok(filling);
  }

  lemma NothingFilled(w: Witness, f: Filling)
    ensures FilledByAll([], w, f.Inputs(), f.Inputs(), f.auxPositions, f.auxPositions)
  {
  }

  lemma CredentialFilled(id: CredentialId, w: Witness, f: Filling, g: Filling)
    requires w.SecretFor(id).Some?
    requires g == Filling(f.secrets + [DigestToField(CredentialCommitment(w.SecretFor(id).value))],
                          f.publics + [DigestToField(id)], f.auxPositions)
    ensures FilledBy(Credential(id), w, f.Inputs(), g.Inputs(), f.auxPositions, g.auxPositions)
  {
    hide DigestToField, Witness.SecretFor;
  }

  lemma AmountFilled(limit: U64, w: Witness, f: Filling, g: Filling)
    requires var (a, d) := (AmountOrZero(w), WrappingSub(limit, AmountOrZero(w)));
             g == Filling(f.secrets + [Fe(a)] + (Digits(a, 64) + Digits(d, 64)), f.publics + [Fe(limit)], f.auxPositions)
    ensures FilledBy(AmountAtMost(limit), w, f.Inputs(), g.Inputs(), f.auxPositions, g.auxPositions)
  {
    hide Digits, Fe, WrappingSub;
    var (a, d, s) := (AmountOrZero(w), WrappingSub(limit, AmountOrZero(w)), |f.secrets|);
    assert g.secrets[s + 1..s + 65] == Digits(a, 64) && g.secrets[s + 65..s + 129] == Digits(d, 64);
    BlockAt(g.Inputs(), s + 1, Digits(a, 64));
    BlockAt(g.Inputs(), s + 65, Digits(d, 64));
  }

  lemma BlockAt(x: Inputs, s: nat, ds: seq<Elem>)
    requires s + |ds| <= |x.secrets| && x.secrets[s..s + |ds|] == ds
    ensures SecretBlock(x, s, |ds|) == ds
  {
    forall i | 0 <= i < |ds|
      ensures SecretBlock(x, s, |ds|)[i] == ds[i]
    {
      assert ds[i] == x.secrets[s..s + |ds|][i] == x.secrets[s + i] == x.Secret(s + i);
    }
  }

  lemma ThresholdFilled(k: U16, ms: seq<Policy>, w: Witness, f: Filling, m: Filling, g: Filling)
    requires FilledByAll(ms, w, f.Inputs(), m.Inputs(), f.auxPositions, m.auxPositions)
    requires g == m.(auxPositions := m.auxPositions + [|m.secrets|], secrets := m.secrets + [0])
    ensures FilledBy(Threshold(k, ms), w, f.Inputs(), g.Inputs(), f.auxPositions, g.auxPositions)
  {
    hide FilledOf, SecretsOf, PublicsOf, AuxPositionsOf, SameSlots;
    PrefixSlots(m.Inputs(), g.Inputs(), |f.secrets|, |f.publics|, AuxPositionsOf(ms, |f.secrets|));
    FilledStableOf(ms, w, m.Inputs(), g.Inputs(), |f.secrets|, |f.publics|);
  }

  lemma CombinatorFilled(p: Policy, w: Witness, f: Filling, m: Filling)
    requires (p.And? || p.Or?) && FilledByAll(p.members, w, f.Inputs(), m.Inputs(), f.auxPositions, m.auxPositions)
    ensures FilledBy(p, w, f.Inputs(), m.Inputs(), f.auxPositions, m.auxPositions)
  {
    hide FilledOf, SecretsOf, PublicsOf, AuxPositionsOf;
  }

  // ---- the auxiliary solver ----------------------------------------------------------------------------

  /** Increasing auxiliary positions, each with a target. */
  predicate Solvable(nodes: seq<Node>, targets: seq<NodeId>, aux: seq<nat>, n: nat) {
    |targets| == |aux| && Defined(nodes, targets) && Increasing(aux, 0, n)
  }

  /** Moreover every target reads only earlier inputs. */
  ghost predicate SolverReady(nodes: seq<Node>, targets: seq<NodeId>, aux: seq<nat>, n: nat) {
    && Solvable(nodes, targets, aux, n)
    && forall j :: 0 <= j < |aux| ==> SecretsBefore(nodes, targets[j] + 1) <= aux[j]
  }

  function Desired(nodes: seq<Node>, targets: seq<NodeId>, x: Inputs): (ds: seq<Elem>)
    requires Defined(nodes, targets)
    ensures |ds| == |targets|
  {
    seq(|targets|, j requires 0 <= j < |targets| => Inv(At(nodes, x, targets[j])))
  }

  /** y is x after one round: every auxiliary is overwritten with the inverse of its discriminant in
      x, or with zero, and nothing else changes. */
  ghost predicate Round(nodes: seq<Node>, targets: seq<NodeId>, aux: seq<nat>, x: Inputs, y: Inputs)
    requires Defined(nodes, targets) && |targets| == |aux|
  {
    && y.publics == x.publics && |y.secrets| == |x.secrets|
    && (forall k: nat :: k !in aux ==> y.Secret(k) == x.Secret(k))
    && (forall j :: 0 <= j < |aux| ==> y.Secret(aux[j]) == Desired(nodes, targets, x)[j])
  }

  /** The first r auxiliaries hold the inverses of their discriminants. */
  ghost predicate Settled(nodes: seq<Node>, targets: seq<NodeId>, aux: seq<nat>, x: Inputs, r: nat)
    requires Defined(nodes, targets) && |targets| == |aux|
  {
    forall j :: 0 <= j < r && j < |aux| ==> x.Secret(aux[j]) == Inv(At(nodes, x, targets[j]))
  }

  /** Every round settles one more auxiliary, and settled ones never change again. */
  lemma RoundSettles(nodes: seq<Node>, targets: seq<NodeId>, aux: seq<nat>, x: Inputs, y: Inputs, r: nat)
    requires SolverReady(nodes, targets, aux, |x.secrets|) && Round(nodes, targets, aux, x, y)
    requires Settled(nodes, targets, aux, x, r)
    ensures Settled(nodes, targets, aux, y, r + 1)
    ensures forall j :: 0 <= j < r && j < |aux| ==> y.Secret(aux[j]) == x.Secret(aux[j])
  {
    hide Inv;
    forall j | 0 <= j < r + 1 && j < |aux|
      ensures At(nodes, y, targets[j]) == At(nodes, x, targets[j])
    {
      forall k | 0 <= k < aux[j]
        ensures Slot(x.secrets, k) == Slot(y.secrets, k)
      {
        if k in aux {
          var i :| 0 <= i < |aux| && aux[i] == k;
          assert i < j;
          assert y.Secret(aux[i]) == x.Secret(aux[i]);
        } else {
          assert y.Secret(k) == x.Secret(k);
        }
      }
      ValueReadsEarlierSecrets(nodes, x.secrets, y.secrets, x.publics, targets[j], aux[j]);
    }
  }

  method SolveRound(c: Circuit, targets: seq<NodeId>, aux: seq<nat>, secrets: seq<Elem>, publics: seq<Elem>)
    returns (secrets': seq<Elem>, changed: bool)
    requires ValidCircuit(c) && |secrets| == c.numSecretInputs && |publics| == c.numPublicInputs
    requires Solvable(c.nodes, targets, aux, |secrets|)
    ensures Round(c.nodes, targets, aux, Inputs(secrets, publics), Inputs(secrets', publics))
    ensures !changed ==> secrets' == secrets
  {
    hide At, Inv, Value, ValidCircuit;
    ghost var x := Inputs(secrets, publics);
    var evaluated := EvaluateAllNodes(c, secrets, publics);
    var values := evaluated.value;
    secrets', changed := secrets, false;
    AllValues(c, x, values);
    for j := 0 to |aux|
      invariant |secrets'| == |secrets| && (!changed ==> secrets' == secrets)
      invariant forall k :: 0 <= k < |secrets| && k !in aux[..j] ==> secrets'[k] == secrets[k]
      invariant forall i :: 0 <= i < j ==> secrets'[aux[i]] == Inv(At(c.nodes, x, targets[i]))
    {
      var desired := Inv(values[targets[j]]);
      if secrets'[aux[j]] != desired {
        secrets' := secrets'[aux[j] := desired];
        changed := true;
      }
      assert aux[..j + 1] == aux[..j] + [aux[j]];
    }
    assert aux[..|aux|] == aux;
  }

  lemma AllValues(c: Circuit, x: Inputs, values: seq<Elem>)
    requires |values| == |c.nodes|
    requires forall i :: 0 <= i < |c.nodes| ==> values[i] == Value(c.nodes, x.secrets, x.publics, i)
    ensures forall i :: 0 <= i < |c.nodes| ==> values[i] == At(c.nodes, x, i)
  {
  }

  /** Inputs of the wrong number are refused. Otherwise auxiliaries and targets are paired off in
      order, no other input is touched, and when the auxiliaries fit the circuit one round more than
      there are of them is enough: every one ends as the inverse of its discriminant. */
  method SolveAuxiliaries(c: Circuit, targets: seq<NodeId>, aux: seq<nat>, secrets: seq<Elem>, publics: seq<Elem>)
    returns (r: Result<seq<Elem>, PolicyError>)
    requires ValidCircuit(c) && Defined(c.nodes, targets) && Increasing(aux, 0, |secrets|)
    ensures r.Ok? <==> |secrets| == c.numSecretInputs && |publics| == c.numPublicInputs
    ensures r.Err? ==> r.error == CircuitValidationFailure
    ensures r.Ok? ==> |r.value| == |secrets| && forall k: nat :: k !in aux ==> Slot(r.value, k) == Slot(secrets, k)
    ensures r.Ok? && SolverReady(c.nodes, targets, aux, |secrets|) ==>
              Settled(c.nodes, targets, aux, Inputs(r.value, publics), |aux|)
  {
    hide At, Inv, ValidCircuit, Round;
    if |secrets| != c.numSecretInputs || |publics| != c.numPublicInputs {
      return Err(CircuitValidationFailure);
    }
    var pairs := if |aux| <= |targets| then |aux| else |targets|;
    var (ts, ks) := (targets[..pairs], aux[..pairs]);
    ghost var ready := SolverReady(c.nodes, targets, aux, |secrets|);
    assert ready ==> ts == targets && ks == aux;
    var solved := secrets;
    for round := 0 to |targets| + 1
      invariant |solved| == |secrets|
      invariant forall k: nat :: k !in aux ==> Slot(solved, k) == Slot(secrets, k)
      invariant ready ==> Settled(c.nodes, ts, ks, Inputs(solved, publics), round)
    {
      var next, changed := SolveRound(c, ts, ks, solved, publics);
      RoundKeeps(c.nodes, ts, ks, Inputs(solved, publics), Inputs(next, publics));
      if ready {
        RoundSettles(c.nodes, ts, ks, Inputs(solved, publics), Inputs(next, publics), round);
      }
      if !changed {
        FixedIsSettled(c.nodes, ts, ks, Inputs(solved, publics));
        return Ok(solved);
      }
      assert forall k: nat :: k !in aux ==> k !in ks;
      solved := next;
    }
    return Ok(solved);
  }

  lemma RoundKeeps(nodes: seq<Node>, targets: seq<NodeId>, aux: seq<nat>, x: Inputs, y: Inputs)
    requires Defined(nodes, targets) && |targets| == |aux| && Round(nodes, targets, aux, x, y)
    ensures |y.secrets| == |x.secrets| && forall k: nat :: k !in aux ==> Slot(y.secrets, k) == Slot(x.secrets, k)
  {
    forall k: nat | k !in aux
      ensures Slot(y.secrets, k) == Slot(x.secrets, k)
    {
      assert y.Secret(k) == x.Secret(k);
    }
  }

  lemma FixedIsSettled(nodes: seq<Node>, targets: seq<NodeId>, aux: seq<nat>, x: Inputs)
    requires Defined(nodes, targets) && |targets| == |aux| && Round(nodes, targets, aux, x, x)
    ensures Settled(nodes, targets, aux, x, |aux|)
  {
    hide At, Inv;
  }

  // ---- inputs and evaluation ---------------------------------------------------------------------------

  /** The inputs the builder hands out: filled from the witness, every auxiliary solved. */
  ghost predicate BuiltFor(n: Policy, w: Witness, x: Inputs) {
    && |x.secrets| == Secrets(n) && |x.publics| == Publics(n)
    && Filled(n, w, x, 0, 0) && Solved(Discriminants(n, x, 0, 0), AuxPositions(n, 0), x)
  }

  lemma SolvedFromTargets(c: CompiledPolicy, n: Policy, x: Inputs)
    requires Implements(c, n) && Settled(c.circuit.nodes, c.auxiliaryTargets, AuxPositions(n, 0), x, |AuxPositions(n, 0)|)
    ensures Solved(Discriminants(n, x, 0, 0), AuxPositions(n, 0), x)
  {
    hide At, Inv, Discriminants, Wire, Inputs.Secret, ValidCircuit;
    var ds := AtAll(c.circuit.nodes, x, c.auxiliaryTargets);
    assert ds == Discriminants(n, x, 0, 0);
  }

  lemma ReadyToSolve(c: CompiledPolicy, n: Policy)
    requires Implements(c, n)
    ensures ValidCircuit(c.circuit) && c.circuit.numSecretInputs == Secrets(n) && c.circuit.numPublicInputs == Publics(n)
    ensures SolverReady(c.circuit.nodes, c.auxiliaryTargets, AuxPositions(n, 0), Secrets(n))
    ensures Defined(c.circuit.nodes, c.auxiliaryTargets)
  {
    hide At, AtAll, Discriminants, Wire, Increasing, ValidCircuit;
    AuxOrdered(n, 0);
  }

  /** The slots hold what the witness supplies, whatever the auxiliaries. */
  ghost predicate FilledFor(n: Policy, w: Witness, x: Inputs) {
    |x.secrets| == Secrets(n) && |x.publics| == Publics(n) && Filled(n, w, x, 0, 0)
  }

  /** Inputs for a compiled circuit, filled from a policy and a witness. A circuit compiled from
      another policy is refused when it declares other numbers of inputs; with the circuit compiled
      from the same policy every auxiliary is solved. */
  method BuildInputs(c: CompiledPolicy, ghost m: Policy, p: Policy, w: Witness) returns (r: Result<Inputs, PolicyError>)
    requires Implements(c, m)
    ensures r.Ok? <==> && CredentialsCovered(w, Normalize(p))
                       && c.circuit.numSecretInputs == Secrets(Normalize(p)) && c.circuit.numPublicInputs == Publics(Normalize(p))
    ensures r.Err? ==> r.error == if CredentialsCovered(w, Normalize(p)) then CircuitValidationFailure else WitnessMismatch
    ensures r.Ok? ==> FilledFor(Normalize(p), w, r.value)
    ensures r.Ok? && m == Normalize(p) ==> BuiltFor(Normalize(p), w, r.value)
  {
    hide Implements, Normalize, Filled, Round, Settled, SolverReady, Discriminants, AuxPositions, ValidCircuit, Solved, SameSlots, Increasing;
    var normalized := NormalizeNode(p);
    var filling := Fill(normalized, w, Filling([], [], []));
    if filling.Err? {
      return Err(filling.error);
    }
    var f := filling.value;
    ReadyToSolve(c, m);
    AuxOrdered(normalized, 0);
    assert f.auxPositions == AuxPositions(normalized, 0) && |f.secrets| == 0 + Secrets(normalized);
    var solved := SolveAuxiliaries(c.circuit, c.auxiliaryTargets, f.auxPositions, f.secrets, f.publics);
    if solved.Err? {
      return Err(solved.error);
    }
    SolvingKeepsSlots(f.Inputs(), Inputs(solved.value, f.publics), Secrets(normalized), Publics(normalized), f.auxPositions);
    FilledStable(normalized, w, f.Inputs(), Inputs(solved.value, f.publics), 0, 0);
    if m == Normalize(p) {
      SolvedFromTargets(c, normalized, Inputs(solved.value, f.publics));
    }
    return Ok(Inputs(solved.value, f.publics));
  }

  lemma SolvingKeepsSlots(x: Inputs, y: Inputs, s: nat, q: nat, aux: seq<nat>)
    requires x.publics == y.publics && forall k: nat :: k !in aux ==> Slot(y.secrets, k) == Slot(x.secrets, k)
    ensures SameSlots(x, y, 0, s, 0, q, aux)
  {
  }

  /** The policy with digests compared as field elements, and a missing amount read as zero. */
  predicate FieldSatisfied(p: Policy, w: Witness)
    decreases p, 1
  {
    match p
    case AmountAtMost(limit) => AmountOrZero(w) <= limit
    case Credential(id) => FieldUnlocks(w, id)
    case Threshold(k, ms) => FieldCount(ms, w) >= k
    case And(ms) => forall i :: 0 <= i < |ms| ==> FieldSatisfied(ms[i], w)
    case Or(ms) => exists i :: 0 <= i < |ms| && FieldSatisfied(ms[i], w)
  }

  /** The secret's commitment and the id denote integers that are congruent modulo p. */
  predicate FieldUnlocks(w: Witness, id: CredentialId) {
    var s := w.SecretFor(id);
    s.Some? && Congruent(DigestNumber(CredentialCommitment(s.value)), DigestNumber(id))
  }

  function FieldCount(ms: seq<Policy>, w: Witness): nat
    decreases ms, 0
  {
    if ms == [] then 0
    else
      var i := |ms| - 1;
      FieldCount(ms[..i], w) + if FieldSatisfied(ms[i], w) then 1 else 0
  }

  /** On filled inputs the meaning of the slots is the meaning of the policy up to digest reduction,
      and the digits are honest. */
  lemma {:induction false} FilledMeaning(p: Policy, w: Witness, x: Inputs, s: nat, q: nat)
    requires Wide() && Filled(p, w, x, s, q)
    ensures Holds(p, x, s, q) == FieldSatisfied(p, w) && DigitsHonest(p, x, s, q)
    decreases p, 1
  {
    hide Inputs.Secret, Inputs.Public, Digits, DigestToField, DigestNumber, Congruent, Witness.SecretFor, HoldsOf, SecretBlock, Fe;
    match p {
      case Credential(id) =>
        DigestsMerge(CredentialCommitment(w.SecretFor(id).value), id);
      case AmountAtMost(limit) =>
        FeOfSmall(AmountOrZero(w));
        FeOfSmall(limit);
      case Threshold(k, ms) =>
        FilledMeaningOf(ms, w, x, s, q);
      case _ =>
        FilledMeaningOf(p.members, w, x, s, q);
    }
  }

  lemma {:induction false} FilledMeaningOf(ms: seq<Policy>, w: Witness, x: Inputs, s: nat, q: nat)
    requires Wide() && FilledOf(ms, w, x, s, q)
    ensures forall i :: 0 <= i < |ms| ==> HoldsOf(ms, x, s, q)[i] == FieldSatisfied(ms[i], w)
    ensures Trues(HoldsOf(ms, x, s, q)) == FieldCount(ms, w) && DigitsHonestOf(ms, x, s, q)
    decreases ms, 0
  {
    hide Filled, Holds, FieldSatisfied, DigitsHonest, SecretsOf, PublicsOf, Trues, Wide;
    NoTrues();
    if ms != [] {
      var (front, last) := (ms[..|ms| - 1], ms[|ms| - 1]);
      FilledMeaningOf(front, w, x, s, q);
      FilledMeaning(last, w, x, s + SecretsOf(front), q + PublicsOf(front));
      TruesSnoc(HoldsOf(front, x, s, q), Holds(last, x, s + SecretsOf(front), q + PublicsOf(front)));
    }
  }

  lemma NoTrues()
    ensures Trues([]) == 0
  {
  }

  lemma TruesSnoc(hs: seq<bool>, h: bool)
    ensures Trues(hs + [h]) == Trues(hs) + if h then 1 else 0
  {
    assert (hs + [h])[..|hs|] == hs;
  }

  /** What the published outputs say: constraints that are all zero, and the wire of the root. */
  lemma OutputsRead(c: CompiledPolicy, n: Policy, x: Inputs)
    requires Implements(c, n)
    ensures OutputsDefined(c.circuit) && |c.circuit.outputs| == c.rangeCheckOutputs + 1
    ensures ConstraintsZero(Discriminants(n, x, 0, 0), AuxPositions(n, 0), x) <==>
            forall j :: 0 <= j < c.rangeCheckOutputs ==> At(c.circuit.nodes, x, c.circuit.outputs[j]) == 0
    ensures At(c.circuit.nodes, x, c.circuit.outputs[c.rangeCheckOutputs]) == Wire(n, x, 0, 0)
  {
    hide At, Booleanity, Mul, Discriminants, AuxPositions, Wire, Inputs.Secret;
    var (nodes, outputs, ds, aux) := (c.circuit.nodes, c.circuit.outputs, Discriminants(n, x, 0, 0), AuxPositions(n, 0));
    assert AtAll(nodes, x, c.auxiliaryTargets) == ds;
    forall j | 0 <= j < c.rangeCheckOutputs
      ensures At(nodes, x, outputs[j]) == Booleanity(Mul(ds[j], x.Secret(aux[j])))
    {
      assert ds[j] == At(nodes, x, c.auxiliaryTargets[j]);
    }
  }

  /** Soundness of the published circuit: whatever the secret inputs, as long as the digit slots are
      binary and the limits 64-bit, zero constraints and a root of one mean the policy holds on the
      input slots. */
  lemma CircuitSoundness(c: CompiledPolicy, n: Policy, x: Inputs)
    requires Wide() && Implements(c, n) && ValidPolicy(n) && LimitsFit(n, x, 0) && DigitsBinary(n, x, 0)
    requires OutputsDefined(c.circuit) && |c.circuit.outputs| == c.rangeCheckOutputs + 1
    requires forall j :: 0 <= j < c.rangeCheckOutputs ==> At(c.circuit.nodes, x, c.circuit.outputs[j]) == 0
    ensures Sound(n, x, 0, 0)
    ensures At(c.circuit.nodes, x, c.circuit.outputs[c.rangeCheckOutputs]) == 1 ==> Holds(n, x, 0, 0)
  {
    hide Implements, ConstraintsZero, Discriminants, AuxPositions, WellShaped, Holds, Wire, At, LimitsFit, DigitsBinary, OutputsDefined;
    OutputsRead(c, n, x);
    ShapedIsEmittable(n);
    ConstraintSoundness(n, x, 0, 0);
  }

  /** Evaluates the compiled circuit on built inputs. For the circuit compiled from the same policy
      the answer is whether the normal form is satisfied with digests compared as field elements. */
  method ReferenceEvaluate(c: CompiledPolicy, ghost m: Policy, p: Policy, w: Witness) returns (r: Result<bool, PolicyError>)
    requires Wide() && Implements(c, m)
    ensures r.Ok? <==> && CredentialsCovered(w, Normalize(p))
                       && c.circuit.numSecretInputs == Secrets(Normalize(p)) && c.circuit.numPublicInputs == Publics(Normalize(p))
    ensures r.Err? ==> r.error == if CredentialsCovered(w, Normalize(p)) then CircuitValidationFailure else WitnessMismatch
    ensures r.Ok? && m == Normalize(p) && ValidPolicy(m) ==> r.value == FieldSatisfied(Normalize(p), w)
  {
    hide Implements, Normalize, ConstraintsZero, Discriminants, AuxPositions, WellShaped, Wire, At, Holds, FieldSatisfied, BuiltFor, Filled;
    var inputs := BuildInputs(c, m, p, w);
    if inputs.Err? {
      return Err(inputs.error);
    }
    var x := inputs.value;
    ReadyToSolve(c, m);
    OutputsRead(c, m, x);
    if m == Normalize(p) && ValidPolicy(m) {
      BuiltIsExact(m, w, x);
    }
    var evaluated := EvaluateAllNodes(c.circuit, x.secrets, x.publics);
    var values := evaluated.value;
    AllValues(c.circuit, x, values);
    for j := 0 to c.rangeCheckOutputs
      invariant forall i :: 0 <= i < j ==> At(c.circuit.nodes, x, c.circuit.outputs[i]) == 0
    {
      if values[c.circuit.outputs[j]] != 0 {
        return Ok(false);
      }
    }
    var root := c.circuit.outputs[|c.circuit.outputs| - 1];
    return Ok(values[root] == 1);
  }

  lemma BuiltIsExact(n: Policy, w: Witness, x: Inputs)
    requires Wide() && ValidPolicy(n) && BuiltFor(n, w, x)
    ensures ConstraintsZero(Discriminants(n, x, 0, 0), AuxPositions(n, 0), x)
    ensures Wire(n, x, 0, 0) == 1 <==> FieldSatisfied(n, w)
  {
    hide ConstraintsZero, Discriminants, AuxPositions, Wire, Holds, FieldSatisfied, Filled, Solved, WellShaped;
    ShapedIsEmittable(n);
    FilledMeaning(n, w, x, 0, 0);
    SolvedWires(n, x, 0, 0);
  }

  // ---- compilation preserves meaning -------------------------------------------------------------------

  /** Among these ids, the witness compares no commitment with a different id whose integer is
      congruent to its own modulo p. */
  predicate DigestsApart(w: Witness, ids: seq<CredentialId>) {
    forall id :: id in ids ==> FieldUnlocks(w, id) ==> Unlocks(w, id)
  }

  predicate Among(ids: seq<CredentialId>, all: seq<CredentialId>) {
    forall id :: id in ids ==> id in all
  }

  lemma {:induction false} IdsOfMembers(ms: seq<Policy>, id: CredentialId)
    ensures id in CredentialIdsOf(ms) <==> exists i :: 0 <= i < |ms| && id in CredentialIds(ms[i])
  {
    hide CredentialIds;
    if ms != [] {
      var n := |ms| - 1;
      IdsOfMembers(ms[..n], id);
      assert forall i :: 0 <= i < n ==> ms[..n][i] == ms[i];
    }
  }

  lemma MemberIds(p: Policy, i: nat)
    requires !p.IsLeaf() && i < |p.members|
    ensures Among(CredentialIds(p.members[i]), CredentialIds(p))
  {
    hide CredentialIdsOf;
    forall id | id in CredentialIds(p.members[i])
      ensures id in CredentialIds(p)
    {
      IdsOfMembers(p.members, id);
    }
  }

  lemma RebuiltIds(p: Policy, ids: seq<CredentialId>)
    requires !p.IsLeaf() && forall i :: 0 <= i < |p.members| ==> Among(CredentialIds(p.members[i]), ids)
    ensures Among(CredentialIds(p), ids)
  {
    hide CredentialIdsOf;
    forall id | id in CredentialIds(p)
      ensures id in ids
    {
      IdsOfMembers(p.members, id);
      var i :| 0 <= i < |p.members| && id in CredentialIds(p.members[i]);
    }
  }

  /** Normalising brings in no credential. */
  lemma {:induction false} NormalIds(p: Policy, ids: seq<CredentialId>)
    requires Among(CredentialIds(p), ids)
    ensures Among(CredentialIds(Normalize(p)), ids)
    decreases p
  {
    hide CredentialIds, CredentialIdsOf, Arrange, SortByEncoding;
    if !p.IsLeaf() {
      var ns := NormalizeAll(p.members);
      forall i | 0 <= i < |ns|
        ensures Among(CredentialIds(ns[i]), ids)
      {
        MemberIds(p, i);
        NormalIds(p.members[i], ids);
      }
      if p.Threshold? {
        SameElements(SortByEncoding(ns), ns);
        forall i | 0 <= i < |ns|
          ensures Among(CredentialIds(SortByEncoding(ns)[i]), ids)
        {
          assert SortByEncoding(ns)[i] in ns;
        }
        RebuiltIds(Normalize(p), ids);
      } else {
        ArrangedIds(p.And?, ns, ids);
      }
    }
  }

  lemma ArrangedIds(conj: bool, ns: seq<Policy>, ids: seq<CredentialId>)
    requires forall i :: 0 <= i < |ns| ==> Among(CredentialIds(ns[i]), ids)
    ensures Among(CredentialIds(Collapse(conj, Arrange(conj, ns))), ids)
  {
    hide CredentialIds, Arrange;
    var u := Arrange(conj, ns);
    forall k | 0 <= k < |u|
      ensures Among(CredentialIds(u[k]), ids)
    {
      var i := ArrangedFrom(conj, ns, u[k]);
      if Is(conj, ns[i]) {
        var j :| 0 <= j < |ns[i].members| && ns[i].members[j] == u[k];
        MemberIds(ns[i], j);
      }
    }
    if |u| != 1 {
      RebuiltIds(Rebuild(conj, u), ids);
    }
  }

  lemma {:induction false} FieldMeaning(p: Policy, w: Witness, ids: seq<CredentialId>)
    requires Covers(w, p) && Among(CredentialIds(p), ids)
    ensures Satisfied(p, w) ==> FieldSatisfied(p, w)
    ensures DigestsApart(w, ids) ==> FieldSatisfied(p, w) == Satisfied(p, w)
    decreases p, 1
  {
    hide DigestToField, Witness.SecretFor, CredentialIdsOf;
    match p {
      case AmountAtMost(_) =>
      case Credential(id) =>
        UnlockedInField(w, id);
        assert CredentialIds(p)[0] == id;
      case Threshold(k, ms) =>
        FieldMeaningOf(p, |ms|, w, ids);
        assert ms[..|ms|] == ms;
      case _ =>
        FieldMeaningOf(p, |p.members|, w, ids);
    }
  }

  lemma UnlockedInField(w: Witness, id: CredentialId)
    ensures Unlocks(w, id) ==> FieldUnlocks(w, id)
  {
    hide DigestToField, Witness.SecretFor;
  }

  lemma {:induction false} FieldMeaningOf(p: Policy, i: nat, w: Witness, ids: seq<CredentialId>)
    requires !p.IsLeaf() && i <= |p.members| && Covers(w, p) && Among(CredentialIds(p), ids)
    ensures forall j :: 0 <= j < i ==> Satisfied(p.members[j], w) ==> FieldSatisfied(p.members[j], w)
    ensures DigestsApart(w, ids) ==> forall j :: 0 <= j < i ==> FieldSatisfied(p.members[j], w) == Satisfied(p.members[j], w)
    ensures SatisfiedCount(p.members[..i], w) <= FieldCount(p.members[..i], w)
    ensures DigestsApart(w, ids) ==> FieldCount(p.members[..i], w) == SatisfiedCount(p.members[..i], w)
    decreases p, 0, i
  {
    hide Satisfied, FieldSatisfied, DigestsApart, CredentialIds;
    if i > 0 {
      FieldMeaningOf(p, i - 1, w, ids);
      MemberCovered(w, p, i - 1);
      MemberIds(p, i - 1);
      FieldMeaning(p.members[i - 1], w, ids);
      assert p.members[..i][..i - 1] == p.members[..i - 1];
    }
  }

  lemma MemberCovered(w: Witness, p: Policy, i: nat)
    requires !p.IsLeaf() && i < |p.members| && Covers(w, p)
    ensures Covers(w, p.members[i])
  {
  }

  lemma {:induction false} CoversCredentials(w: Witness, p: Policy)
    requires Covers(w, p)
    ensures CredentialsCovered(w, p)
    decreases p
  {
    hide Witness.SecretFor;
    if !p.IsLeaf() {
      forall i | 0 <= i < |p.members|
        ensures CredentialsCovered(w, p.members[i])
      {
        MemberCovered(w, p, i);
        CoversCredentials(w, p.members[i]);
      }
    }
  }

  /** The compiled circuit agrees with the evaluator of the original policy: it accepts whatever the
      evaluator authorises, and only that unless two digests that the policy compares merge modulo p. */
  lemma CompilationPreservesMeaning(p: Policy, w: Witness)
    requires CountsFit(p) && Covers(w, p)
    ensures CredentialsCovered(w, Normalize(p))
    ensures Satisfied(p, w) ==> FieldSatisfied(Normalize(p), w)
    ensures DigestsApart(w, CredentialIds(p)) ==> FieldSatisfied(Normalize(p), w) == Satisfied(p, w)
  {
    hide Satisfied, FieldSatisfied, Covers, CredentialsCovered, DigestsApart, Normalize, CredentialIds;
    NormalizeKeepsMeaning(p, w);
    CoversCredentials(w, Normalize(p));
    NormalIds(p, CredentialIds(p));
    FieldMeaning(Normalize(p), w, CredentialIds(p));
  }

  /** The circuit agrees with the evaluator on every policy over these credentials? */
  ghost predicate AgreesOn(w: Witness, ids: seq<CredentialId>) {
    forall p: Policy :: CountsFit(p) && Covers(w, p) && Among(CredentialIds(p), ids) ==>
                          FieldSatisfied(Normalize(p), w) == Satisfied(p, w)
  }

  /** The condition is exact: circuit and evaluator agree on every covered policy over some
      credentials exactly when no two of the compared digests merge. */
  lemma AgreementNeedsApartDigests(w: Witness, ids: seq<CredentialId>)
    ensures AgreesOn(w, ids) <==> DigestsApart(w, ids)
  {
    hide FieldUnlocks, Unlocks;
    if DigestsApart(w, ids) {
      forall p: Policy | CountsFit(p) && Covers(w, p) && Among(CredentialIds(p), ids)
        ensures FieldSatisfied(Normalize(p), w) == Satisfied(p, w)
      {
        hide *;
        NormalizeKeepsMeaning(p, w);
        NormalIds(p, ids);
        FieldMeaning(Normalize(p), w, ids);
      }
    }
    if AgreesOn(w, ids) {
      forall id | id in ids && FieldUnlocks(w, id)
        ensures Unlocks(w, id)
      {
        CredentialCase(w, id);
        assert FieldSatisfied(Normalize(Credential(id)), w) == Satisfied(Credential(id), w);
      }
    }
  }

  lemma CredentialCase(w: Witness, id: CredentialId)
    ensures var p := Credential(id);
            && CountsFit(p) && Normalize(p) == p && (FieldUnlocks(w, id) ==> Covers(w, p)) && CredentialIds(p) == [id]
            && FieldSatisfied(p, w) == FieldUnlocks(w, id) && Satisfied(p, w) == Unlocks(w, id)
  {
    hide DigestToField, Witness.SecretFor;
  }

  /** Compile, build inputs, evaluate: the whole circuit side against the evaluator. On a valid policy
      it fails exactly when normalising breaks a limit. */
  method CompileAndEvaluate(p: Policy, w: Witness) returns (r: Result<bool, PolicyError>)
    requires Wide() && CountsFit(p)
    ensures !ValidPolicy(Normalize(p)) ==> r.Err?
    ensures ValidPolicy(Normalize(p)) && Covers(w, p) ==>
              && r.Ok? && r.value == FieldSatisfied(Normalize(p), w)
              && (Satisfied(p, w) ==> r.value)
              && (DigestsApart(w, CredentialIds(p)) ==> r.value == Satisfied(p, w))
    ensures ValidPolicy(p) && Covers(w, p) ==> (r.Ok? <==> KeepsLimits(p))
  {
    hide Satisfied, FieldSatisfied, Covers, CredentialsCovered, DigestsApart, Normalize, Implements, CountsFit, WellShaped, CredentialIds, KeepsLimits;
    var compiled := CompileWithLayout(p);
    if ValidPolicy(p) {
      NormalizingKeepsValidity(p);
    }
    if compiled.Err? {
      return Err(compiled.error);
    }
    ReadyToSolve(compiled.value, Normalize(p));
    r := ReferenceEvaluate(compiled.value, Normalize(p), p, w);
    if Covers(w, p) {
      CompilationPreservesMeaning(p, w);
    }
  }

  // ---- digests that merge ------------------------------------------------------------------------------

  /** A wrong secret is refused, by evaluator and circuit alike, unless its commitment and the id are
      congruent modulo p. */
  lemma CredentialDecided(id: CredentialId, secret: seq<Byte>)
    ensures var (p, w, d) := (Credential(id), Witness([(id, secret)], None), CredentialCommitment(secret));
            && Covers(w, p) && (Satisfied(p, w) <==> d == id)
            && (FieldSatisfied(Normalize(p), w) <==> DigestNumber(d) % P == DigestNumber(id) % P)
            && (DigestsApart(w, CredentialIds(p)) <==> (DigestNumber(d) % P == DigestNumber(id) % P ==> d == id))
  {
    hide DigestNumber;
    var w := Witness([(id, secret)], None);
    assert w.SecretFrom(id, 0) == Some(secret);
    assert CredentialIds(Credential(id)) == [id];
  }

  /** A missing amount is read as zero: the circuit then accepts every cap, on a witness that the
      evaluator refuses as incomplete. */
  lemma MissingAmountPasses(limit: U64, w: Witness)
    requires w.amount.None?
    ensures var p := AmountAtMost(limit);
            !Covers(w, p) && CredentialsCovered(w, Normalize(p)) && FieldSatisfied(Normalize(p), w)
  {
  }

  /** The converse fails without its hypothesis: for every secret there is a valid credential policy
      that the evaluator refuses and the circuit accepts. */
  lemma MergedDigestAccepted(secret: seq<Byte>) returns (id: CredentialId)
    requires DigestsCollide()
    ensures var (p, w) := (Credential(id), Witness([(id, secret)], None));
            && ValidPolicy(p) && KeepsLimits(p) && Covers(w, p)
            && !Satisfied(p, w) && FieldSatisfied(Normalize(p), w)
  {
    hide DigestNumber, DigestsCollide, Zeros;
    id := MergedDigest(CredentialCommitment(secret));
    CredentialDecided(id, secret);
    assert CredentialsOf([]) == 0;
  }
}
