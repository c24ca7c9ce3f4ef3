/** Arithmetic circuits: an ordered DAG over the field, its structural validation, its builder
    and its plaintext reference evaluation. */
module Circuits {
  import opened Wrappers
  import opened PrimeField

  /** Node ids are positions in the node vector. */
  type NodeId = nat

  datatype Node =
    | SecretInput
    | PublicInput
    | Constant(value: Elem)
    | AddGate(a: NodeId, b: NodeId)
    | MulGate(a: NodeId, b: NodeId)
  {
    predicate IsGate() {
      AddGate? || MulGate?
    }
  }

  datatype CircuitError = InvalidReference | ForwardReference | InvalidInputCount | MissingOutput | MpcFault

  datatype Circuit = Circuit(
    nodes: seq<Node>,
    numSecretInputs: nat,
    numPublicInputs: nat,
    outputs: seq<NodeId>)

  // ---- structure ---------------------------------------------------------------------------------

  predicate OperandsBefore(node: Node, i: nat) {
    node.IsGate() ==> node.a < i && node.b < i
  }

  /** Gates refer to strictly earlier nodes, so the node vector is a topological order. */
  predicate TopologicalOrder(nodes: seq<Node>) {
    forall i :: 0 <= i < |nodes| ==> OperandsBefore(nodes[i], i)
  }

  function SecretsBefore(nodes: seq<Node>, i: nat): nat
    requires i <= |nodes|
  {
    if i == 0 then 0 else SecretsBefore(nodes, i - 1) + if nodes[i - 1].SecretInput? then 1 else 0
  }

  function PublicsBefore(nodes: seq<Node>, i: nat): nat
    requires i <= |nodes|
  {
    if i == 0 then 0 else PublicsBefore(nodes, i - 1) + if nodes[i - 1].PublicInput? then 1 else 0
  }

  predicate CountsMatch(c: Circuit) {
    && c.numSecretInputs == SecretsBefore(c.nodes, |c.nodes|)
    && c.numPublicInputs == PublicsBefore(c.nodes, |c.nodes|)
  }

  predicate OutputsDefined(c: Circuit) {
    forall k :: 0 <= k < |c.outputs| ==> c.outputs[k] < |c.nodes|
  }

  predicate ValidCircuit(c: Circuit) {
    TopologicalOrder(c.nodes) && CountsMatch(c) && |c.outputs| > 0 && OutputsDefined(c)
  }

  /** Node i is the first whose operands do not all come before it. */
  predicate FirstFault(nodes: seq<Node>, i: nat) {
    i < |nodes| && !OperandsBefore(nodes[i], i) && forall j :: 0 <= j < i ==> OperandsBefore(nodes[j], j)
  }

  /** Structural validation reports the first violated invariant. The first bad operand of the first bad
      gate decides: one outside the circuit is invalid, a later one forward. */
  method Validate(c: Circuit) returns (r: Result<(), CircuitError>)
    ensures r.Ok? <==> ValidCircuit(c)
    ensures !TopologicalOrder(c.nodes) ==>
              exists i: nat :: FirstFault(c.nodes, i) &&
                var bad := if c.nodes[i].a >= i then c.nodes[i].a else c.nodes[i].b;
                r == Err(if bad >= |c.nodes| then InvalidReference else ForwardReference)
    ensures TopologicalOrder(c.nodes) && !CountsMatch(c) ==> r == Err(InvalidInputCount)
    ensures TopologicalOrder(c.nodes) && CountsMatch(c) && c.outputs == [] ==> r == Err(MissingOutput)
    ensures TopologicalOrder(c.nodes) && CountsMatch(c) && !OutputsDefined(c) ==> r == Err(InvalidReference)
  {
    var secretLeaves, publicLeaves := 0, 0;
    for index := 0 to |c.nodes|
      invariant forall i :: 0 <= i < index ==> OperandsBefore(c.nodes[i], i)
      invariant secretLeaves == SecretsBefore(c.nodes, index)
      invariant publicLeaves == PublicsBefore(c.nodes, index)
    {
      var node := c.nodes[index];
      assert !OperandsBefore(node, index) ==> FirstFault(c.nodes, index);
      if node.IsGate() {
        if node.a >= |c.nodes| {
          return Err(InvalidReference);
        }
        if node.a >= index {
          return Err(ForwardReference);
        }
        if node.b >= |c.nodes| {
          return Err(InvalidReference);
        }
        if node.b >= index {
          return Err(ForwardReference);
        }
      }
      secretLeaves := secretLeaves + if node.SecretInput? then 1 else 0;
      publicLeaves := publicLeaves + if node.PublicInput? then 1 else 0;
    }
    if secretLeaves != c.numSecretInputs || publicLeaves != c.numPublicInputs {
      return Err(InvalidInputCount);
    }
    if c.outputs == [] {
      return Err(MissingOutput);
    }
    for k := 0 to |c.outputs|
      invariant forall j :: 0 <= j < k ==> c.outputs[j] < |c.nodes|
    {
      if c.outputs[k] >= |c.nodes| {
        return Err(InvalidReference);
      }
    }
    return Ok(());
  }

  // ---- plaintext semantics -----------------------------------------------------------------------

  function Slot(inputs: seq<Elem>, k: nat): Elem {
    if k < |inputs| then inputs[k] else 0
  }

  /** The plaintext value of node i. Inputs are consumed in the order of their leaves. */
  function Value(nodes: seq<Node>, secrets: seq<Elem>, publics: seq<Elem>, i: NodeId): Elem
    requires i < |nodes|
    decreases i
  {
    match nodes[i]
    case SecretInput => Slot(secrets, SecretsBefore(nodes, i))
    case PublicInput => Slot(publics, PublicsBefore(nodes, i))
    case Constant(c) => c
    case AddGate(a, b) => Add(OperandValue(nodes, secrets, publics, i, a), OperandValue(nodes, secrets, publics, i, b))
    case MulGate(a, b) => Mul(OperandValue(nodes, secrets, publics, i, a), OperandValue(nodes, secrets, publics, i, b))
  }

  /** The value of operand a of node i; a circuit in topological order always has a < i. */
  function OperandValue(nodes: seq<Node>, secrets: seq<Elem>, publics: seq<Elem>, i: NodeId, a: NodeId): Elem
    requires i < |nodes|
    decreases i, 0
  {
    if a < i then Value(nodes, secrets, publics, a) else 0
  }

  function Outputs(c: Circuit, secrets: seq<Elem>, publics: seq<Elem>): (outs: seq<Elem>)
    requires OutputsDefined(c)
    ensures |outs| == |c.outputs|
  {
    seq(|c.outputs|, k requires 0 <= k < |c.outputs| => Value(c.nodes, secrets, publics, c.outputs[k]))
  }

  /** Evaluates every node of a validated circuit in one forward pass. */
  method EvaluateAllNodes(c: Circuit, secrets: seq<Elem>, publics: seq<Elem>)
    returns (r: Result<seq<Elem>, CircuitError>)
    requires ValidCircuit(c)
    ensures r.Ok? <==> |secrets| == c.numSecretInputs && |publics| == c.numPublicInputs
    ensures r.Ok? ==> |r.value| == |c.nodes|
    ensures r.Ok? ==> forall i :: 0 <= i < |c.nodes| ==> r.value[i] == Value(c.nodes, secrets, publics, i)
    ensures r.Err? ==> r.error == InvalidInputCount
  {
    if |secrets| != c.numSecretInputs || |publics| != c.numPublicInputs {
      return Err(InvalidInputCount);
    }
    var values: seq<Elem> := [];
    var nextSecret, nextPublic := 0, 0;
    for i := 0 to |c.nodes|
      invariant |values| == i
      invariant nextSecret == SecretsBefore(c.nodes, i) && nextPublic == PublicsBefore(c.nodes, i)
      invariant forall j :: 0 <= j < i ==> values[j] == Value(c.nodes, secrets, publics, j)
    {
      var value: Elem;
      CountsMonotone(c.nodes, i + 1, |c.nodes|);
      assert OperandsBefore(c.nodes[i], i);
      match c.nodes[i] {
        case SecretInput =>
          value := secrets[nextSecret];
          nextSecret := nextSecret + 1;
        case PublicInput =>
          value := publics[nextPublic];
          nextPublic := nextPublic + 1;
        case Constant(k) =>
          value := k;
        case AddGate(a, b) =>
          value := Add(values[a], values[b]);
        case MulGate(a, b) =>
          value := Mul(values[a], values[b]);
      }
      values := values + [value];
    }
    return Ok(values);
  }

  method EvaluateReference(c: Circuit, secrets: seq<Elem>, publics: seq<Elem>)
    returns (r: Result<seq<Elem>, CircuitError>)
    requires ValidCircuit(c)
    ensures r == if |secrets| == c.numSecretInputs && |publics| == c.numPublicInputs
                 then Ok(Outputs(c, secrets, publics)) else Err(InvalidInputCount)
  {
    var all := EvaluateAllNodes(c, secrets, publics);
    if all.Err? {
      return Err(all.error);
    }
    var outs := seq(|c.outputs|, k requires 0 <= k < |c.outputs| => all.value[c.outputs[k]]);
    assert outs == Outputs(c, secrets, publics);
    return Ok(outs);
  }

  // ---- laws of evaluation ------------------------------------------------------------------------

  lemma {:induction false} CountsMonotone(nodes: seq<Node>, i: nat, j: nat)
    requires i <= j <= |nodes|
    ensures SecretsBefore(nodes, i) <= SecretsBefore(nodes, j)
    ensures PublicsBefore(nodes, i) <= PublicsBefore(nodes, j)
  {
    if i < j {
      CountsMonotone(nodes, i, j - 1);
    }
  }

  lemma {:induction false} CountsOfPrefix(nodes: seq<Node>, more: seq<Node>, i: nat)
    requires nodes <= more && i <= |nodes|
    ensures SecretsBefore(more, i) == SecretsBefore(nodes, i)
    ensures PublicsBefore(more, i) == PublicsBefore(nodes, i)
  {
    if i > 0 {
      CountsOfPrefix(nodes, more, i - 1);
    }
  }

  /** Appending nodes never changes the values of earlier nodes. */
  lemma {:induction false} AppendingKeepsValues(nodes: seq<Node>, more: seq<Node>,
                                               secrets: seq<Elem>, publics: seq<Elem>, i: NodeId)
    requires nodes <= more && i < |nodes|
    ensures Value(more, secrets, publics, i) == Value(nodes, secrets, publics, i)
    decreases i
  {
    hide Add, Mul;
    CountsOfPrefix(nodes, more, i);
    assert more[i] == nodes[i];
    if nodes[i].IsGate() {
      if nodes[i].a < i {
        AppendingKeepsValues(nodes, more, secrets, publics, nodes[i].a);
      }
      if nodes[i].b < i {
        AppendingKeepsValues(nodes, more, secrets, publics, nodes[i].b);
      }
    }
  }

  /** A node reads only the secret inputs declared up to it. */
  lemma {:induction false} ValueReadsEarlierSecrets(nodes: seq<Node>, s: seq<Elem>, t: seq<Elem>,
                                                   publics: seq<Elem>, i: NodeId, m: nat)
    requires i < |nodes| && SecretsBefore(nodes, i + 1) <= m
    requires forall k :: 0 <= k < m ==> Slot(s, k) == Slot(t, k)
    ensures Value(nodes, s, publics, i) == Value(nodes, t, publics, i)
    decreases i
  {
    hide Add, Mul;
    if nodes[i].IsGate() {
      CountsMonotone(nodes, 0, i + 1);
      if nodes[i].a < i {
        CountsMonotone(nodes, nodes[i].a + 1, i + 1);
        ValueReadsEarlierSecrets(nodes, s, t, publics, nodes[i].a, m);
      }
      if nodes[i].b < i {
        CountsMonotone(nodes, nodes[i].b + 1, i + 1);
        ValueReadsEarlierSecrets(nodes, s, t, publics, nodes[i].b, m);
      }
    }
  }

  // ---- dependence on secrets ---------------------------------------------------------------------

  /** Whether node i depends on a secret input. */
  predicate Shared(nodes: seq<Node>, i: NodeId)
    requires i < |nodes|
    decreases i
  {
    match nodes[i]
    case SecretInput => true
    case PublicInput => false
    case Constant(_) => false
    case AddGate(a, b) => OperandShared(nodes, i, a) || OperandShared(nodes, i, b)
    case MulGate(a, b) => OperandShared(nodes, i, a) || OperandShared(nodes, i, b)
  }

  predicate OperandShared(nodes: seq<Node>, i: NodeId, a: NodeId)
    requires i < |nodes|
    decreases i, 0
  {
    a < i && Shared(nodes, a)
  }

  /** A path from node i along operands down to a secret input. */
  predicate LeadsToSecret(nodes: seq<Node>, path: seq<NodeId>, i: NodeId) {
    && path != [] && path[0] == i && (forall k :: 0 <= k < |path| ==> path[k] < |nodes|)
    && nodes[path[|path| - 1]].SecretInput?
    && forall k :: 0 <= k < |path| - 1 ==>
         nodes[path[k]].IsGate() && (path[k + 1] == nodes[path[k]].a || path[k + 1] == nodes[path[k]].b)
  }

  /** A node depends on a secret exactly if operands lead from it to a secret input. */
  lemma {:induction false} SharedByPath(nodes: seq<Node>, i: NodeId)
    requires TopologicalOrder(nodes) && i < |nodes|
    ensures Shared(nodes, i) <==> exists path: seq<NodeId> :: LeadsToSecret(nodes, path, i)
    decreases i
  {
    assert OperandsBefore(nodes[i], i);
    if Shared(nodes, i) {
      if nodes[i].SecretInput? {
        assert LeadsToSecret(nodes, [i], i);
      } else {
        var a := if OperandShared(nodes, i, nodes[i].a) then nodes[i].a else nodes[i].b;
        assert OperandShared(nodes, i, a);
        SharedByPath(nodes, a);
        var path: seq<NodeId> :| LeadsToSecret(nodes, path, a);
        assert LeadsToSecret(nodes, [i] + path, i);
      }
    }
    if path: seq<NodeId> :| LeadsToSecret(nodes, path, i) {
      if |path| > 1 {
        assert LeadsToSecret(nodes, path[1..], path[1]);
        SharedByPath(nodes, path[1]);
      }
    }
  }

  lemma {:induction false} AppendingKeepsSharing(nodes: seq<Node>, more: seq<Node>, i: NodeId)
    requires nodes <= more && i < |nodes|
    ensures Shared(more, i) == Shared(nodes, i)
    decreases i
  {
    assert more[i] == nodes[i];
    if nodes[i].IsGate() {
      if nodes[i].a < i {
        AppendingKeepsSharing(nodes, more, nodes[i].a);
      }
      if nodes[i].b < i {
        AppendingKeepsSharing(nodes, more, nodes[i].b);
      }
    }
  }

  // ---- builder -----------------------------------------------------------------------------------

  class CircuitBuilder {
    var nodes: seq<Node>
    var numSecretInputs: nat
    var numPublicInputs: nat
    var outputs: seq<NodeId>

    /** The circuit built so far; every method keeps it well formed. */
    function Current(): Circuit
      reads this
    {
      Circuit(nodes, numSecretInputs, numPublicInputs, outputs)
    }

    ghost predicate Valid()
      reads this
    {
      TopologicalOrder(nodes) && CountsMatch(Current()) && OutputsDefined(Current())
    }

    constructor ()
      ensures Valid() && nodes == [] && outputs == [] && numSecretInputs == numPublicInputs == 0
    {
      nodes, outputs := [], [];
      numSecretInputs, numPublicInputs := 0, 0;
    }

    method SecretInput() returns (id: NodeId)
      requires Valid()
      modifies this
      ensures Valid() && nodes == old(nodes) + [Node.SecretInput] && id == |old(nodes)|
      ensures outputs == old(outputs)
      ensures numSecretInputs == old(numSecretInputs) + 1 && numPublicInputs == old(numPublicInputs)
    {
      CountsOfPrefix(nodes, nodes + [Node.SecretInput], |nodes|);
      numSecretInputs := numSecretInputs + 1;
      id := Push(Node.SecretInput);
    }

    method PublicInput() returns (id: NodeId)
      requires Valid()
      modifies this
      ensures Valid() && nodes == old(nodes) + [Node.PublicInput] && id == |old(nodes)|
      ensures outputs == old(outputs)
      ensures numSecretInputs == old(numSecretInputs) && numPublicInputs == old(numPublicInputs) + 1
    {
      CountsOfPrefix(nodes, nodes + [Node.PublicInput], |nodes|);
      numPublicInputs := numPublicInputs + 1;
      id := Push(Node.PublicInput);
    }

    method Constant(value: Elem) returns (id: NodeId)
      requires Valid()
      modifies this
      ensures Valid() && nodes == old(nodes) + [Node.Constant(value)] && id == |old(nodes)|
      ensures outputs == old(outputs)
      ensures numSecretInputs == old(numSecretInputs) && numPublicInputs == old(numPublicInputs)
    {
      CountsOfPrefix(nodes, nodes + [Node.Constant(value)], |nodes|);
      id := Push(Node.Constant(value));
    }

    method Add(a: NodeId, b: NodeId) returns (r: Result<NodeId, CircuitError>)
      requires Valid()
      modifies this
      ensures Valid() && outputs == old(outputs)
      ensures numSecretInputs == old(numSecretInputs) && numPublicInputs == old(numPublicInputs)
      ensures r == if a < |old(nodes)| && b < |old(nodes)| then Ok(|old(nodes)|) else Err(InvalidReference)
      ensures nodes == if r.Ok? then old(nodes) + [AddGate(a, b)] else old(nodes)
    {
      if a >= |nodes| || b >= |nodes| {
        return Err(InvalidReference);
      }
      CountsOfPrefix(nodes, nodes + [AddGate(a, b)], |nodes|);
      var id := Push(AddGate(a, b));
      return Ok(id);
    }

    method Mul(a: NodeId, b: NodeId) returns (r: Result<NodeId, CircuitError>)
      requires Valid()
      modifies this
      ensures Valid() && outputs == old(outputs)
      ensures numSecretInputs == old(numSecretInputs) && numPublicInputs == old(numPublicInputs)
      ensures r == if a < |old(nodes)| && b < |old(nodes)| then Ok(|old(nodes)|) else Err(InvalidReference)
      ensures nodes == if r.Ok? then old(nodes) + [MulGate(a, b)] else old(nodes)
    {
      if a >= |nodes| || b >= |nodes| {
        return Err(InvalidReference);
      }
      CountsOfPrefix(nodes, nodes + [MulGate(a, b)], |nodes|);
      var id := Push(MulGate(a, b));
      return Ok(id);
    }

    method Push(node: Node) returns (id: NodeId)
      modifies this`nodes
      ensures nodes == old(nodes) + [node] && id == |old(nodes)|
    {
      id := |nodes|;
      nodes := nodes + [node];
    }

    method Output(id: NodeId) returns (r: Result<(), CircuitError>)
      requires Valid()
      modifies this`outputs
      ensures Valid()
      ensures r == if id < |nodes| then Ok(()) else Err(InvalidReference)
      ensures outputs == if r.Ok? then old(outputs) + [id] else old(outputs)
    {
      if id >= |nodes| {
        return Err(InvalidReference);
      }
      outputs := outputs + [id];
      return Ok(());
    }

    /** Every circuit a builder finishes is valid; only a missing output can stop it. */
    method Build() returns (r: Result<Circuit, CircuitError>)
      requires Valid()
      ensures r == if outputs == [] then Err(MissingOutput) else Ok(Current())
      ensures r.Ok? ==> ValidCircuit(r.value)
    {
      var checked := Validate(Current());
      if checked.Err? {
        return Err(checked.error);
      }
      return Ok(Current());
    }
  }
}
