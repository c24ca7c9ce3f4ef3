/** The canonical byte encoding of circuits. */
module CircuitEncoding {
  import opened Wrappers
  import opened PrimeField
  import opened BigEndian
  import opened Codec
  import opened Circuits

  const ENCODING_VERSION: Byte := 1
  const MAX_CIRCUIT_NODES: nat := 1_000_000

  datatype DecodeError = UnsupportedVersion | UnexpectedEnd | TrailingBytes | MalformedNode | ExcessiveSize | Structural(cause: CircuitError)

  function NodeTag(node: Node): Byte {
    match node
    case SecretInput => 0
    case PublicInput => 1
    case Constant(_) => 2
    case AddGate(_, _) => 3
    case MulGate(_, _) => 4
  }

  function Payload(node: Node): seq<Byte> {
    match node
    case SecretInput => []
    case PublicInput => []
    case Constant(value) => ToBytes(value, ELEMENT_LEN)
    case AddGate(a, b) => PrintU32(a) + PrintU32(b)
    case MulGate(a, b) => PrintU32(a) + PrintU32(b)
  }

  function PrintNode(node: Node): seq<Byte> {
    [NodeTag(node)] + Payload(node)
  }

  predicate NodeFits(node: Node) {
    node.IsGate() ==> node.a < TWO_32 && node.b < TWO_32
  }

  function PrintCircuit(c: Circuit): seq<Byte> {
    [ENCODING_VERSION] + (PrintU32(|c.nodes|) + (PrintAll(PrintNode, c.nodes)
    + (PrintU32(|c.outputs|) + PrintAll(PrintU32, c.outputs))))
  }

  /** What the decoder accepts. */
  ghost predicate Storable(c: Circuit) {
    ValidCircuit(c) && |c.nodes| <= MAX_CIRCUIT_NODES && |c.outputs| < TWO_32
  }

  // ---- printing ----------------------------------------------------------------------------------------

  method AppendNode(out: seq<Byte>, node: Node) returns (out': seq<Byte>)
    ensures out' == out + PrintNode(node)
  {
    hide PrintU32, ToBytes;
    out' := out + [NodeTag(node)];
    match node {
      case SecretInput =>
      case PublicInput =>
      case Constant(value) =>
        out' := out' + ToBytes(value, ELEMENT_LEN);
      case AddGate(a, b) =>
        out' := out' + PrintU32(a);
        out' := out' + PrintU32(b);
      case MulGate(a, b) =>
        out' := out' + PrintU32(a);
        out' := out' + PrintU32(b);
    }
  }

  method Serialize(c: Circuit) returns (out: seq<Byte>)
    requires |c.nodes| < TWO_32 && |c.outputs| < TWO_32
    ensures out == PrintCircuit(c)
  {
    hide PrintU32, PrintNode;
    out := [ENCODING_VERSION];
    out := out + PrintU32(|c.nodes|);
    for i := 0 to |c.nodes|
      invariant out == [ENCODING_VERSION] + PrintU32(|c.nodes|) + PrintAll(PrintNode, c.nodes[..i])
    {
      out := AppendNode(out, c.nodes[i]);
      assert c.nodes[..i + 1][..i] == c.nodes[..i];
    }
    assert c.nodes[..|c.nodes|] == c.nodes;
    out := out + PrintU32(|c.outputs|);
    ghost var head := out;
    for i := 0 to |c.outputs|
      invariant out == head + PrintAll(PrintU32, c.outputs[..i])
    {
      out := out + PrintU32(c.outputs[i]);
      assert c.outputs[..i + 1][..i] == c.outputs[..i];
    }
    assert c.outputs[..|c.outputs|] == c.outputs;
  }

  // ---- unique reading ----------------------------------------------------------------------------------

  lemma PairOfIds(a: nat, b: nat, s: seq<Byte>)
    requires a < TWO_32 && b < TWO_32 && Starts(PrintU32(a) + PrintU32(b), s)
    ensures |s| >= 8 && FromBytes(s[..4]) == a && FromBytes(s[4..][..4]) == b
  {
    hide FromBytes, PrintU32, Starts;
    StartsSplit(PrintU32(a), PrintU32(b), s);
    ReadU32(a, s);
    ReadU32(b, s[4..]);
  }

  lemma PayloadFields(node: Node, s: seq<Byte>)
    requires ElementsFit() && NodeFits(node) && Starts(Payload(node), s)
    ensures node.Constant? ==> |s| >= ELEMENT_LEN && FromBytes(s[..ELEMENT_LEN]) == node.value
    ensures node.IsGate() ==> |s| >= 8 && FromBytes(s[..4]) == node.a && FromBytes(s[4..][..4]) == node.b
  {
    hide FromBytes, ToBytes, PrintU32;
    match node {
      case Constant(value) =>
        BytesOfInteger(value, ELEMENT_LEN);
        assert s[..ELEMENT_LEN] == ToBytes(value, ELEMENT_LEN);
      case AddGate(a, b) =>
        PairOfIds(a, b, s);
      case MulGate(a, b) =>
        PairOfIds(a, b, s);
      case _ =>
    }
  }

  lemma NodeStarts(node: Node, s: seq<Byte>)
    requires Starts(PrintNode(node), s)
    ensures |s| > 0 && s[0] == NodeTag(node) && Starts(Payload(node), s[1..])
  {
    hide Payload;
    StartsSplit([NodeTag(node)], Payload(node), s);
  }

  lemma NodesPrefixFree()
    requires ElementsFit()
    ensures PrefixFree(PrintNode, NodeFits)
  {
    forall x: Node, y: Node, s: seq<Byte> | NodeFits(x) && NodeFits(y) && Starts(PrintNode(x), s) && Starts(PrintNode(y), s)
      ensures x == y
    {
      hide FromBytes, PrintNode, Payload, Starts;
      NodeStarts(x, s);
      NodeStarts(y, s);
      PayloadFields(x, s[1..]);
      PayloadFields(y, s[1..]);
    }
  }

  lemma IdsPrefixFree()
    ensures PrefixFree(PrintU32, IdFits)
  {
    forall x: nat, y: nat | IdFits(x) && IdFits(y) && PrintU32(x) == PrintU32(y)
      ensures x == y
    {
      hide PrintU32, FromBytes;
      StartsWhole(PrintU32(x));
      ReadU32(x, PrintU32(x));
      ReadU32(y, PrintU32(x));
    }
    FixedWidthPrefixFree(PrintU32, IdFits, 4);
  }

  /** A printed circuit is its version, its node count and its body. */
  lemma CircuitParts(c: Circuit, s: seq<Byte>)
    ensures s == PrintCircuit(c) <==> |s| > 0 && s[0] == ENCODING_VERSION && s[1..] == PrintU32(|c.nodes|) + PrintBody(c)
  {
    hide PrintU32, PrintNode, PrintAll;
    var tail := PrintU32(|c.nodes|) + PrintBody(c);
    if s == PrintCircuit(c) {
      assert s[1..] == tail;
    }
  }

  // ---- parsing -----------------------------------------------------------------------------------------

  method TakeNode(c: Cursor) returns (r: Result<Node, DecodeError>)
    requires c.Valid() && ElementsFit()
    modifies c
    ensures c.Valid() && c.pos >= old(c.pos)
    ensures r.Ok? ==> NodeFits(r.value) && old(c.Rest()) == PrintNode(r.value) + c.Rest()
    ensures r.Err? ==> forall node: Node :: NodeFits(node) ==> !Starts(PrintNode(node), old(c.Rest()))
  {
    hide FromBytes, ToBytes, PrintU32, Starts, ElementsFit;
    ghost var rest := c.Rest();
    var tag := c.ReadBytes(1);
    if tag.None? {
      NoNode(rest);
      return Err(UnexpectedEnd);
    }
    match tag.value[0] {
      case 0 =>
        return Ok(SecretInput);
      case 1 =>
        return Ok(PublicInput);
      case 2 =>
        var value := TakeElement(c);
        if value.Err? {
          NoNode(rest);
          return Err(value.error);
        }
        return Ok(Constant(value.value));
      case _ =>
        if tag.value[0] > 4 {
          NoNode(rest);
          return Err(MalformedNode);
        }
        var operands := TakeOperands(c);
        if operands.None? {
          NoGate(rest);
          return Err(UnexpectedEnd);
        }
        var (a, b) := operands.value;
        return Ok(if tag.value[0] == 3 then AddGate(a, b) else MulGate(a, b));
    }
  }

  method TakeElement(c: Cursor) returns (r: Result<Elem, DecodeError>)
    requires c.Valid() && ElementsFit()
    modifies c
    ensures c.Valid() && c.pos >= old(c.pos)
    ensures r.Ok? ==> old(c.Rest()) == ToBytes(r.value, ELEMENT_LEN) + c.Rest()
    ensures r.Err? ==> |old(c.Rest())| < ELEMENT_LEN || FromBytes(old(c.Rest())[..ELEMENT_LEN]) >= P
  {
    hide FromBytes, ToBytes, ElementsFit;
    ghost var rest := c.Rest();
    var raw := c.ReadBytes(ELEMENT_LEN);
    if raw.None? {
      return Err(UnexpectedEnd);
    }
    assert rest[..ELEMENT_LEN] == raw.value;
    if FromBytes(raw.value) >= P {
      return Err(MalformedNode);
    }
    IntegerOfBytes(raw.value);
    return Ok(FromBytes(raw.value));
  }

  method TakeOperands(c: Cursor) returns (r: Option<(U32, U32)>)
    requires c.Valid()
    modifies c
    ensures c.Valid() && c.pos >= old(c.pos)
    ensures r.Some? ==> old(c.Rest()) == PrintU32(r.value.0) + PrintU32(r.value.1) + c.Rest()
    ensures r.None? ==> forall a: nat, b: nat :: a < TWO_32 ==> !Starts(PrintU32(a) + PrintU32(b), old(c.Rest()))
  {
    hide PrintU32, FromBytes, Starts;
    ghost var start := c.Rest();
    var a := c.ReadInteger();
    ghost var rest := c.Rest();
    if a.None? {
      forall m: nat, n: nat | Starts(PrintU32(m) + PrintU32(n), start)
        ensures false
      {
        StartsSplit(PrintU32(m), PrintU32(n), start);
      }
      return None;
    }
    var b := c.ReadInteger();
    if b.None? {
      forall m: nat, n: nat | Starts(PrintU32(m) + PrintU32(n), start)
        ensures false
      {
        SumStarts(PrintU32(a.value), rest);
        StartsSplit(PrintU32(m), PrintU32(n), start);
      }
      return None;
    }
    return Some((a.value, b.value));
  }

  /** No node's print starts here. */
  lemma NoNode(s: seq<Byte>)
    requires ElementsFit()
    requires |s| == 0 || s[0] > 4
             || (s[0] == 2 && (|s| < 1 + ELEMENT_LEN || FromBytes(s[1..][..ELEMENT_LEN]) >= P))
    ensures forall node: Node :: NodeFits(node) ==> !Starts(PrintNode(node), s)
  {
    forall node: Node | NodeFits(node) && Starts(PrintNode(node), s)
      ensures false
    {
      hide FromBytes, Payload, Starts, PrintNode;
      NodeStarts(node, s);
      PayloadFields(node, s[1..]);
    }
  }

  /** A gate tag without its two operands. */
  lemma NoGate(s: seq<Byte>)
    requires |s| > 0 && 3 <= s[0] <= 4
    requires forall a: nat, b: nat :: a < TWO_32 ==> !Starts(PrintU32(a) + PrintU32(b), s[1..])
    ensures forall node: Node :: NodeFits(node) ==> !Starts(PrintNode(node), s)
  {
    forall node: Node | NodeFits(node) && Starts(PrintNode(node), s)
      ensures false
    {
      hide FromBytes, Starts, PrintNode, PrintU32;
      NodeStarts(node, s);
    }
  }

  /** What a reader of one node promises. */
  lemma NodeReads(r: Result<Node, DecodeError>, before: seq<Byte>, after: seq<Byte>)
    requires ElementsFit()
    requires r.Ok? ==> NodeFits(r.value) && before == PrintNode(r.value) + after
    requires r.Err? ==> forall node: Node :: NodeFits(node) ==> !Starts(PrintNode(node), before)
    ensures Reads(PrintNode, NodeFits, r.ToOption(), before, after)
  {
    hide PrintNode, NodeFits, Starts;
    NodesPrefixFree();
    if r.Ok? {
      SumStarts(PrintNode(r.value), after);
    }
  }

  method TakeNodes(c: Cursor, count: nat) returns (r: Result<seq<Node>, DecodeError>)
    requires c.Valid() && ElementsFit()
    modifies c
    ensures c.Valid() && c.pos >= old(c.pos)
    ensures ReadsMany(PrintNode, NodeFits, count, r.ToOption(), old(c.Rest()), c.Rest())
  {
    hide PrintNode, NodeFits, Starts, ElementsFit, ReadSoFar, ReadsMany, Reads;
    ghost var start := c.Rest();
    var nodes: seq<Node> := [];
    NothingRead(PrintNode, NodeFits, count, start);
    for i := 0 to count
      invariant c.Valid() && c.pos >= old(c.pos) && |nodes| == i
      invariant ReadSoFar(PrintNode, NodeFits, count, nodes, start, c.Rest())
    {
      ghost var rest := c.Rest();
      var node := TakeNode(c);
      NodeReads(node, rest, c.Rest());
      ReadOne(PrintNode, NodeFits, count, nodes, node.ToOption(), start, rest, c.Rest());
      if node.Err? {
        return Err(node.error);
      }
      nodes := nodes + [node.value];
    }
    ReadAll(PrintNode, NodeFits, count, nodes, start, c.Rest());
    return Ok(nodes);
  }

  /** Everything after the version byte and the node count, up to validation. */
  method DecodeBody(c: Cursor, count: U32) returns (r: Result<Circuit, DecodeError>)
    requires c.Valid() && ElementsFit() && count <= MAX_CIRCUIT_NODES
    modifies c
    ensures c.Valid()
    ensures r.Ok? ==> Storable(r.value) && |r.value.nodes| == count && old(c.Rest()) == PrintBody(r.value)
    ensures r.Err? ==> forall d: Circuit :: Storable(d) && |d.nodes| == count ==> old(c.Rest()) != PrintBody(d)
  {
    hide Starts, PrintU32, PrintNode, PrintAll, ValidCircuit, ElementsFit, FromBytes, NodeFits, IdFits, CountsMatch;
    ghost var start := c.Rest();
    var nodes := TakeNodes(c, count);
    ghost var tail := c.Rest();
    forall d: Circuit | Storable(d) && |d.nodes| == count && start == PrintBody(d)
      ensures nodes == Ok(d.nodes) && tail == PrintU32(|d.outputs|) + PrintAll(PrintU32, d.outputs)
    {
      StorableFits(d);
      StartsWhole(start);
      FollowsMany(PrintNode, NodeFits, count, nodes.ToOption(), d.nodes, PrintU32(|d.outputs|) + PrintAll(PrintU32, d.outputs), start, tail);
    }
    if nodes.Err? {
      return Err(nodes.error);
    }
    var outputs := TakeOutputs(c);
    forall d: Circuit | Storable(d) && |d.nodes| == count && start == PrintBody(d)
      ensures outputs == Ok(d.outputs)
    {
      StorableFits(d);
      assert CountedFits<nat>(IdFits, d.outputs) && tail == PrintCounted<nat>(PrintU32, d.outputs);
    }
    if outputs.Err? {
      return Err(outputs.error);
    }
    r := Assemble(nodes.value, outputs.value);
    forall d: Circuit | Storable(d) && |d.nodes| == count && start == PrintBody(d)
      ensures d == Derived(nodes.value, outputs.value)
    {
      StorableDerived(d);
    }
  }

  function PrintBody(c: Circuit): seq<Byte> {
    PrintAll(PrintNode, c.nodes) + (PrintU32(|c.outputs|) + PrintAll(PrintU32, c.outputs))
  }

  /** Input counts are recounted from the leaves. */
  function Derived(nodes: seq<Node>, outputs: seq<NodeId>): Circuit {
    Circuit(nodes, SecretsBefore(nodes, |nodes|), PublicsBefore(nodes, |nodes|), outputs)
  }

  lemma StorableDerived(c: Circuit)
    requires Storable(c)
    ensures c == Derived(c.nodes, c.outputs)
  {
  }

  method Assemble(nodes: seq<Node>, outputs: seq<NodeId>) returns (r: Result<Circuit, DecodeError>)
    requires |nodes| <= MAX_CIRCUIT_NODES && |outputs| < TWO_32
    ensures r.Ok? <==> Storable(Derived(nodes, outputs))
    ensures r.Ok? ==> r.value == Derived(nodes, outputs)
  {
    hide ValidCircuit;
    var secrets, publics := 0, 0;
    for i := 0 to |nodes|
      invariant secrets == SecretsBefore(nodes, i) && publics == PublicsBefore(nodes, i)
    {
      secrets := secrets + if nodes[i].SecretInput? then 1 else 0;
      publics := publics + if nodes[i].PublicInput? then 1 else 0;
    }
    var c := Circuit(nodes, secrets, publics, outputs);
    var validated := Validate(c);
    if validated.Err? {
      return Err(Structural(validated.error));
    }
    return Ok(c);
  }

  lemma StorableFits(c: Circuit)
    requires Storable(c)
    ensures AllOk(NodeFits, c.nodes) && AllOk<nat>(IdFits, c.outputs)
  {
    forall i | 0 <= i < |c.nodes|
      ensures NodeFits(c.nodes[i])
    {
      assert OperandsBefore(c.nodes[i], i);
    }
  }

  lemma NodesDetermined(c: Circuit, nodes: seq<Node>, tail: seq<Byte>)
    requires ElementsFit() && AllOk(NodeFits, c.nodes) && AllOk(NodeFits, nodes) && |c.nodes| == |nodes|
    requires PrintBody(c) == PrintAll(PrintNode, nodes) + tail
    ensures c.nodes == nodes && tail == PrintU32(|c.outputs|) + PrintAll(PrintU32, c.outputs)
  {
    hide Starts, PrintNode, PrintU32, PrintAll, ElementsFit, NodeFits;
    var rest := PrintU32(|c.outputs|) + PrintAll(PrintU32, c.outputs);
    SumStarts(PrintAll(PrintNode, c.nodes), rest);
    SumStarts(PrintAll(PrintNode, nodes), tail);
    NodesPrefixFree();
    ListPrefixFree(PrintNode, NodeFits, c.nodes, nodes, PrintBody(c));
  }

  /** The output list must be all that is left. */
  method TakeOutputs(c: Cursor) returns (r: Result<seq<NodeId>, DecodeError>)
    requires c.Valid()
    modifies c
    ensures c.Valid()
    ensures r.Ok? ==> CountedFits<nat>(IdFits, r.value) && old(c.Rest()) == PrintCounted<nat>(PrintU32, r.value)
    ensures forall ids: seq<nat> :: CountedFits<nat>(IdFits, ids) && old(c.Rest()) == PrintCounted<nat>(PrintU32, ids) ==> r == Ok(ids)
  {
    hide Starts, PrintCounted, CountedFits;
    ghost var start := c.Rest();
    var ids := c.ReadCountedIntegers();
    forall other: seq<nat> | CountedFits<nat>(IdFits, other) && start == PrintCounted<nat>(PrintU32, other)
      ensures ids == Some(other) && c.Rest() == []
    {
      StartsWhole(start);
    }
    if ids.None? {
      return Err(UnexpectedEnd);
    }
    if c.pos != |c.bytes| {
      return Err(TrailingBytes);
    }
    NothingAfter(PrintCounted<nat>(PrintU32, ids.value));
    return Ok(ids.value);
  }

  lemma SameIds(xs: seq<nat>, ys: seq<nat>, more: seq<Byte>)
    requires |xs| == |ys| && AllOk<nat>(IdFits, xs) && AllOk<nat>(IdFits, ys) && PrintAll(PrintU32, xs) == PrintAll(PrintU32, ys) + more
    ensures xs == ys && more == []
  {
    hide Starts, PrintU32, PrintAll, IdFits;
    StartsWhole(PrintAll(PrintU32, xs));
    SumStarts(PrintAll(PrintU32, ys), more);
    IdsPrefixFree();
    ListPrefixFree(PrintU32, IdFits, xs, ys, PrintAll(PrintU32, xs));
  }

  /** Decoding accepts exactly the prints of storable circuits, and gives back the circuit. */
  method Deserialize(bytes: seq<Byte>) returns (r: Result<Circuit, DecodeError>)
    requires ElementsFit()
    ensures forall c: Circuit :: r == Ok(c) <==>
              ValidCircuit(c) && |c.nodes| <= 1_000_000 && |c.outputs| < 0x1_0000_0000 && bytes == PrintCircuit(c)
  {
    hide Starts, PrintU32, PrintBody, ValidCircuit, ElementsFit, PrintCircuit;
    var cursor := new Cursor(bytes);
    var version := cursor.ReadBytes(1);
    if version.None? || version.value[0] != ENCODING_VERSION {
      forall c: Circuit | bytes == PrintCircuit(c)
        ensures false
      {
        CircuitParts(c, bytes);
      }
      return Err(if version.None? then UnexpectedEnd else UnsupportedVersion);
    }
    ghost var afterVersion := cursor.Rest();
    forall c: Circuit
      ensures bytes == PrintCircuit(c) <==> afterVersion == PrintU32(|c.nodes|) + PrintBody(c)
    {
      CircuitParts(c, bytes);
    }
    var count := cursor.ReadInteger();
    if count.None? {
      forall c: Circuit | bytes == PrintCircuit(c)
        ensures false
      {
        SumStarts(PrintU32(|c.nodes|), PrintBody(c));
      }
      return Err(UnexpectedEnd);
    }
    ghost var body := cursor.Rest();
    forall c: Circuit | Storable(c)
      ensures bytes == PrintCircuit(c) <==> |c.nodes| == count.value && body == PrintBody(c)
    {
      if bytes == PrintCircuit(c) {
        SameCount(|c.nodes|, PrintBody(c), count.value, body);
      }
    }
    if count.value > MAX_CIRCUIT_NODES {
      return Err(ExcessiveSize);
    }
    r := DecodeBody(cursor, count.value);
    if r.Ok? {
      forall c: Circuit | Storable(c) && bytes == PrintCircuit(c)
        ensures c == r.value
      {
        BodyDetermines(c, r.value);
      }
    }
  }

  lemma BodyDetermines(c: Circuit, d: Circuit)
    requires ElementsFit() && Storable(c) && Storable(d) && |c.nodes| == |d.nodes| && PrintBody(c) == PrintBody(d)
    ensures c == d
  {
    hide Starts, PrintU32, PrintNode, PrintAll, ElementsFit, NodeFits, IdFits;
    StorableFits(c);
    StorableFits(d);
    NodesDetermined(c, d.nodes, PrintU32(|d.outputs|) + PrintAll(PrintU32, d.outputs));
    SameCount(|c.outputs|, PrintAll(PrintU32, c.outputs), |d.outputs|, PrintAll(PrintU32, d.outputs));
    NothingAfter(PrintAll(PrintU32, d.outputs));
    SameIds(c.outputs, d.outputs, []);
    StorableDerived(c);
    StorableDerived(d);
  }

  /** Printing then parsing is the identity on storable circuits, and only one circuit has a given
      print. */
  lemma PrintInjective(c: Circuit, d: Circuit)
    requires ElementsFit() && Storable(c) && Storable(d) && PrintCircuit(c) == PrintCircuit(d)
    ensures c == d
  {
    hide Starts, PrintU32, PrintBody, ElementsFit, ValidCircuit, PrintCircuit;
    CircuitParts(c, PrintCircuit(c));
    CircuitParts(d, PrintCircuit(c));
    SameCount(|c.nodes|, PrintBody(c), |d.nodes|, PrintBody(d));
    BodyDetermines(c, d);
  }
}
