/** Wires as functions of the inputs, and the gate sequences shared by the policy gadgets. */
module CircuitGates {
  import opened PrimeField
  import opened Circuits

  datatype Inputs = Inputs(secrets: seq<Elem>, publics: seq<Elem>)
  {
    function Secret(k: nat): Elem { Slot(secrets, k) }

    function Public(k: nat): Elem { Slot(publics, k) }
  }

  function At(nodes: seq<Node>, x: Inputs, i: NodeId): Elem
    requires i < |nodes|
  {
    Value(nodes, x.secrets, x.publics, i)
  }

  predicate Defined(nodes: seq<Node>, ids: seq<NodeId>) {
    forall k :: 0 <= k < |ids| ==> ids[k] < |nodes|
  }

  function AtAll(nodes: seq<Node>, x: Inputs, ids: seq<NodeId>): (vs: seq<Elem>)
    requires Defined(nodes, ids)
    ensures |vs| == |ids|
  {
    seq(|ids|, k requires 0 <= k < |ids| => At(nodes, x, ids[k]))
  }

  /** Nodes were appended, and every earlier wire still computes the same function and depends on
      a secret as it did. */
  ghost predicate Extends(before: seq<Node>, after: seq<Node>) {
    && before <= after
    && (forall x: Inputs, i: nat :: i < |before| ==> At(after, x, i) == At(before, x, i))
    && (forall i: nat :: i < |before| ==> Shared(after, i) == Shared(before, i))
  }

  lemma Appended(before: seq<Node>, after: seq<Node>)
    requires before <= after
    ensures Extends(before, after)
  {
    forall x: Inputs, i: nat | i < |before|
      ensures At(after, x, i) == At(before, x, i)
    {
      AppendingKeepsValues(before, after, x.secrets, x.publics, i);
    }
    forall i: nat | i < |before|
      ensures Shared(after, i) == Shared(before, i)
    {
      AppendingKeepsSharing(before, after, i);
    }
  }

  lemma AtAllExtends(before: seq<Node>, after: seq<Node>, x: Inputs, ids: seq<NodeId>)
    requires Extends(before, after) && Defined(before, ids)
    ensures AtAll(after, x, ids) == AtAll(before, x, ids)
  {
    hide At;
  }

  /** Gates were appended, and nothing else. */
  ghost predicate Grows(before: Circuit, after: Circuit) {
    && Extends(before.nodes, after.nodes) && after.outputs == before.outputs
    && after.numSecretInputs == before.numSecretInputs && after.numPublicInputs == before.numPublicInputs
  }

  lemma GrowsFurther(a: Circuit, b: Circuit, c: Circuit)
    requires Grows(a, b) && Grows(b, c)
    ensures Grows(a, c)
  {
    hide At, Shared;
    forall x: Inputs, i: nat | i < |a.nodes|
      ensures At(c.nodes, x, i) == At(a.nodes, x, i)
    {
      assert At(b.nodes, x, i) == At(a.nodes, x, i);
    }
    assert forall i: nat :: i < |a.nodes| ==> Shared(b.nodes, i) == Shared(a.nodes, i);
  }

  method ConstantGate(b: CircuitBuilder, value: Elem) returns (id: NodeId)
    requires b.Valid()
    modifies b
    ensures b.Valid() && Grows(old(b.Current()), b.Current()) && id < |b.nodes|
    ensures forall x: Inputs :: At(b.nodes, x, id) == value
  {
    id := b.Constant(value);
    Appended(old(b.nodes), b.nodes);
  }

  lemma GateAt(nodes: seq<Node>, x: Inputs, i: NodeId)
    requires i < |nodes| && nodes[i].IsGate() && nodes[i].a < i && nodes[i].b < i
    ensures nodes[i].AddGate? ==> At(nodes, x, i) == Add(At(nodes, x, nodes[i].a), At(nodes, x, nodes[i].b))
    ensures nodes[i].MulGate? ==> At(nodes, x, i) == Mul(At(nodes, x, nodes[i].a), At(nodes, x, nodes[i].b))
    ensures Shared(nodes, i) == (Shared(nodes, nodes[i].a) || Shared(nodes, nodes[i].b))
  {
    hide Add, Mul;
    assert OperandValue(nodes, x.secrets, x.publics, i, nodes[i].a) == At(nodes, x, nodes[i].a);
    assert OperandValue(nodes, x.secrets, x.publics, i, nodes[i].b) == At(nodes, x, nodes[i].b);
  }

  method AddWires(b: CircuitBuilder, a: NodeId, c: NodeId) returns (id: NodeId)
    requires b.Valid() && a < |b.nodes| && c < |b.nodes|
    modifies b
    ensures b.Valid() && Grows(old(b.Current()), b.Current()) && id < |b.nodes|
    ensures forall x: Inputs :: At(b.nodes, x, id) == Add(At(b.nodes, x, a), At(b.nodes, x, c))
    ensures Shared(b.nodes, id) == (Shared(b.nodes, a) || Shared(b.nodes, c))
  {
    hide At, Shared, PrimeField.Add;
    var r := b.Add(a, c);
    Appended(old(b.nodes), b.nodes);
    id := r.value;
    forall x: Inputs
      ensures At(b.nodes, x, id) == PrimeField.Add(At(b.nodes, x, a), At(b.nodes, x, c))
    {
      GateAt(b.nodes, x, id);
    }
    GateAt(b.nodes, Inputs([], []), id);
  }

  method MulWires(b: CircuitBuilder, a: NodeId, c: NodeId) returns (id: NodeId)
    requires b.Valid() && a < |b.nodes| && c < |b.nodes|
    modifies b
    ensures b.Valid() && Grows(old(b.Current()), b.Current()) && id < |b.nodes|
    ensures forall x: Inputs :: At(b.nodes, x, id) == Mul(At(b.nodes, x, a), At(b.nodes, x, c))
    ensures Shared(b.nodes, id) == (Shared(b.nodes, a) || Shared(b.nodes, c))
  {
    hide At, Shared, PrimeField.Mul;
    var r := b.Mul(a, c);
    Appended(old(b.nodes), b.nodes);
    id := r.value;
    forall x: Inputs
      ensures At(b.nodes, x, id) == PrimeField.Mul(At(b.nodes, x, a), At(b.nodes, x, c))
    {
      GateAt(b.nodes, x, id);
    }
    GateAt(b.nodes, Inputs([], []), id);
  }

  method ScaleWire(b: CircuitBuilder, a: NodeId, factor: Elem) returns (id: NodeId)
    requires b.Valid() && a < |b.nodes|
    modifies b
    ensures b.Valid() && Grows(old(b.Current()), b.Current()) && id < |b.nodes|
    ensures forall x: Inputs :: At(b.nodes, x, id) == Mul(At(b.nodes, x, a), factor)
    ensures Shared(b.nodes, a) ==> Shared(b.nodes, id)
  {
    hide At, Shared, Mul;
    var c := ConstantGate(b, factor);
    label scaled:
    id := MulWires(b, a, c);
    GrowsFurther(old(b.Current()), old@scaled(b.Current()), b.Current());
  }

  method ShiftWire(b: CircuitBuilder, a: NodeId, offset: Elem) returns (id: NodeId)
    requires b.Valid() && a < |b.nodes|
    modifies b
    ensures b.Valid() && Grows(old(b.Current()), b.Current()) && id < |b.nodes|
    ensures forall x: Inputs :: At(b.nodes, x, id) == Add(At(b.nodes, x, a), offset)
    ensures Shared(b.nodes, a) ==> Shared(b.nodes, id)
  {
    hide At, Shared, Add;
    var c := ConstantGate(b, offset);
    label shifted:
    id := AddWires(b, a, c);
    GrowsFurther(old(b.Current()), old@shifted(b.Current()), b.Current());
  }

  lemma SubByNegation(v: Elem, u: Elem)
    ensures Add(v, Mul(u, Fe(0 - 1))) == Sub(v, u)
  {
    hide Fe, Add, Sub, Mul, Neg;
    MulLaws(u, 0, 0);
    AddLaws(v, u, 0);
  }

  /** Difference: a plus -1 times c. */
  method SubWires(b: CircuitBuilder, a: NodeId, c: NodeId) returns (id: NodeId)
    requires b.Valid() && a < |b.nodes| && c < |b.nodes|
    modifies b
    ensures b.Valid() && Grows(old(b.Current()), b.Current()) && id < |b.nodes|
    ensures forall x: Inputs :: At(b.nodes, x, id) == Sub(At(b.nodes, x, a), At(b.nodes, x, c))
    ensures Shared(b.nodes, a) || Shared(b.nodes, c) ==> Shared(b.nodes, id)
  {
    hide At, Shared, Add, Sub, Mul, Fe;
    var negated := ScaleWire(b, c, Fe(0 - 1));
    label negation:
    id := AddWires(b, a, negated);
    GrowsFurther(old(b.Current()), old@negation(b.Current()), b.Current());
    forall x: Inputs
      ensures At(b.nodes, x, id) == Sub(At(b.nodes, x, a), At(b.nodes, x, c))
    {
      SubByNegation(At(b.nodes, x, a), At(b.nodes, x, c));
    }
  }

  lemma OneMinusByNegation(v: Elem)
    ensures Add(Mul(v, Fe(0 - 1)), 1) == Sub(1, v)
  {
    SubByNegation(1, v);
    AddLaws(Mul(v, Fe(0 - 1)), 1, 0);
  }

  method OneMinus(b: CircuitBuilder, a: NodeId) returns (id: NodeId)
    requires b.Valid() && a < |b.nodes|
    modifies b
    ensures b.Valid() && Grows(old(b.Current()), b.Current()) && id < |b.nodes|
    ensures forall x: Inputs :: At(b.nodes, x, id) == Sub(1, At(b.nodes, x, a))
    ensures Shared(b.nodes, a) ==> Shared(b.nodes, id)
  {
    hide At, Shared, Add, Sub, Mul, Fe;
    var negated := ScaleWire(b, a, Fe(0 - 1));
    label negation:
    id := ShiftWire(b, negated, 1);
    GrowsFurther(old(b.Current()), old@negation(b.Current()), b.Current());
    forall x: Inputs
      ensures At(b.nodes, x, id) == Sub(1, At(b.nodes, x, a))
    {
      OneMinusByNegation(At(b.nodes, x, a));
    }
  }

  /** w (1 - w): zero exactly for zero and one. */
  function Booleanity(w: Elem): Elem {
    Mul(w, Sub(1, w))
  }

  lemma BooleanityZero(w: Elem)
    ensures Booleanity(w) == 0 <==> w == 0 || w == 1
  {
    hide Mul, Sub;
    ZeroProduct(w, Sub(1, w));
    SubZero(1, w);
  }

  method BooleanityWire(b: CircuitBuilder, w: NodeId) returns (id: NodeId)
    requires b.Valid() && w < |b.nodes|
    modifies b
    ensures b.Valid() && Grows(old(b.Current()), b.Current()) && id < |b.nodes|
    ensures forall x: Inputs :: At(b.nodes, x, id) == Booleanity(At(b.nodes, x, w))
    ensures Shared(b.nodes, w) ==> Shared(b.nodes, id)
  {
    hide At, Shared, Sub, Mul;
    var oneMinus := OneMinus(b, w);
    label minus:
    id := MulWires(b, w, oneMinus);
    GrowsFurther(old(b.Current()), old@minus(b.Current()), b.Current());
  }

  // ---- the Fermat chain --------------------------------------------------------------------------------

  /** Binary digits from the low end, without leading zeros. */
  function BitsLe(e: nat): (bits: seq<bool>)
    ensures e > 0 ==> bits != [] && bits[|bits| - 1]
  {
    if e == 0 then [] else [e % 2 == 1] + BitsLe(e / 2)
  }

  function FromBitsLe(bits: seq<bool>): nat {
    if bits == [] then 0 else (if bits[0] then 1 else 0) + 2 * FromBitsLe(bits[1..])
  }

  lemma {:induction false} BitsRoundTrip(e: nat)
    ensures FromBitsLe(BitsLe(e)) == e
  {
    if e > 0 {
      BitsRoundTrip(e / 2);
      assert BitsLe(e)[1..] == BitsLe(e / 2);
    }
  }

  lemma PowDouble(v: Elem, e: nat)
    ensures Mul(Pow(v, e), Pow(v, e)) == Pow(v, 2 * e)
    ensures Mul(Pow(v, 2 * e), v) == Pow(v, 2 * e + 1)
  {
    hide Mul, Pow;
    PowAdd(v, e, e);
    PowAdd(v, 2 * e, 1);
    PowOne(v);
  }

  lemma HighestBit(bits: seq<bool>)
    requires bits != [] && bits[|bits| - 1]
    ensures FromBitsLe(bits[|bits| - 1..]) == 1
  {
    assert bits[|bits| - 1..] == [true] && [true][1..] == [];
  }

  lemma LowerBit(bits: seq<bool>, index: nat)
    requires index < |bits|
    ensures FromBitsLe(bits[index..]) == (if bits[index] then 1 else 0) + 2 * FromBitsLe(bits[index + 1..])
  {
    assert bits[index..][1..] == bits[index + 1..];
  }

  /** Square-and-multiply over the binary digits of p - 1, from the highest down. */
  method FermatChain(b: CircuitBuilder, a: NodeId) returns (acc: NodeId)
    requires b.Valid() && a < |b.nodes|
    modifies b
    ensures b.Valid() && Grows(old(b.Current()), b.Current()) && acc < |b.nodes|
    ensures forall x: Inputs :: At(b.nodes, x, acc) == Pow(At(b.nodes, x, a), P - 1)
    ensures Shared(b.nodes, a) ==> Shared(b.nodes, acc)
  {
    hide At, Shared, Mul, Pow, FromBitsLe, BitsLe;
    var bits := BitsLe(P - 1);
    BitsRoundTrip(P - 1);
    HighestBit(bits);
    acc := a;
    forall x: Inputs
      ensures At(b.nodes, x, a) == Pow(At(b.nodes, x, a), 1)
    {
      PowOne(At(b.nodes, x, a));
    }
    var index := |bits| - 1;
    while index > 0
      invariant 0 <= index < |bits| && b.Valid() && acc < |b.nodes|
      invariant Grows(old(b.Current()), b.Current()) && (Shared(b.nodes, a) ==> Shared(b.nodes, acc))
      invariant forall x: Inputs :: At(b.nodes, x, acc) == Pow(At(b.nodes, x, a), FromBitsLe(bits[index..]))
    {
      index := index - 1;
      LowerBit(bits, index);
      acc := SquareStep(b, a, acc, bits[index], FromBitsLe(bits[index + 1..]), old(b.Current()));
    }
    assert bits[0..] == bits;
  }

  /** The chain's wire tells zero from non-zero: it carries x^(p-1). */
  method FermatNonzero(b: CircuitBuilder, a: NodeId) returns (acc: NodeId)
    requires b.Valid() && a < |b.nodes|
    modifies b
    ensures b.Valid() && Grows(old(b.Current()), b.Current()) && acc < |b.nodes|
    ensures forall x: Inputs :: At(b.nodes, x, acc) == if At(b.nodes, x, a) == 0 then 0 else 1
    ensures Shared(b.nodes, a) ==> Shared(b.nodes, acc)
  {
    hide At, Shared, Pow;
    acc := FermatChain(b, a);
    forall x: Inputs
      ensures At(b.nodes, x, acc) == if At(b.nodes, x, a) == 0 then 0 else 1
    {
      FermatIndicator(At(b.nodes, x, a));
    }
  }

  method SquareStep(b: CircuitBuilder, a: NodeId, acc: NodeId, bit: bool, ghost e: nat, ghost start: Circuit)
    returns (next: NodeId)
    requires b.Valid() && a < |b.nodes| && acc < |b.nodes| && Grows(start, b.Current())
    requires forall x: Inputs :: At(b.nodes, x, acc) == Pow(At(b.nodes, x, a), e)
    modifies b
    ensures b.Valid() && Grows(start, b.Current()) && Grows(old(b.Current()), b.Current()) && next < |b.nodes|
    ensures forall x: Inputs :: At(b.nodes, x, next) == Pow(At(b.nodes, x, a), (if bit then 1 else 0) + 2 * e)
    ensures Shared(old(b.nodes), acc) ==> Shared(b.nodes, next)
  {
    hide At, Shared, Mul, Pow;
    next := MulWires(b, acc, acc);
    forall x: Inputs
      ensures At(b.nodes, x, next) == Pow(At(b.nodes, x, a), 2 * e)
    {
      assert At(b.nodes, x, acc) == Pow(At(b.nodes, x, a), e);
      PowDouble(At(b.nodes, x, a), e);
    }
    label squared:
    if bit {
      next := MulWires(b, next, a);
      GrowsFurther(old(b.Current()), old@squared(b.Current()), b.Current());
      forall x: Inputs
        ensures At(b.nodes, x, next) == Pow(At(b.nodes, x, a), 1 + 2 * e)
      {
        PowDouble(At(b.nodes, x, a), e);
      }
    }
    GrowsFurther(start, old(b.Current()), b.Current());
  }
}
