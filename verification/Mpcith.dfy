/** The three-party protocol inside the proof: what one party computes from its own shares and
    the broadcast masks, and how the three computations fit together. */
module Mpcith {
  import opened PrimeField
  import opened Circuits

  type Party = p: nat | p < 3

  datatype TripleShare = TripleShare(a: Elem, b: Elem, c: Elem)

  datatype LocalOperation =
    | AddOp(output: NodeId, share: Elem)
    | MulPublicOp(output: NodeId, scalar: Elem, share: Elem)
    | BeaverOp(output: NodeId, tripleIndex: nat, d: Elem, e: Elem, share: Elem)

  datatype PartyView = PartyView(
    repetitionId: nat,
    partyId: Party,
    inputShares: seq<Elem>,
    localOperations: seq<LocalOperation>,
    tripleShares: seq<TripleShare>,
    openedValues: seq<Elem>)

  // ---- which gates consume a triple --------------------------------------------------------------------

  /** Multiplications of two shared operands consume a triple. */
  predicate IsBeaver(nodes: seq<Node>, i: NodeId)
    requires i < |nodes|
  {
    nodes[i].MulGate? && OperandShared(nodes, i, nodes[i].a) && OperandShared(nodes, i, nodes[i].b)
  }

  function BeaversBefore(nodes: seq<Node>, i: nat): nat
    requires i <= |nodes|
  {
    if i == 0 then 0 else BeaversBefore(nodes, i - 1) + if IsBeaver(nodes, i - 1) then 1 else 0
  }

  lemma {:induction false} BeaversMonotone(nodes: seq<Node>, i: nat, j: nat)
    requires i <= j <= |nodes|
    ensures BeaversBefore(nodes, i) <= BeaversBefore(nodes, j)
  {
    if i < j {
      BeaversMonotone(nodes, i, j - 1);
    }
  }

  /** A node that depends on no secret has the same value for all secrets. */
  lemma {:induction false} PublicNodesIgnoreSecrets(nodes: seq<Node>, s: seq<Elem>, t: seq<Elem>,
                                                   publics: seq<Elem>, i: NodeId)
    requires i < |nodes| && !Shared(nodes, i)
    ensures Value(nodes, s, publics, i) == Value(nodes, t, publics, i)
    decreases i
  {
    hide Add, Mul;
    if nodes[i].IsGate() {
      if nodes[i].a < i {
        PublicNodesIgnoreSecrets(nodes, s, t, publics, nodes[i].a);
      }
      if nodes[i].b < i {
        PublicNodesIgnoreSecrets(nodes, s, t, publics, nodes[i].b);
      }
    }
  }

  // ---- one party's computation -----------------------------------------------------------------------

  /** A party's share of a Beaver product; the term d * e goes to the first party only. */
  function BeaverShare(t: TripleShare, d: Elem, e: Elem, first: bool): Elem {
    var z := Add(Add(t.c, Mul(d, t.b)), Mul(e, t.a));
    if first then Add(z, Mul(d, e)) else z
  }

  /** Everything that determines one party's run: the public data, its shares and the masks. */
  datatype Local = Local(
    nodes: seq<Node>,
    publics: seq<Elem>,
    party: Party,
    shares: seq<Elem>,
    triples: seq<TripleShare>,
    globals: seq<Elem>)
  {
    function Triple(k: nat): TripleShare {
      if k < |triples| then triples[k] else TripleShare(0, 0, 0)
    }

    /** The global masks of the k-th Beaver multiplication. */
    function D(k: nat): Elem { Slot(globals, 2 * k) }

    function E(k: nat): Elem { Slot(globals, 2 * k + 1) }

    /** What the party holds at node i: the plaintext of a public node, its share of a shared one. */
    function Held(i: NodeId): Elem
      requires i < |nodes|
      decreases i
    {
      if !Shared(nodes, i) then Value(nodes, [], publics, i)
      else
        match nodes[i]
        case SecretInput => Slot(shares, SecretsBefore(nodes, i))
        case PublicInput => 0
        case Constant(_) => 0
        case AddGate(a, b) =>
          if party == 0 || (OperandShared(nodes, i, a) && OperandShared(nodes, i, b))
          then Add(HeldOperand(i, a), HeldOperand(i, b))
          else if OperandShared(nodes, i, a) then HeldOperand(i, a) else HeldOperand(i, b)
        case MulGate(a, b) =>
          if IsBeaver(nodes, i) then
            var k := BeaversBefore(nodes, i);
            BeaverShare(Triple(k), D(k), E(k), party == 0)
          else Mul(HeldOperand(i, a), HeldOperand(i, b))
    }

    function HeldOperand(i: NodeId, a: NodeId): Elem
      requires i < |nodes|
      decreases i, 0
    {
      if a < i then Held(a) else 0
    }

    lemma HeldAtGate(i: NodeId, a: NodeId, b: NodeId)
      requires a < i && b < i < |nodes| && Shared(nodes, i) && !IsBeaver(nodes, i)
      ensures nodes[i] == MulGate(a, b) ==> Held(i) == Mul(Held(a), Held(b))
      ensures nodes[i] == AddGate(a, b) ==>
                Held(i) == if party == 0 || (Shared(nodes, a) && Shared(nodes, b)) then Add(Held(a), Held(b))
                           else if Shared(nodes, a) then Held(a) else Held(b)
    {
      hide Add, Mul;
      assert HeldOperand(i, a) == Held(a) && HeldOperand(i, b) == Held(b);
    }

    lemma HeldAtPublicGate(i: NodeId, a: NodeId, b: NodeId)
      requires a < i && b < i < |nodes| && !Shared(nodes, i)
      ensures nodes[i] == MulGate(a, b) ==> Held(i) == Mul(Held(a), Held(b))
      ensures nodes[i] == AddGate(a, b) ==> Held(i) == Add(Held(a), Held(b))
    {
      hide Add, Mul;
      assert OperandValue(nodes, [], publics, i, a) == Value(nodes, [], publics, a);
      assert OperandValue(nodes, [], publics, i, b) == Value(nodes, [], publics, b);
    }

    /** What is recorded at a gate that is no Beaver multiplication. */
    lemma OpAtGate(i: NodeId, a: NodeId, b: NodeId)
      requires a < i && b < i < |nodes| && !IsBeaver(nodes, i)
      ensures nodes[i] == AddGate(a, b) ==>
                OpAt(i) == if (Shared(nodes, a) && Shared(nodes, b)) || (party == 0 && Shared(nodes, i))
                           then [AddOp(i, Held(i))] else []
      ensures nodes[i] == MulGate(a, b) ==>
                OpAt(i) == if Shared(nodes, i)
                           then [MulPublicOp(i, if Shared(nodes, a) then Held(b) else Held(a), Held(i))] else []
    {
      hide Add, Mul;
      assert HeldOperand(i, a) == Held(a) && HeldOperand(i, b) == Held(b);
    }

    /** The operation the party records at node i, if any. */
    function OpAt(i: NodeId): seq<LocalOperation>
      requires i < |nodes|
    {
      if !Shared(nodes, i) || nodes[i].SecretInput? then []
      else if IsBeaver(nodes, i) then
        var k := BeaversBefore(nodes, i);
        [BeaverOp(i, k, D(k), E(k), Held(i))]
      else
        match nodes[i]
        case AddGate(a, b) =>
          if party == 0 || (OperandShared(nodes, i, a) && OperandShared(nodes, i, b))
          then [AddOp(i, Held(i))] else []
        case MulGate(a, b) =>
          [MulPublicOp(i, if OperandShared(nodes, i, a) then HeldOperand(i, b) else HeldOperand(i, a), Held(i))]
        case _ => []
    }

    function OpsBefore(i: nat): seq<LocalOperation>
      requires i <= |nodes|
    {
      if i == 0 then [] else OpsBefore(i - 1) + OpAt(i - 1)
    }

    /** The party's contributions to the masks of the Beaver multiplication at node i. */
    function MasksAt(i: NodeId): (m: seq<Elem>)
      requires i < |nodes|
      ensures |m| == if IsBeaver(nodes, i) then 2 else 0
    {
      if IsBeaver(nodes, i) then
        var t := Triple(BeaversBefore(nodes, i));
        [Sub(Held(nodes[i].a), t.a), Sub(Held(nodes[i].b), t.b)]
      else []
    }

    function OpenedBefore(i: nat): (m: seq<Elem>)
      requires i <= |nodes|
      ensures |m| == 2 * BeaversBefore(nodes, i)
    {
      if i == 0 then [] else OpenedBefore(i - 1) + MasksAt(i - 1)
    }

    /** The view an honest run of the party records. */
    function View(repetitionId: nat): PartyView {
      PartyView(repetitionId, party, shares, OpsBefore(|nodes|), triples, OpenedBefore(|nodes|))
    }

    lemma {:induction false} OpsGrow(i: nat, j: nat)
      requires i <= j <= |nodes|
      ensures OpsBefore(i) <= OpsBefore(j)
    {
      if i < j {
        OpsGrow(i, j - 1);
      }
    }

    lemma {:induction false} OpenedGrow(i: nat, j: nat)
      requires i <= j <= |nodes|
      ensures OpenedBefore(i) <= OpenedBefore(j)
    {
      if i < j {
        OpenedGrow(i, j - 1);
      }
    }

    /** Where the masks of the Beaver multiplication at node i sit among the opened values. */
    lemma OpenedAt(i: NodeId)
      requires i < |nodes| && IsBeaver(nodes, i)
      ensures var k := BeaversBefore(nodes, i);
              && 2 * k + 1 < |OpenedBefore(|nodes|)|
              && OpenedBefore(|nodes|)[2 * k] == MasksAt(i)[0]
              && OpenedBefore(|nodes|)[2 * k + 1] == MasksAt(i)[1]
    {
      OpenedGrow(i + 1, |nodes|);
    }
  }

  // ---- three parties together ------------------------------------------------------------------------

  function Sum3(x: Elem, y: Elem, z: Elem): Elem {
    Add(Add(x, y), z)
  }

  lemma Sum3OfAdd(x0: Elem, x1: Elem, x2: Elem, y0: Elem, y1: Elem, y2: Elem)
    ensures Sum3(Add(x0, y0), Add(x1, y1), Add(x2, y2)) == Add(Sum3(x0, x1, x2), Sum3(y0, y1, y2))
  {
    FeOf(x0); FeOf(x1); FeOf(x2); FeOf(y0); FeOf(y1); FeOf(y2);
    hide Fe, Add;
    Representatives();
  }

  lemma Sum3OfSub(x0: Elem, x1: Elem, x2: Elem, y0: Elem, y1: Elem, y2: Elem)
    ensures Sum3(Sub(x0, y0), Sub(x1, y1), Sub(x2, y2)) == Sub(Sum3(x0, x1, x2), Sum3(y0, y1, y2))
  {
    FeOf(x0); FeOf(x1); FeOf(x2); FeOf(y0); FeOf(y1); FeOf(y2);
    hide Fe, Add, Sub;
    Representatives();
  }

  lemma Sum3OfMul(x0: Elem, x1: Elem, x2: Elem, v: Elem)
    ensures Sum3(Mul(x0, v), Mul(x1, v), Mul(x2, v)) == Mul(Sum3(x0, x1, x2), v)
    ensures Sum3(Mul(v, x0), Mul(v, x1), Mul(v, x2)) == Mul(v, Sum3(x0, x1, x2))
  {
    hide Add, Mul;
    MulLaws(x0, x1, v);
    MulLaws(Add(x0, x1), x2, v);
  }

  /** A public value added to the first share only is added once. */
  lemma Sum3AbsorbsOnce(x0: Elem, x1: Elem, x2: Elem, v: Elem)
    ensures Sum3(Add(x0, v), x1, x2) == Add(Sum3(x0, x1, x2), v)
    ensures Sum3(Add(v, x0), x1, x2) == Add(v, Sum3(x0, x1, x2))
  {
    FeOf(x0); FeOf(x1); FeOf(x2); FeOf(v);
    hide Fe, Add;
    Representatives();
  }

  lemma BeaverSharesSum(t0: TripleShare, t1: TripleShare, t2: TripleShare, x: Elem, y: Elem)
    requires Sum3(t0.c, t1.c, t2.c) == Mul(Sum3(t0.a, t1.a, t2.a), Sum3(t0.b, t1.b, t2.b))
    ensures var d, e := Sub(x, Sum3(t0.a, t1.a, t2.a)), Sub(y, Sum3(t0.b, t1.b, t2.b));
            Sum3(BeaverShare(t0, d, e, true), BeaverShare(t1, d, e, false), BeaverShare(t2, d, e, false)) == Mul(x, y)
  {
    var a, b := Sum3(t0.a, t1.a, t2.a), Sum3(t0.b, t1.b, t2.b);
    var d, e := Sub(x, a), Sub(y, b);
    hide Add, Sub, Mul, Sum3;
    var db0, db1, db2 := Mul(d, t0.b), Mul(d, t1.b), Mul(d, t2.b);
    var ea0, ea1, ea2 := Mul(e, t0.a), Mul(e, t1.a), Mul(e, t2.a);
    Sum3OfMul(t0.b, t1.b, t2.b, d);
    Sum3OfMul(t0.a, t1.a, t2.a, e);
    Sum3OfAdd(t0.c, t1.c, t2.c, db0, db1, db2);
    Sum3OfAdd(Add(t0.c, db0), Add(t1.c, db1), Add(t2.c, db2), ea0, ea1, ea2);
    Sum3AbsorbsOnce(Add(Add(t0.c, db0), ea0), Add(Add(t1.c, db1), ea1), Add(Add(t2.c, db2), ea2), Mul(d, e));
    BeaverIdentity(x, y, a, b);
  }

  /** Three runs of the same circuit under the same public data and masks. */
  datatype Trio = Trio(l0: Local, l1: Local, l2: Local)
  {
    ghost predicate Joint() {
      && l0.nodes == l1.nodes == l2.nodes && l0.publics == l1.publics == l2.publics
      && l0.globals == l1.globals == l2.globals
      && l0.party == 0 && l1.party == 1 && l2.party == 2
      && |l0.shares| == |l1.shares| == |l2.shares|
    }

    /** The witness whose shares the three parties hold. */
    function Witness(): (w: seq<Elem>)
      requires |l0.shares| == |l1.shares| == |l2.shares|
      ensures |w| == |l0.shares|
    {
      seq(|l0.shares|, k requires 0 <= k < |l0.shares| => Sum3(l0.shares[k], l1.shares[k], l2.shares[k]))
    }

    function Combined(i: NodeId): Elem
      requires i < |l0.nodes| && i < |l1.nodes| && i < |l2.nodes|
    {
      Sum3(l0.Held(i), l1.Held(i), l2.Held(i))
    }

    function A(k: nat): Elem { Sum3(l0.Triple(k).a, l1.Triple(k).a, l2.Triple(k).a) }

    function B(k: nat): Elem { Sum3(l0.Triple(k).b, l1.Triple(k).b, l2.Triple(k).b) }

    function C(k: nat): Elem { Sum3(l0.Triple(k).c, l1.Triple(k).c, l2.Triple(k).c) }

    /** The triple of every Beaver multiplication is a product. */
    ghost predicate TriplesMultiply() {
      forall k :: 0 <= k < BeaversBefore(l0.nodes, |l0.nodes|) ==> C(k) == Mul(A(k), B(k))
    }

    /** The masks of the multiplication at node i open one of its operands' combined shares or
        plaintext values. */
    ghost predicate MasksOpen(i: NodeId)
      requires Joint() && i < |l0.nodes| && IsBeaver(l0.nodes, i)
    {
      var k, a, b := BeaversBefore(l0.nodes, i), l0.nodes[i].a, l0.nodes[i].b;
      && (l0.D(k) == Sub(Combined(a), A(k)) || l0.D(k) == Sub(Value(l0.nodes, Witness(), l0.publics, a), A(k)))
      && (l0.E(k) == Sub(Combined(b), B(k)) || l0.E(k) == Sub(Value(l0.nodes, Witness(), l0.publics, b), B(k)))
    }

    ghost predicate AllMasksOpen()
      requires Joint()
    {
      forall i :: 0 <= i < |l0.nodes| && IsBeaver(l0.nodes, i) ==> MasksOpen(i)
    }

    lemma {:induction false} PublicHeld(i: NodeId, s: seq<Elem>)
      requires Joint() && i < |l0.nodes| && !Shared(l0.nodes, i)
      ensures l0.Held(i) == l1.Held(i) == l2.Held(i) == Value(l0.nodes, s, l0.publics, i)
    {
      PublicNodesIgnoreSecrets(l0.nodes, s, [], l0.publics, i);
    }

    /** At every shared node the three shares sum to the plaintext value. */
    lemma {:induction false} SharesReconstruct(i: NodeId)
      requires Joint() && TriplesMultiply() && AllMasksOpen()
      requires i < |l0.nodes| && Shared(l0.nodes, i) && TopologicalOrder(l0.nodes)
      requires SecretsBefore(l0.nodes, |l0.nodes|) <= |l0.shares|
      ensures Combined(i) == Value(l0.nodes, Witness(), l0.publics, i)
      decreases i, 1
    {
      var nodes := l0.nodes;
      hide Add, Sub, Mul, Sum3, BeaverShare;
      assert OperandsBefore(nodes[i], i);
      match nodes[i] {
        case SecretInput =>
          CountsMonotone(nodes, i + 1, |nodes|);
        case AddGate(a, b) =>
          OperandReconstructs(i, a);
          OperandReconstructs(i, b);
          SumGate(i, a, b);
        case MulGate(a, b) =>
          OperandReconstructs(i, a);
          OperandReconstructs(i, b);
          if IsBeaver(nodes, i) {
            BeaverGate(i);
          } else {
            ScalarGate(i, a, b);
          }
      }
    }

    lemma {:induction false} OperandReconstructs(i: NodeId, a: NodeId)
      requires Joint() && TriplesMultiply() && AllMasksOpen()
      requires a < i < |l0.nodes| && TopologicalOrder(l0.nodes)
      requires SecretsBefore(l0.nodes, |l0.nodes|) <= |l0.shares|
      ensures Shared(l0.nodes, a) ==> Combined(a) == Value(l0.nodes, Witness(), l0.publics, a)
      ensures !Shared(l0.nodes, a) ==>
                l0.Held(a) == l1.Held(a) == l2.Held(a) == Value(l0.nodes, Witness(), l0.publics, a)
      decreases i, 0
    {
      if Shared(l0.nodes, a) {
        SharesReconstruct(a);
      } else {
        PublicHeld(a, Witness());
      }
    }

    lemma SumGate(i: NodeId, a: NodeId, b: NodeId)
      requires Joint() && i < |l0.nodes| && Shared(l0.nodes, i) && l0.nodes[i] == AddGate(a, b) && a < i && b < i
      ensures Combined(i) ==
                if !Shared(l0.nodes, b) then Add(Combined(a), l0.Held(b))
                else if !Shared(l0.nodes, a) then Add(l0.Held(a), Combined(b))
                else Add(Combined(a), Combined(b))
    {
      hide Add, Sum3;
      l0.HeldAtGate(i, a, b);
      l1.HeldAtGate(i, a, b);
      l2.HeldAtGate(i, a, b);
      Sum3OfAdd(l0.Held(a), l1.Held(a), l2.Held(a), l0.Held(b), l1.Held(b), l2.Held(b));
      Sum3AbsorbsOnce(l0.Held(a), l1.Held(a), l2.Held(a), l0.Held(b));
      Sum3AbsorbsOnce(l0.Held(b), l1.Held(b), l2.Held(b), l0.Held(a));
    }

    lemma ScalarGate(i: NodeId, a: NodeId, b: NodeId)
      requires Joint() && i < |l0.nodes| && Shared(l0.nodes, i) && !IsBeaver(l0.nodes, i)
      requires l0.nodes[i] == MulGate(a, b) && a < i && b < i
      requires !Shared(l0.nodes, a) ==> l0.Held(a) == l1.Held(a) == l2.Held(a)
      requires !Shared(l0.nodes, b) ==> l0.Held(b) == l1.Held(b) == l2.Held(b)
      ensures Combined(i) ==
                if !Shared(l0.nodes, b) then Mul(Combined(a), l0.Held(b)) else Mul(l0.Held(a), Combined(b))
    {
      hide Add, Mul, Sum3;
      l0.HeldAtGate(i, a, b);
      l1.HeldAtGate(i, a, b);
      l2.HeldAtGate(i, a, b);
      Sum3OfMul(l0.Held(a), l1.Held(a), l2.Held(a), l0.Held(b));
      Sum3OfMul(l0.Held(b), l1.Held(b), l2.Held(b), l0.Held(a));
    }

    lemma BeaverGate(i: NodeId)
      requires Joint() && TriplesMultiply() && AllMasksOpen()
      requires i < |l0.nodes| && IsBeaver(l0.nodes, i)
      requires Combined(l0.nodes[i].a) == Value(l0.nodes, Witness(), l0.publics, l0.nodes[i].a)
      requires Combined(l0.nodes[i].b) == Value(l0.nodes, Witness(), l0.publics, l0.nodes[i].b)
      ensures Combined(i) == Mul(Combined(l0.nodes[i].a), Combined(l0.nodes[i].b))
    {
      hide Add, Sub, Mul, Sum3, BeaverShare;
      var k := BeaversBefore(l0.nodes, i);
      BeaversMonotone(l0.nodes, i + 1, |l0.nodes|);
      assert MasksOpen(i);
      assert C(k) == Mul(A(k), B(k));
      BeaverSharesSum(l0.Triple(k), l1.Triple(k), l2.Triple(k), Combined(l0.nodes[i].a), Combined(l0.nodes[i].b));
    }
  }
}
