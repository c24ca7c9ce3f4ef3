/** The prover: for each repetition it simulates the three parties on fresh randomness, commits
    their views, and answers the challenge by opening two of them. */
module MpcithProver {
  import opened Wrappers
  import opened PrimeField
  import opened RandomTape
  import opened Circuits
  import opened Mpcith
  import opened MpcithProof
  import opened MpcithHonest
  import opened MpcithTheorems
  import MpcithVerifier

  /** Fresh commitment randomness, read from its own tape. */
  class BlockTape {
    const blocks: nat -> Randomness
    var pos: nat

    constructor (blocks: nat -> Randomness)
      ensures this.blocks == blocks && pos == 0
    {
      this.blocks := blocks;
      pos := 0;
    }

    method Fresh() returns (r: Randomness)
      modifies this
      ensures r == blocks(old(pos)) && pos == old(pos) + 1
    {
      r := blocks(pos);
      pos := pos + 1;
    }
  }

  /** A node during the simulation: a plaintext value, or one share per party. */
  datatype NodeVal = PublicVal(v: Elem) | SharedVal(s: seq<Elem>)
  {
    predicate Sized() { SharedVal? ==> |s| == 3 }

    /** The plaintext of a public node, zero for a shared one. */
    function PublicPart(): Elem { if PublicVal? then v else 0 }

    function Operand(p: Party): Elem
      requires Sized()
    {
      if PublicVal? then v else s[p]
    }
  }

  /** What a party has accumulated during one repetition. */
  datatype PartyState = PartyState(
    inputShares: seq<Elem>,
    localOperations: seq<LocalOperation>,
    tripleShares: seq<TripleShare>,
    openedValues: seq<Elem>)
  {
    function Recorded(op: LocalOperation): PartyState {
      this.(localOperations := localOperations + [op])
    }

    function Consumed(t: TripleShare, d: Elem, e: Elem): PartyState {
      this.(tripleShares := tripleShares + [t], openedValues := openedValues + [d, e])
    }
  }

  // ---- gates -----------------------------------------------------------------------------------------

  /** Party p's share of a sum with a shared operand: a public operand goes to party 0 only. */
  function AddShare(va: NodeVal, vb: NodeVal, p: Party): Elem
    requires va.Sized() && vb.Sized()
  {
    if va.SharedVal? && vb.SharedVal? then Add(va.s[p], vb.s[p])
    else
      var (shared, v) := if va.SharedVal? then (va, vb.PublicPart()) else (vb, va.PublicPart());
      if p == 0 then Add(shared.Operand(0), v) else shared.Operand(p)
  }

  method AddGateShares(out: NodeId, va: NodeVal, vb: NodeVal, parties: seq<PartyState>)
    returns (val: NodeVal, parties': seq<PartyState>)
    requires va.Sized() && vb.Sized() && |parties| == 3
    ensures |parties'| == 3
    ensures va.PublicVal? && vb.PublicVal? ==> val == PublicVal(Add(va.v, vb.v)) && parties' == parties
    ensures va.SharedVal? || vb.SharedVal? ==>
              && val == SharedVal([AddShare(va, vb, 0), AddShare(va, vb, 1), AddShare(va, vb, 2)])
              && forall p: Party :: parties'[p] ==
                   if p == 0 || (va.SharedVal? && vb.SharedVal?)
                   then parties[p].Recorded(AddOp(out, AddShare(va, vb, p))) else parties[p]
  {
    hide Add;
    if va.PublicVal? && vb.PublicVal? {
      return PublicVal(Add(va.v, vb.v)), parties;
    }
    parties' := parties;
    var shares: seq<Elem> := [];
    if va.SharedVal? && vb.SharedVal? {
      for p := 0 to 3
        invariant |parties'| == 3 && |shares| == p
        invariant forall q: Party :: parties'[q] ==
                    if q < p then parties[q].Recorded(AddOp(out, AddShare(va, vb, q))) else parties[q]
        invariant forall q: Party :: q < p ==> shares[q] == AddShare(va, vb, q)
      {
        var sum := Add(va.Operand(p), vb.Operand(p));
        parties' := parties'[p := parties'[p].Recorded(AddOp(out, sum))];
        shares := shares + [sum];
      }
    } else {
      var publicVal := if va.SharedVal? then vb.PublicPart() else va.PublicPart();
      var sharedVal := if va.SharedVal? then va else vb;
      for p := 0 to 3
        invariant |parties'| == 3 && |shares| == p
        invariant forall q: Party :: parties'[q] ==
                    if q < p && q == 0 then parties[q].Recorded(AddOp(out, AddShare(va, vb, q))) else parties[q]
        invariant forall q: Party :: q < p ==> shares[q] == AddShare(va, vb, q)
      {
        if p == 0 {
          var sum := Add(sharedVal.Operand(0), publicVal);
          parties' := parties'[0 := parties'[0].Recorded(AddOp(out, sum))];
          shares := shares + [sum];
        } else {
          shares := shares + [sharedVal.Operand(p)];
        }
      }
    }
    val := SharedVal(shares);
  }

  method ScalarMulShares(out: NodeId, va: NodeVal, vb: NodeVal, parties: seq<PartyState>)
    returns (val: NodeVal, parties': seq<PartyState>)
    requires va.Sized() && vb.Sized() && |parties| == 3 && (va.PublicVal? || vb.PublicVal?)
    ensures |parties'| == 3
    ensures va.PublicVal? && vb.PublicVal? ==> val == PublicVal(Mul(va.v, vb.v)) && parties' == parties
    ensures va.SharedVal? || vb.SharedVal? ==>
              var (sharedVal, scalar) := if va.SharedVal? then (va, vb.PublicPart()) else (vb, va.PublicPart());
              && val == SharedVal([Mul(sharedVal.s[0], scalar), Mul(sharedVal.s[1], scalar), Mul(sharedVal.s[2], scalar)])
              && forall p: Party :: parties'[p] ==
                   parties[p].Recorded(MulPublicOp(out, scalar, Mul(sharedVal.s[p], scalar)))
  {
    hide Mul;
    if va.PublicVal? && vb.PublicVal? {
      return PublicVal(Mul(va.v, vb.v)), parties;
    }
    var (sharedVal, scalar) := if va.SharedVal? then (va, vb.PublicPart()) else (vb, va.PublicPart());
    parties' := parties;
    var shares: seq<Elem> := [];
    for p := 0 to 3
      invariant |parties'| == 3 && |shares| == p
      invariant forall q: Party :: parties'[q] ==
                  if q < p then parties[q].Recorded(MulPublicOp(out, scalar, Mul(sharedVal.s[q], scalar))) else parties[q]
      invariant forall q: Party :: q < p ==> shares[q] == Mul(sharedVal.s[q], scalar)
    {
      var product := Mul(sharedVal.Operand(p), scalar);
      parties' := parties'[p := parties'[p].Recorded(MulPublicOp(out, scalar, product))];
      shares := shares + [product];
    }
    val := SharedVal(shares);
  }

  method BeaverMulShares(out: NodeId, va: NodeVal, vb: NodeVal, t: seq<TripleShare>, parties: seq<PartyState>)
    returns (val: NodeVal, parties': seq<PartyState>)
    requires va.Sized() && vb.Sized() && va.SharedVal? && vb.SharedVal? && |t| == |parties| == 3
    ensures |parties'| == 3
    ensures var d := Sum3(Sub(va.s[0], t[0].a), Sub(va.s[1], t[1].a), Sub(va.s[2], t[2].a));
            var e := Sum3(Sub(vb.s[0], t[0].b), Sub(vb.s[1], t[1].b), Sub(vb.s[2], t[2].b));
            && val == SharedVal([BeaverShare(t[0], d, e, true), BeaverShare(t[1], d, e, false), BeaverShare(t[2], d, e, false)])
            && forall p: Party :: parties'[p] ==
                 parties[p].Consumed(t[p], Sub(va.s[p], t[p].a), Sub(vb.s[p], t[p].b))
                 .Recorded(BeaverOp(out, |parties[0].tripleShares|, d, e, BeaverShare(t[p], d, e, p == 0)))
  {
    hide Add, Sub, Mul;
    var tripleIndex := |parties[0].tripleShares|;
    var d, e := OpenMasks(va, vb, t);
    parties' := parties;
    var shares: seq<Elem> := [];
    for p := 0 to 3
      invariant |parties'| == 3 && |shares| == p
      invariant forall q: Party :: parties'[q] ==
                  if q < p
                  then parties[q].Consumed(t[q], Sub(va.s[q], t[q].a), Sub(vb.s[q], t[q].b))
                       .Recorded(BeaverOp(out, tripleIndex, d, e, BeaverShare(t[q], d, e, q == 0)))
                  else parties[q]
      invariant forall q: Party :: q < p ==> shares[q] == BeaverShare(t[q], d, e, q == 0)
    {
      var dp := Sub(va.Operand(p), t[p].a);
      var ep := Sub(vb.Operand(p), t[p].b);
      var z := Add(Add(t[p].c, Mul(d, t[p].b)), Mul(e, t[p].a));
      if p == 0 {
        z := Add(z, Mul(d, e));
      }
      parties' := parties'[p := parties'[p].Consumed(t[p], dp, ep).Recorded(BeaverOp(out, tripleIndex, d, e, z))];
      shares := shares + [z];
    }
    val := SharedVal(shares);
  }

  method OpenMasks(va: NodeVal, vb: NodeVal, t: seq<TripleShare>) returns (d: Elem, e: Elem)
    requires va.Sized() && vb.Sized() && va.SharedVal? && vb.SharedVal? && |t| == 3
    ensures d == Sum3(Sub(va.s[0], t[0].a), Sub(va.s[1], t[1].a), Sub(va.s[2], t[2].a))
    ensures e == Sum3(Sub(vb.s[0], t[0].b), Sub(vb.s[1], t[1].b), Sub(vb.s[2], t[2].b))
  {
    hide Add, Sub;
    AddLaws(Sub(va.s[0], t[0].a), 0, 0);
    AddLaws(Sub(vb.s[0], t[0].b), 0, 0);
    d, e := 0, 0;
    for p := 0 to 3
      invariant p == 1 ==> d == Sub(va.s[0], t[0].a) && e == Sub(vb.s[0], t[0].b)
      invariant p == 2 ==> d == Add(Sub(va.s[0], t[0].a), Sub(va.s[1], t[1].a))
      invariant p == 2 ==> e == Add(Sub(vb.s[0], t[0].b), Sub(vb.s[1], t[1].b))
      invariant p == 0 ==> d == 0 && e == 0
      invariant p == 3 ==> d == Sum3(Sub(va.s[0], t[0].a), Sub(va.s[1], t[1].a), Sub(va.s[2], t[2].a))
      invariant p == 3 ==> e == Sum3(Sub(vb.s[0], t[0].b), Sub(vb.s[1], t[1].b), Sub(vb.s[2], t[2].b))
    {
      d := Add(d, Sub(va.Operand(p), t[p].a));
      e := Add(e, Sub(vb.Operand(p), t[p].b));
    }
  }

  // ---- the simulation against the honest run ---------------------------------------------------------

  function StateAt(run: Run, p: Party, i: nat): PartyState
    requires i <= |run.nodes|
  {
    PartyState(run.InputShares(p), run.Of(p).OpsBefore(i), run.Triples(p, BeaversBefore(run.nodes, i)), run.Of(p).OpenedBefore(i))
  }

  function ValAt(run: Run, i: NodeId): NodeVal
    requires i < |run.nodes|
  {
    if Shared(run.nodes, i) then SharedVal([run.Of(0).Held(i), run.Of(1).Held(i), run.Of(2).Held(i)])
    else PublicVal(run.Plain(i))
  }

  /** The simulation agrees with the honest run on the first |values| nodes. */
  ghost predicate Simulated(run: Run, values: seq<NodeVal>, parties: seq<PartyState>) {
    && |values| <= |run.nodes| && |parties| == 3
    && (forall p: Party :: parties[p] == StateAt(run, p, |values|))
    && (forall j :: 0 <= j < |values| ==> values[j] == ValAt(run, j))
  }

  lemma StateUnchanged(run: Run, p: Party, i: NodeId)
    requires i < |run.nodes| && run.Of(p).OpAt(i) == [] && !IsBeaver(run.nodes, i)
    ensures StateAt(run, p, i + 1) == StateAt(run, p, i)
  {
    hide Local.Held, Local.OpAt, Run.Of;
    var l := run.Of(p);
    assert l.nodes == run.nodes by { OfNodes(run, p); }
    assert l.OpsBefore(i) + [] == l.OpsBefore(i) && l.OpenedBefore(i) + [] == l.OpenedBefore(i);
  }

  lemma OfNodes(run: Run, p: Party)
    ensures run.Of(p).nodes == run.nodes && run.Of(p).party == p
  {
  }

  lemma StateRecords(run: Run, p: Party, i: NodeId, op: LocalOperation)
    requires i < |run.nodes| && run.Of(p).OpAt(i) == [op] && !IsBeaver(run.nodes, i)
    ensures StateAt(run, p, i + 1) == StateAt(run, p, i).Recorded(op)
  {
    hide Local.Held, Local.OpAt, Run.Of;
    var l := run.Of(p);
    assert l.nodes == run.nodes by { OfNodes(run, p); }
    assert l.OpenedBefore(i) + [] == l.OpenedBefore(i);
  }

  lemma PublicNode(run: Run, i: NodeId)
    requires i < |run.nodes| && !Shared(run.nodes, i)
    ensures run.Of(0).Held(i) == run.Of(1).Held(i) == run.Of(2).Held(i) == run.Plain(i)
  {
    PublicNodesIgnoreSecrets(run.nodes, run.secrets, [], run.publics, i);
  }

  /** What an addition gate does to one party in the honest run. */
  lemma AddStep(run: Run, p: Party, i: NodeId, a: NodeId, b: NodeId)
    requires i < |run.nodes| && run.nodes[i] == AddGate(a, b) && a < i && b < i && Shared(run.nodes, i)
    ensures var share := AddShare(ValAt(run, a), ValAt(run, b), p);
            && run.Of(p).Held(i) == share
            && StateAt(run, p, i + 1) ==
                 if p == 0 || (Shared(run.nodes, a) && Shared(run.nodes, b))
                 then StateAt(run, p, i).Recorded(AddOp(i, share)) else StateAt(run, p, i)
  {
    hide Add, Run.MasksBefore, Run.InputShares, Run.Triples;
    var l := run.Of(p);
    l.HeldAtGate(i, a, b);
    l.OpAtGate(i, a, b);
    if !Shared(run.nodes, a) {
      PublicNode(run, a);
    }
    if !Shared(run.nodes, b) {
      PublicNode(run, b);
    }
    AddLaws(l.Held(a), l.Held(b), 0);
    if p == 0 || (Shared(run.nodes, a) && Shared(run.nodes, b)) {
      StateRecords(run, p, i, AddOp(i, l.Held(i)));
    } else {
      StateUnchanged(run, p, i);
    }
  }

  /** What a multiplication with one shared operand does to one party. */
  lemma ScalarStep(run: Run, p: Party, i: NodeId, a: NodeId, b: NodeId)
    requires i < |run.nodes| && run.nodes[i] == MulGate(a, b) && a < i && b < i
    requires Shared(run.nodes, i) && !IsBeaver(run.nodes, i)
    ensures var (sharedVal, scalar) := if Shared(run.nodes, a) then (ValAt(run, a), run.Plain(b)) else (ValAt(run, b), run.Plain(a));
            && sharedVal.SharedVal?
            && run.Of(p).Held(i) == Mul(sharedVal.s[p], scalar)
            && StateAt(run, p, i + 1) == StateAt(run, p, i).Recorded(MulPublicOp(i, scalar, Mul(sharedVal.s[p], scalar)))
  {
    hide Mul, Run.MasksBefore, Run.InputShares, Run.Triples;
    var l := run.Of(p);
    l.HeldAtGate(i, a, b);
    l.OpAtGate(i, a, b);
    if !Shared(run.nodes, a) {
      PublicNode(run, a);
    } else {
      PublicNode(run, b);
    }
    MulLaws(l.Held(a), l.Held(b), 0);
    var scalar := if Shared(run.nodes, a) then l.Held(b) else l.Held(a);
    StateRecords(run, p, i, MulPublicOp(i, scalar, l.Held(i)));
  }

  /** The masks the prover forms from the three parties' openings are the honest masks. */
  lemma FormedMasks(run: Run, i: NodeId)
    requires run.Valid() && i < |run.nodes| && IsBeaver(run.nodes, i)
    ensures var a, b, t := run.nodes[i].a, run.nodes[i].b, run.TripleStart(BeaversBefore(run.nodes, i));
            && run.MasksAt(i)[0] == Sum3(Sub(run.Of(0).Held(a), DealtTriple(run.draws, t, 0).a),
                                         Sub(run.Of(1).Held(a), DealtTriple(run.draws, t, 1).a),
                                         Sub(run.Of(2).Held(a), DealtTriple(run.draws, t, 2).a))
            && run.MasksAt(i)[1] == Sum3(Sub(run.Of(0).Held(b), DealtTriple(run.draws, t, 0).b),
                                         Sub(run.Of(1).Held(b), DealtTriple(run.draws, t, 1).b),
                                         Sub(run.Of(2).Held(b), DealtTriple(run.draws, t, 2).b))
  {
    hide Add, Sub, Sum3, Local.Held, DealtTriple, Value, Run.TripleStart;
    var k := BeaversBefore(run.nodes, i);
    run.MaskOf(i, 0);
    run.MaskOf(i, 1);
    run.MaskOf(i, 2);
    run.OpeningsSum(i + 1, 2 * k);
    run.OpeningsSum(i + 1, 2 * k + 1);
  }

  /** What a Beaver multiplication does to one party in the honest run. */
  lemma BeaverStep(run: Run, p: Party, i: NodeId)
    requires i < |run.nodes| && IsBeaver(run.nodes, i)
    ensures var k := BeaversBefore(run.nodes, i);
            var t, d, e := DealtTriple(run.draws, run.TripleStart(k), p), run.MasksAt(i)[0], run.MasksAt(i)[1];
            var share := BeaverShare(t, d, e, p == 0);
            && run.Of(p).Held(i) == share && |StateAt(run, p, i).tripleShares| == k
            && StateAt(run, p, i + 1) ==
                 StateAt(run, p, i).Consumed(t, Sub(run.Of(p).Held(run.nodes[i].a), t.a), Sub(run.Of(p).Held(run.nodes[i].b), t.b))
                 .Recorded(BeaverOp(i, k, d, e, share))
  {
    hide Sub, BeaverShare, DealtTriple, Run.MasksBefore, Run.MasksAt, Run.TripleStart, Run.InputShares;
    run.MaskOf(i, p);
    var k := BeaversBefore(run.nodes, i);
    assert run.Triples(p, k + 1) == run.Triples(p, k) + [DealtTriple(run.draws, run.TripleStart(k), p)];
  }

  lemma PublicGate(run: Run, i: NodeId, a: NodeId, b: NodeId)
    requires i < |run.nodes| && a < i && b < i && !Shared(run.nodes, i)
    ensures run.nodes[i] == AddGate(a, b) ==> run.Plain(i) == Add(run.Plain(a), run.Plain(b))
    ensures run.nodes[i] == MulGate(a, b) ==> run.Plain(i) == Mul(run.Plain(a), run.Plain(b))
    ensures run.nodes[i].IsGate() ==> forall p: Party :: StateAt(run, p, i + 1) == StateAt(run, p, i)
  {
    hide Add, Mul, Run.MasksBefore, Run.InputShares, Run.Triples;
    if run.nodes[i].IsGate() {
      forall p: Party
        ensures StateAt(run, p, i + 1) == StateAt(run, p, i)
      {
        StateUnchanged(run, p, i);
      }
    }
    assert OperandValue(run.nodes, run.secrets, run.publics, i, a) == run.Plain(a);
    assert OperandValue(run.nodes, run.secrets, run.publics, i, b) == run.Plain(b);
  }

  lemma LeafStep(run: Run, i: NodeId)
    requires i < |run.nodes| && !run.nodes[i].IsGate()
    ensures forall p: Party :: StateAt(run, p, i + 1) == StateAt(run, p, i)
    ensures run.nodes[i].SecretInput? && SecretsBefore(run.nodes, i) < |run.secrets| ==>
              var k := SecretsBefore(run.nodes, i);
              ValAt(run, i) == SharedVal([run.InputShares(0)[k], run.InputShares(1)[k], run.InputShares(2)[k]])
    ensures run.nodes[i].PublicInput? ==> ValAt(run, i) == PublicVal(Slot(run.publics, PublicsBefore(run.nodes, i)))
    ensures run.nodes[i].Constant? ==> ValAt(run, i) == PublicVal(run.nodes[i].value)
  {
    hide Run.MasksBefore, Run.InputShares, Run.Triples;
    forall p: Party
      ensures StateAt(run, p, i + 1) == StateAt(run, p, i)
    {
      StateUnchanged(run, p, i);
    }
  }

  lemma SharedOperands(run: Run, i: NodeId, a: NodeId, b: NodeId)
    requires i < |run.nodes| && a < i && b < i && (run.nodes[i] == AddGate(a, b) || run.nodes[i] == MulGate(a, b))
    ensures Shared(run.nodes, i) <==> Shared(run.nodes, a) || Shared(run.nodes, b)
    ensures IsBeaver(run.nodes, i) <==> run.nodes[i].MulGate? && Shared(run.nodes, a) && Shared(run.nodes, b)
  {
  }

  // ---- the prover ------------------------------------------------------------------------------------

  class Prover {
    const circuit: Circuit
    const statement: Statement
    const secrets: seq<Elem>
    const rng: Tape
    const blockRng: BlockTape

    ghost predicate Valid() {
      ValidStatement(statement, circuit) && |secrets| == circuit.numSecretInputs
    }

    constructor (circuit: Circuit, statement: Statement, secrets: seq<Elem>, rng: Tape, blockRng: BlockTape)
      requires ValidStatement(statement, circuit) && |secrets| == circuit.numSecretInputs
      ensures Valid() && this.circuit == circuit && this.statement == statement && this.secrets == secrets
      ensures this.rng == rng && this.blockRng == blockRng
    {
      this.circuit, this.statement, this.secrets, this.rng, this.blockRng := circuit, statement, secrets, rng, blockRng;
    }

    /** The run that starts at a position of the tape. */
    function RunFrom(at: nat): Run {
      Run(circuit.nodes, statement.publicInputs, secrets, rng.draws, at)
    }

    method Draw3(value: Elem) returns (s: seq<Elem>)
      modifies rng
      ensures rng.pos == old(rng.pos) + 2 && |s| == 3
      ensures forall p: Party :: s[p] == Share3(value, rng.draws(old(rng.pos)), rng.draws(old(rng.pos) + 1), p)
    {
      var s0 := rng.Rand();
      var s1 := rng.Rand();
      var s2 := Sub(Sub(value, s0), s1);
      return [s0, s1, s2];
    }

    method NextTriple() returns (t: seq<TripleShare>)
      modifies rng
      ensures rng.pos == old(rng.pos) + 8 && |t| == 3
      ensures forall p: Party :: t[p] == DealtTriple(rng.draws, old(rng.pos), p)
    {
      hide Sub, Mul;
      var a := rng.Rand();
      var b := rng.Rand();
      var c := Mul(a, b);
      var ta := Draw3(a);
      var tb := Draw3(b);
      var tc := Draw3(c);
      t := [TripleShare(ta[0], tb[0], tc[0]), TripleShare(ta[1], tb[1], tc[1]), TripleShare(ta[2], tb[2], tc[2])];
    }

    /** Shares every secret input. */
    method ShareInputs() returns (parties: seq<PartyState>)
      modifies rng
      ensures |parties| == 3 && rng.pos == old(rng.pos) + 2 * |secrets|
      ensures forall p: Party :: parties[p] == PartyState(RunFrom(old(rng.pos)).InputShares(p), [], [], [])
    {
      ghost var run := RunFrom(rng.pos);
      parties := seq(3, _ => PartyState([], [], [], []));
      for i := 0 to |secrets|
        invariant |parties| == 3 && rng.pos == old(rng.pos) + 2 * i
        invariant forall p: Party :: parties[p] == PartyState(run.InputShares(p)[..i], [], [], [])
      {
        var shares := Draw3(secrets[i]);
        hide Share3;
        parties := seq(3, p requires 0 <= p < 3 && |parties| == 3 && |shares| == 3 =>
          parties[p].(inputShares := parties[p].inputShares + [shares[p]]));
      }
    }

    method SimulateGate(ghost run: Run, values: seq<NodeVal>, parties: seq<PartyState>)
      returns (val: NodeVal, parties': seq<PartyState>)
      requires Valid() && run.nodes == circuit.nodes && run.draws == rng.draws && run.Valid()
      requires Simulated(run, values, parties) && |values| < |circuit.nodes| && circuit.nodes[|values|].IsGate()
      requires rng.pos == run.TripleStart(BeaversBefore(run.nodes, |values|))
      modifies rng
      ensures val == ValAt(run, |values|) && |parties'| == 3
      ensures forall p: Party :: parties'[p] == StateAt(run, p, |values| + 1)
      ensures rng.pos == run.TripleStart(BeaversBefore(run.nodes, |values| + 1))
    {
      hide Add, Sub, Mul, BeaverShare, DealtTriple, AddShare, Run.MasksAt, Run.Of, Run.Plain, StateAt;
      var i := |values|;
      assert OperandsBefore(circuit.nodes[i], i);
      var a, b := circuit.nodes[i].a, circuit.nodes[i].b;
      var va, vb := values[a], values[b];
      SharedOperands(run, i, a, b);
      if va.PublicVal? && vb.PublicVal? {
        PublicGate(run, i, a, b);
        if circuit.nodes[i].AddGate? {
          val, parties' := AddGateShares(i, va, vb, parties);
        } else {
          val, parties' := ScalarMulShares(i, va, vb, parties);
        }
      } else if circuit.nodes[i].AddGate? {
        AddStep(run, 0, i, a, b);
        AddStep(run, 1, i, a, b);
        AddStep(run, 2, i, a, b);
        val, parties' := AddGateShares(i, va, vb, parties);
      } else if va.PublicVal? || vb.PublicVal? {
        ScalarStep(run, 0, i, a, b);
        ScalarStep(run, 1, i, a, b);
        ScalarStep(run, 2, i, a, b);
        val, parties' := ScalarMulShares(i, va, vb, parties);
      } else {
        FormedMasks(run, i);
        BeaverStep(run, 0, i);
        BeaverStep(run, 1, i);
        BeaverStep(run, 2, i);
        var t := NextTriple();
        val, parties' := BeaverMulShares(i, va, vb, t, parties);
      }
    }

    /** A leaf reads the next input of its kind, or its constant. */
    method SimulateLeaf(ghost run: Run, i: NodeId, parties: seq<PartyState>, nextSecret: nat, nextPublic: nat)
      returns (val: NodeVal)
      requires Valid() && run.nodes == circuit.nodes && run.publics == statement.publicInputs && run.secrets == secrets
      requires i < |circuit.nodes| && !circuit.nodes[i].IsGate() && |parties| == 3
      requires forall p: Party :: parties[p] == StateAt(run, p, i)
      requires nextSecret == SecretsBefore(circuit.nodes, i) && nextPublic == PublicsBefore(circuit.nodes, i)
      ensures val == ValAt(run, i)
      ensures forall p: Party :: parties[p] == StateAt(run, p, i + 1)
    {
      hide Run.Of, Run.Plain, Run.InputShares, StateAt, ValAt;
      CountsMonotone(circuit.nodes, i + 1, |circuit.nodes|);
      LeafStep(run, i);
      InputSharesOf(run, i);
      match circuit.nodes[i] {
        case SecretInput =>
          val := SharedVal([parties[0].inputShares[nextSecret], parties[1].inputShares[nextSecret],
                            parties[2].inputShares[nextSecret]]);
        case PublicInput =>
          val := PublicVal(statement.publicInputs[nextPublic]);
        case Constant(k) =>
          val := PublicVal(k);
      }
    }

    /** Simulates the three parties over the whole circuit. */
    method Simulate() returns (values: seq<NodeVal>, parties: seq<PartyState>)
      requires Valid()
      modifies rng
      ensures Simulated(RunFrom(old(rng.pos)), values, parties) && |values| == |circuit.nodes|
      ensures rng.pos == RunFrom(old(rng.pos)).End()
    {
      hide Run.Of, Run.Plain, ValAt, StateAt, Run.InputShares, PartyState.Recorded, Add, Sub, Mul, Run.Triples;
      ghost var run := RunFrom(rng.pos);
      parties := ShareInputs();
      values := [];
      StartState(run);
      var nextSecret, nextPublic := 0, 0;
      for i := 0 to |circuit.nodes|
        invariant |values| == i && Simulated(run, values, parties)
        invariant nextSecret == SecretsBefore(circuit.nodes, i) && nextPublic == PublicsBefore(circuit.nodes, i)
        invariant rng.pos == run.TripleStart(BeaversBefore(run.nodes, i))
      {
        var val: NodeVal;
        if circuit.nodes[i].IsGate() {
          val, parties := SimulateGate(run, values, parties);
        } else {
          val := SimulateLeaf(run, i, parties, nextSecret, nextPublic);
          nextSecret := nextSecret + if circuit.nodes[i].SecretInput? then 1 else 0;
          nextPublic := nextPublic + if circuit.nodes[i].PublicInput? then 1 else 0;
        }
        values := values + [val];
      }
    }

    /** Commits the three views under fresh randomness, in the order of the parties. */
    method CommitViews(ghost run: Run, id: nat, parties: seq<PartyState>)
      returns (commitments: seq<Digest>, randomness: seq<Randomness>, views: seq<PartyView>)
      requires run.nodes == circuit.nodes && |parties| == 3
      requires forall p: Party :: parties[p] == StateAt(run, p, |circuit.nodes|)
      modifies blockRng
      ensures blockRng.pos == old(blockRng.pos) + 3 && |commitments| == |randomness| == |views| == 3
      ensures forall q: Party ::
                && views[q] == run.Of(q).View(id)
                && randomness[q] == blockRng.blocks(old(blockRng.pos) + q)
                && commitments[q] == CommitView(views[q], randomness[q])
    {
      hide StateAt, Local.View, Run.Of;
      ViewOfState(run, 0, id);
      ViewOfState(run, 1, id);
      ViewOfState(run, 2, id);
      commitments, randomness, views := [], [], [];
      for p := 0 to 3
        invariant blockRng.pos == old(blockRng.pos) + p && |commitments| == |randomness| == |views| == p
        invariant forall q: Party :: q < p ==> views[q] == run.Of(q).View(id)
        invariant forall q: Party :: q < p ==> randomness[q] == blockRng.blocks(old(blockRng.pos) + q)
        invariant forall q: Party :: q < p ==> commitments[q] == CommitView(views[q], randomness[q])
      {
        var view := PartyView(id, p, parties[p].inputShares, parties[p].localOperations,
                              parties[p].tripleShares, parties[p].openedValues);
        var r := blockRng.Fresh();
        commitments := commitments + [CommitView(view, r)];
        randomness := randomness + [r];
        views := views + [view];
      }
    }

    /** One repetition up to its commitments. */
    method CommitRepetition(id: nat) returns (partial: PartialRepetition)
      requires Valid()
      modifies rng, blockRng
      ensures partial == HonestPartial(RunFrom(old(rng.pos)), circuit.outputs, id, blockRng.blocks, old(blockRng.pos))
      ensures rng.pos == RunFrom(old(rng.pos)).End() && blockRng.pos == old(blockRng.pos) + 3
    {
      hide Run.Of, Run.End, Run.Plain, StateAt, Local.View, OutputVal, ValAt;
      ghost var run := RunFrom(rng.pos);
      var values, parties := Simulate();
      var outputVals := seq(|circuit.outputs|, k requires 0 <= k < |circuit.outputs| && |values| == |circuit.nodes| =>
        var v := values[circuit.outputs[k]];
        if v.SharedVal? then (true, v.s) else (false, [0, 0, 0]));
      OutputsSimulated(run, values, circuit.outputs, outputVals);
      var commitments, randomness, views := CommitViews(run, id, parties);
      var broadcasts := [parties[0].openedValues, parties[1].openedValues, parties[2].openedValues];
      BroadcastsSimulated(run, id);
      partial := PartialRepetition(id, commitments, views, randomness, outputVals, broadcasts);
    }

    /** Opens the two views a challenge asks for and adds the hidden party's output shares. */
    method FinishRepetition(partial: PartialRepetition, hidden: Party) returns (rep: Repetition)
      requires WellFormedPartial(partial)
      ensures rep == Response(partial, hidden)
    {
      var shown: seq<OpenedView> := [];
      for p := 0 to 3
        invariant shown == (if p > 0 && hidden != 0 then [OpenedView(partial.views[0], partial.randomness[0])] else [])
                            + (if p > 1 && hidden != 1 then [OpenedView(partial.views[1], partial.randomness[1])] else [])
                            + (if p > 2 && hidden != 2 then [OpenedView(partial.views[2], partial.randomness[2])] else [])
      {
        if p != hidden {
          shown := shown + [OpenedView(partial.views[p], partial.randomness[p])];
        }
      }
      var shares := seq(|partial.outputVals|, k requires 0 <= k < |partial.outputVals| && WellFormedPartial(partial) =>
        if partial.outputVals[k].0 then partial.outputVals[k].1[hidden] else 0);
      rep := Repetition(partial.id, partial.commitments, hidden, shown, shares, partial.broadcasts[hidden]);
    }

    /** Where repetition i starts on a tape read from a position. */
    function StartOf(at: nat, i: nat): nat {
      if i == 0 then at else RunFrom(StartOf(at, i - 1)).End()
    }

    function PartialAt(at: nat, blockAt: nat, i: nat): PartialRepetition
      requires OutputsDefined(circuit)
    {
      HonestPartial(RunFrom(StartOf(at, i)), circuit.outputs, i, blockRng.blocks, blockAt + 3 * i)
    }

    /** The commitment phase: every repetition is committed before any is opened. */
    method CommitPhase(count: nat) returns (r: Result<seq<PartialRepetition>, MpcithError>)
      requires Valid()
      modifies rng, blockRng
      ensures r.Ok? <==> count > 0
      ensures r.Err? ==> r.error == InvalidRepetitionCount && rng.pos == old(rng.pos) && blockRng.pos == old(blockRng.pos)
      ensures r.Ok? ==>
                && |r.value| == count
                && forall i :: 0 <= i < count ==> r.value[i] == PartialAt(old(rng.pos), old(blockRng.pos), i)
    {
      hide HonestPartial, RunFrom, Run.End;
      if count == 0 {
        return Err(InvalidRepetitionCount);
      }
      var partials: seq<PartialRepetition> := [];
      for i := 0 to count
        invariant |partials| == i && rng.pos == StartOf(old(rng.pos), i) && blockRng.pos == old(blockRng.pos) + 3 * i
        invariant forall j :: 0 <= j < i ==> partials[j] == PartialAt(old(rng.pos), old(blockRng.pos), j)
      {
        var partial := CommitRepetition(i);
        partials := partials + [partial];
      }
      return Ok(partials);
    }

    method FinishAll(ghost at: nat, ghost blockAt: nat, partials: seq<PartialRepetition>, hidden: seq<Party>)
      returns (repetitions: seq<Repetition>)
      requires OutputsDefined(circuit) && |partials| == |hidden|
      requires forall i :: 0 <= i < |partials| ==> partials[i] == PartialAt(at, blockAt, i)
      ensures |repetitions| == |partials|
      ensures forall i :: 0 <= i < |partials| ==>
                repetitions[i] == HonestRepetition(RunFrom(StartOf(at, i)), circuit, i, blockRng.blocks,
                                                   blockAt + 3 * i, hidden[i])
    {
      hide HonestPartial, Response, StartOf;
      repetitions := [];
      for i := 0 to |partials|
        invariant |repetitions| == i
        invariant forall j :: 0 <= j < i ==>
                    repetitions[j] == HonestRepetition(RunFrom(StartOf(at, j)), circuit, j, blockRng.blocks,
                                                       blockAt + 3 * j, hidden[j])
      {
        PartialWellFormed(RunFrom(StartOf(at, i)), i, blockAt + 3 * i);
        var rep := FinishRepetition(partials[i], hidden[i]);
        repetitions := repetitions + [rep];
      }
    }

    /** Joint proving: one callback sees all commitments and returns every challenge. Whatever the
        callback does, a proof that comes out is honest, and the verifier judges it valid exactly
        when the secret-dependent outputs are the expected ones. */
    method ProveJoint(count: nat, challengesOf: seq<(nat, seq<Digest>)> -> Result<seq<Party>, MpcithError>)
      returns (r: Result<seq<Repetition>, MpcithError>, ghost challenges: Result<seq<Party>, MpcithError>)
      requires Valid()
      modifies rng, blockRng
      ensures count == 0 ==> r == Err(InvalidRepetitionCount)
      ensures count > 0 ==>
                challenges == challengesOf(seq(count, i requires 0 <= i < count && OutputsDefined(circuit) =>
                                (i, PartialAt(old(rng.pos), old(blockRng.pos), i).commitments)))
      ensures count > 0 && challenges.Err? ==> r == Err(challenges.error)
      ensures count > 0 && challenges.Ok? && |challenges.value| != count ==> r == Err(InvalidProtocolState)
      ensures count > 0 && challenges.Ok? && |challenges.value| == count ==>
                && r.Ok? && |r.value| == count
                && (forall i :: 0 <= i < count ==>
                      r.value[i] == HonestRepetition(RunFrom(StartOf(old(rng.pos), i)), circuit, i, blockRng.blocks,
                                                     old(blockRng.pos) + 3 * i, challenges.value[i]))
                && MpcithVerifier.Verdict(statement, r.value, circuit, 0) == Some(OutputsRight(circuit, statement, secrets, 0))
    {
      hide HonestPartial, HonestRepetition, StartOf, RunFrom, MpcithVerifier.Verdict, OutputsRight;
      challenges := Err(InvalidRepetitionCount);
      ghost var at, blockAt := rng.pos, blockRng.pos;
      var committed := CommitPhase(count);
      if committed.Err? {
        return Err(committed.error), challenges;
      }
      var partials := committed.value;
      var sessions := seq(count, i requires 0 <= i < count && |partials| == count => (partials[i].id, partials[i].commitments));
      SessionsOf(at, blockAt, partials, sessions);
      var answers := challengesOf(sessions);
      challenges := answers;
      if answers.Err? {
        return Err(answers.error), challenges;
      }
      if |answers.value| != count {
        return Err(InvalidProtocolState), challenges;
      }
      var repetitions := FinishAll(at, blockAt, partials, answers.value);
      JointIsHonest(at, blockAt, answers.value, repetitions);
      return Ok(repetitions), challenges;
    }

    lemma PartialWellFormed(run: Run, id: nat, at: nat)
      requires run.nodes == circuit.nodes && OutputsDefined(circuit)
      ensures WellFormedPartial(HonestPartial(run, circuit.outputs, id, blockRng.blocks, at))
      ensures HonestPartial(run, circuit.outputs, id, blockRng.blocks, at).id == id
    {
      hide Local.Held, Local.OpsBefore, Local.OpenedBefore, Run.MasksBefore, Run.InputShares, Run.Triples;
    }

    lemma SessionsOf(at: nat, blockAt: nat, partials: seq<PartialRepetition>, sessions: seq<(nat, seq<Digest>)>)
      requires OutputsDefined(circuit) && |sessions| == |partials|
      requires forall i :: 0 <= i < |partials| ==> partials[i] == PartialAt(at, blockAt, i)
      requires forall i :: 0 <= i < |partials| ==> sessions[i] == (partials[i].id, partials[i].commitments)
      ensures sessions == seq(|partials|, i requires 0 <= i < |partials| && OutputsDefined(circuit) =>
                                (i, PartialAt(at, blockAt, i).commitments))
    {
      hide HonestPartial;
      forall i | 0 <= i < |partials|
        ensures sessions[i] == (i, PartialAt(at, blockAt, i).commitments)
      {
        PartialWellFormed(RunFrom(StartOf(at, i)), i, blockAt + 3 * i);
      }
    }

    lemma JointIsHonest(at: nat, blockAt: nat, hidden: seq<Party>, proof: seq<Repetition>)
      requires Valid() && |hidden| == |proof| > 0
      requires forall i :: 0 <= i < |proof| ==>
                 proof[i] == HonestRepetition(RunFrom(StartOf(at, i)), circuit, i, blockRng.blocks, blockAt + 3 * i, hidden[i])
      ensures MpcithVerifier.Verdict(statement, proof, circuit, 0) == Some(OutputsRight(circuit, statement, secrets, 0))
    {
      hide HonestRepetition, StartOf, MpcithVerifier.Verdict, OutputsRight;
      var runs := seq(|proof|, i requires 0 <= i < |proof| => RunFrom(StartOf(at, i)));
      var ats := seq(|proof|, i requires 0 <= i < |proof| => blockAt + 3 * i);
      Completeness(circuit, statement, secrets, runs, blockRng.blocks, ats, hidden, proof);
    }
  }

  lemma StartState(run: Run)
    ensures forall p: Party :: StateAt(run, p, 0) == PartyState(run.InputShares(p), [], [], [])
  {
    forall p: Party
      ensures StateAt(run, p, 0) == PartyState(run.InputShares(p), [], [], [])
    {
      assert run.Triples(p, 0) == [];
    }
  }

  lemma ViewOfState(run: Run, p: Party, id: nat)
    ensures var s := StateAt(run, p, |run.nodes|);
            run.Of(p).View(id) == PartyView(id, p, s.inputShares, s.localOperations, s.tripleShares, s.openedValues)
  {
  }

  lemma OutputsSimulated(run: Run, values: seq<NodeVal>, outputs: seq<NodeId>, vals: seq<(bool, seq<Elem>)>)
    requires |values| == |run.nodes| && |vals| == |outputs|
    requires forall j :: 0 <= j < |values| ==> values[j] == ValAt(run, j)
    requires forall k :: 0 <= k < |outputs| ==> outputs[k] < |run.nodes|
    requires forall k :: 0 <= k < |outputs| ==>
               vals[k] == var v := values[outputs[k]]; if v.SharedVal? then (true, v.s) else (false, [0, 0, 0])
    ensures vals == seq(|outputs|, k requires 0 <= k < |outputs| => OutputVal(run, outputs[k]))
  {
    hide Run.Of, Run.Plain;
    forall k | 0 <= k < |outputs|
      ensures vals[k] == OutputVal(run, outputs[k])
    {
      assert values[outputs[k]] == ValAt(run, outputs[k]);
    }
  }

  lemma BroadcastsSimulated(run: Run, id: nat)
    ensures forall p: Party :: run.Of(p).View(id).openedValues == StateAt(run, p, |run.nodes|).openedValues
  {
  }

  lemma InputSharesOf(run: Run, i: nat)
    requires i <= |run.nodes|
    ensures forall p: Party :: StateAt(run, p, i).inputShares == run.InputShares(p)
  {
  }
}
