/** The verifier: it replays each opened party from its claimed view and the broadcast masks,
    then checks the output sums. It shares no code with the prover. */
module MpcithVerifier {
  import opened Wrappers
  import opened PrimeField
  import opened BigEndian
  import opened Circuits
  import opened Mpcith
  import opened MpcithProof
  import opened SecretDependence

  /** A node during a replay: a plaintext value, or the replayed party's share. */
  datatype NodeVal = PublicVal(v: Elem) | SharedVal(v: Elem)

  // ---- replaying one party ---------------------------------------------------------------------------

  /** The run a claimed view commits its party to. */
  function Claimed(c: Circuit, publics: seq<Elem>, view: PartyView, globals: seq<Elem>): Local {
    Local(c.nodes, publics, view.partyId, view.inputShares, view.tripleShares, globals)
  }

  /** A view replays exactly when it is the honest view of its own shares under the masks, and
      covers exactly the circuit. */
  ghost predicate Replays(c: Circuit, publics: seq<Elem>, view: PartyView, globals: seq<Elem>) {
    var l, n := Claimed(c, publics, view, globals), |c.nodes|;
    && |view.inputShares| == c.numSecretInputs
    && |view.tripleShares| == BeaversBefore(c.nodes, n) && 2 * BeaversBefore(c.nodes, n) <= |globals|
    && view.localOperations == l.OpsBefore(n) && view.openedValues == l.OpenedBefore(n)
  }

  function ReplayedValue(l: Local, i: NodeId): NodeVal
    requires i < |l.nodes|
  {
    if Shared(l.nodes, i) then SharedVal(l.Held(i)) else PublicVal(l.Held(i))
  }

  /** How far a replay has got after i nodes without finding a fault. */
  ghost predicate ReplayedUpTo(l: Local, view: PartyView, i: nat)
    requires i <= |l.nodes|
  {
    && l.OpsBefore(i) <= view.localOperations && l.OpenedBefore(i) <= view.openedValues
    && BeaversBefore(l.nodes, i) <= |view.tripleShares| && 2 * BeaversBefore(l.nodes, i) <= |l.globals|
  }

  lemma ReplaysGetsEverywhere(c: Circuit, publics: seq<Elem>, view: PartyView, globals: seq<Elem>, i: nat)
    requires Replays(c, publics, view, globals) && i <= |c.nodes|
    ensures ReplayedUpTo(Claimed(c, publics, view, globals), view, i)
  {
    var l := Claimed(c, publics, view, globals);
    l.OpsGrow(i, |c.nodes|);
    l.OpenedGrow(i, |c.nodes|);
    BeaversMonotone(c.nodes, i, |c.nodes|);
  }

  /** Takes the next recorded operation and compares it with the recomputed one. */
  method ExpectOp(ops: seq<LocalOperation>, next: nat, expected: LocalOperation) returns (fault: Option<MpcithError>)
    ensures fault.None? <==> next < |ops| && ops[next] == expected
    ensures next >= |ops| ==> fault == Some(InconsistentView)
  {
    if next >= |ops| {
      return Some(InconsistentView);
    }
    var op := ops[next];
    if op.AddOp? != expected.AddOp? || op.MulPublicOp? != expected.MulPublicOp? {
      return Some(InvalidOperation);
    }
    if op != expected {
      return Some(InconsistentView);
    }
    return None;
  }

  method ReplayAdd(index: NodeId, party: Party, va: NodeVal, vb: NodeVal, ops: seq<LocalOperation>, next: nat)
    returns (r: Result<NodeVal, MpcithError>, taken: nat)
    ensures var z := Add(va.v, vb.v);
            if va.PublicVal? && vb.PublicVal? then r == Ok(PublicVal(z)) && taken == 0
            else if party == 0 || (va.SharedVal? && vb.SharedVal?) then
              && (r.Ok? <==> next < |ops| && ops[next] == AddOp(index, z))
              && (r.Ok? ==> r.value == SharedVal(z) && taken == 1)
            else r == Ok(if va.SharedVal? then va else vb) && taken == 0
  {
    taken := 0;
    if va.PublicVal? && vb.PublicVal? {
      return Ok(PublicVal(Add(va.v, vb.v))), 0;
    }
    if (va.SharedVal? && vb.SharedVal?) || party == 0 {
      // Both shared, or mixed at party 0, which alone absorbs the public value.
      var expected := Add(va.v, vb.v);
      var fault := ExpectOp(ops, next, AddOp(index, expected));
      if fault.Some? {
        return Err(fault.value), 0;
      }
      return Ok(SharedVal(expected)), 1;
    }
    return Ok(if va.SharedVal? then va else vb), 0;
  }

  method ReplayScalarMul(index: NodeId, va: NodeVal, vb: NodeVal, ops: seq<LocalOperation>, next: nat)
    returns (r: Result<NodeVal, MpcithError>, taken: nat)
    requires va.PublicVal? || vb.PublicVal?
    ensures var z := Mul(va.v, vb.v);
            if va.PublicVal? && vb.PublicVal? then r == Ok(PublicVal(z)) && taken == 0
            else
              && (r.Ok? <==> (next < |ops| && ops[next] == MulPublicOp(index, if va.SharedVal? then vb.v else va.v, z)))
              && (r.Ok? ==> r.value == SharedVal(z) && taken == 1)
  {
    taken := 0;
    if va.PublicVal? && vb.PublicVal? {
      return Ok(PublicVal(Mul(va.v, vb.v))), 0;
    }
    var expected := Mul(va.v, vb.v);
    var scalar := if vb.PublicVal? then vb.v else va.v;
    var fault := ExpectOp(ops, next, MulPublicOp(index, scalar, expected));
    if fault.Some? {
      return Err(fault.value), 0;
    }
    return Ok(SharedVal(expected)), 1;
  }

  /** What a Beaver step of a replay must find in the view and in the masks. */
  predicate BeaverStepOk(index: NodeId, view: PartyView, x: Elem, y: Elem, k: nat, globals: seq<Elem>, next: nat) {
    && k < |view.tripleShares| && 2 * k + 1 < |view.openedValues| && 2 * k + 1 < |globals|
    && next < |view.localOperations|
    && var t := view.tripleShares[k];
       && view.openedValues[2 * k] == Sub(x, t.a) && view.openedValues[2 * k + 1] == Sub(y, t.b)
       && view.localOperations[next] ==
            BeaverOp(index, k, globals[2 * k], globals[2 * k + 1],
                     BeaverShare(t, globals[2 * k], globals[2 * k + 1], view.partyId == 0))
  }

  method ReplayBeaver(index: NodeId, view: PartyView, x: Elem, y: Elem, k: nat, globals: seq<Elem>, next: nat)
    returns (r: Result<NodeVal, MpcithError>)
    ensures r.Ok? <==> BeaverStepOk(index, view, x, y, k, globals, next)
    ensures r.Ok? ==> (r.value ==
              SharedVal(BeaverShare(view.tripleShares[k], globals[2 * k], globals[2 * k + 1], view.partyId == 0)))
  {
    if k >= |view.tripleShares| {
      return Err(InconsistentView);
    }
    var triple := view.tripleShares[k];
    if 2 * k + 1 >= |view.openedValues| {
      return Err(MissingResponse);
    }
    var dClaim, eClaim := view.openedValues[2 * k], view.openedValues[2 * k + 1];
    if dClaim != Sub(x, triple.a) || eClaim != Sub(y, triple.b) {
      return Err(InvalidOpening);
    }
    if 2 * k + 1 >= |globals| {
      return Err(InvalidOpening);
    }
    var d, e := globals[2 * k], globals[2 * k + 1];
    var z := Add(Add(triple.c, Mul(d, triple.b)), Mul(e, triple.a));
    if view.partyId == 0 {
      z := Add(z, Mul(d, e));
    }
    var fault := ExpectOp(view.localOperations, next, BeaverOp(index, k, d, e, z));
    if fault.Some? {
      return Err(fault.value);
    }
    return Ok(SharedVal(z));
  }

  // ---- one step of a replay --------------------------------------------------------------------------

  lemma PrefixOne<T>(done: seq<T>, x: T, all: seq<T>)
    requires done <= all
    ensures done + [x] <= all <==> |done| < |all| && all[|done|] == x
  {
    if |done| < |all| && all[|done|] == x {
      assert all[..|done| + 1] == done + [x];
    }
  }

  lemma PrefixTwo<T>(done: seq<T>, x: T, y: T, all: seq<T>)
    requires done <= all
    ensures done + [x, y] <= all <==> |done| + 1 < |all| && all[|done|] == x && all[|done| + 1] == y
  {
    if |done| + 1 < |all| && all[|done|] == x && all[|done| + 1] == y {
      assert all[..|done| + 2] == done + [x, y];
    }
  }

  lemma NothingRecorded(l: Local, view: PartyView, i: NodeId)
    requires i < |l.nodes| && ReplayedUpTo(l, view, i) && l.OpAt(i) == [] && !IsBeaver(l.nodes, i)
    ensures ReplayedUpTo(l, view, i + 1) && l.OpsBefore(i + 1) == l.OpsBefore(i)
  {
    assert l.OpsBefore(i) + [] == l.OpsBefore(i) && l.OpenedBefore(i) + [] == l.OpenedBefore(i);
  }

  lemma OneRecorded(l: Local, view: PartyView, i: NodeId, op: LocalOperation)
    requires i < |l.nodes| && ReplayedUpTo(l, view, i) && l.OpAt(i) == [op] && !IsBeaver(l.nodes, i)
    ensures var next := |l.OpsBefore(i)|;
            && (ReplayedUpTo(l, view, i + 1) <==> next < |view.localOperations| && view.localOperations[next] == op)
            && |l.OpsBefore(i + 1)| == next + 1
  {
    PrefixOne(l.OpsBefore(i), op, view.localOperations);
    assert l.OpenedBefore(i) + [] == l.OpenedBefore(i);
  }

  lemma AddStep(l: Local, view: PartyView, i: NodeId, a: NodeId, b: NodeId)
    requires i < |l.nodes| && l.nodes[i] == AddGate(a, b) && a < i && b < i && ReplayedUpTo(l, view, i)
    ensures var va, vb := ReplayedValue(l, a), ReplayedValue(l, b);
            var z, next := Add(va.v, vb.v), |l.OpsBefore(i)|;
            && BeaversBefore(l.nodes, i + 1) == BeaversBefore(l.nodes, i)
            && if va.PublicVal? && vb.PublicVal? then
                 ReplayedUpTo(l, view, i + 1) && ReplayedValue(l, i) == PublicVal(z) && |l.OpsBefore(i + 1)| == next
               else if l.party == 0 || (va.SharedVal? && vb.SharedVal?) then
                 && (ReplayedUpTo(l, view, i + 1) <==>
                       next < |view.localOperations| && view.localOperations[next] == AddOp(i, z))
                 && ReplayedValue(l, i) == SharedVal(z) && |l.OpsBefore(i + 1)| == next + 1
               else
                 && ReplayedUpTo(l, view, i + 1) && |l.OpsBefore(i + 1)| == next
                 && ReplayedValue(l, i) == if va.SharedVal? then va else vb
  {
    hide Add;
    l.OpAtGate(i, a, b);
    if !Shared(l.nodes, i) {
      l.HeldAtPublicGate(i, a, b);
      hide Local.Held, Local.OpAt;
      NothingRecorded(l, view, i);
    } else {
      l.HeldAtGate(i, a, b);
      hide Local.Held, Local.OpAt;
      if l.party == 0 || (Shared(l.nodes, a) && Shared(l.nodes, b)) {
        OneRecorded(l, view, i, AddOp(i, l.Held(i)));
      } else {
        NothingRecorded(l, view, i);
      }
    }
  }

  lemma ScalarStep(l: Local, view: PartyView, i: NodeId, a: NodeId, b: NodeId)
    requires i < |l.nodes| && l.nodes[i] == MulGate(a, b) && a < i && b < i && ReplayedUpTo(l, view, i)
    requires !IsBeaver(l.nodes, i)
    ensures var va, vb := ReplayedValue(l, a), ReplayedValue(l, b);
            var z, next := Mul(va.v, vb.v), |l.OpsBefore(i)|;
            && BeaversBefore(l.nodes, i + 1) == BeaversBefore(l.nodes, i)
            && if va.PublicVal? && vb.PublicVal? then
                 ReplayedUpTo(l, view, i + 1) && ReplayedValue(l, i) == PublicVal(z) && |l.OpsBefore(i + 1)| == next
               else
                 && (ReplayedUpTo(l, view, i + 1) <==>
                       && next < |view.localOperations|
                       && view.localOperations[next] == MulPublicOp(i, if va.SharedVal? then vb.v else va.v, z))
                 && ReplayedValue(l, i) == SharedVal(z) && |l.OpsBefore(i + 1)| == next + 1
  {
    hide Mul;
    l.OpAtGate(i, a, b);
    if !Shared(l.nodes, i) {
      l.HeldAtPublicGate(i, a, b);
      hide Local.Held, Local.OpAt;
      NothingRecorded(l, view, i);
    } else {
      l.HeldAtGate(i, a, b);
      hide Local.Held, Local.OpAt;
      var scalar := if Shared(l.nodes, a) then l.Held(b) else l.Held(a);
      OneRecorded(l, view, i, MulPublicOp(i, scalar, l.Held(i)));
    }
  }

  lemma BeaverStep(l: Local, view: PartyView, i: NodeId, a: NodeId, b: NodeId)
    requires i < |l.nodes| && l.nodes[i] == MulGate(a, b) && a < i && b < i && ReplayedUpTo(l, view, i)
    requires IsBeaver(l.nodes, i) && l.triples == view.tripleShares && l.party == view.partyId
    ensures var k, next := BeaversBefore(l.nodes, i), |l.OpsBefore(i)|;
            && BeaversBefore(l.nodes, i + 1) == k + 1 && |l.OpsBefore(i + 1)| == next + 1
            && (ReplayedUpTo(l, view, i + 1) <==> BeaverStepOk(i, view, l.Held(a), l.Held(b), k, l.globals, next))
            && (ReplayedUpTo(l, view, i + 1) ==>
                  ReplayedValue(l, i) == SharedVal(BeaverShare(view.tripleShares[k], l.globals[2 * k],
                                                               l.globals[2 * k + 1], l.party == 0)))
  {
    hide Add, Sub, Mul, BeaverShare;
    var k := BeaversBefore(l.nodes, i);
    PrefixOne(l.OpsBefore(i), l.OpAt(i)[0], view.localOperations);
    assert l.OpAt(i) == [l.OpAt(i)[0]];
    PrefixTwo(l.OpenedBefore(i), l.MasksAt(i)[0], l.MasksAt(i)[1], view.openedValues);
    assert l.MasksAt(i) == [l.MasksAt(i)[0], l.MasksAt(i)[1]];
  }

  datatype Cursors = Cursors(secret: nat, public: nat, op: nat, triple: nat)

  /** The replay of the first |values| nodes found no fault, produced these values, and consumed
      inputs, operations and triples up to these cursors. */
  ghost predicate InProgress(l: Local, view: PartyView, values: seq<NodeVal>, next: Cursors) {
    var i := |values|;
    && i <= |l.nodes| && ReplayedUpTo(l, view, i)
    && next.secret == SecretsBefore(l.nodes, i) && next.public == PublicsBefore(l.nodes, i)
    && next.op == |l.OpsBefore(i)| && next.triple == BeaversBefore(l.nodes, i)
    && forall j :: 0 <= j < i ==> values[j] == ReplayedValue(l, j)
  }

  /** Replays one gate against the next recorded operation, triple and opening. */
  method ReplayGate(c: Circuit, ghost l: Local, view: PartyView, globals: seq<Elem>, values: seq<NodeVal>, next: Cursors)
    returns (val: Result<NodeVal, MpcithError>, ops: nat, triples: nat)
    requires l.nodes == c.nodes && l.triples == view.tripleShares && l.party == view.partyId && l.globals == globals
    requires TopologicalOrder(c.nodes) && |values| < |c.nodes| && c.nodes[|values|].IsGate()
    requires InProgress(l, view, values, next)
    ensures val.Ok? <==> ReplayedUpTo(l, view, |values| + 1)
    ensures val.Ok? ==> val.value == ReplayedValue(l, |values|)
    ensures val.Ok? ==> next.op + ops == |l.OpsBefore(|values| + 1)|
    ensures val.Ok? ==> next.triple + triples == BeaversBefore(c.nodes, |values| + 1)
  {
    hide Add, Sub, Mul, BeaverShare, BeaverStepOk;
    var i := |values|;
    var a, b := c.nodes[i].a, c.nodes[i].b;
    assert OperandsBefore(c.nodes[i], i);
    var va, vb := values[a], values[b];
    assert va == ReplayedValue(l, a) && vb == ReplayedValue(l, b);
    ops, triples := 0, 0;
    if c.nodes[i].AddGate? {
      AddStep(l, view, i, a, b);
      hide Local.Held, Local.OpsBefore, Local.OpAt, ReplayedUpTo, BeaversBefore;
      val, ops := ReplayAdd(i, view.partyId, va, vb, view.localOperations, next.op);
    } else if va.SharedVal? && vb.SharedVal? {
      BeaverStep(l, view, i, a, b);
      hide Local.Held, Local.OpsBefore, Local.OpAt, ReplayedUpTo, BeaversBefore;
      val := ReplayBeaver(i, view, va.v, vb.v, next.triple, globals, next.op);
      ops, triples := 1, 1;
    } else {
      ScalarStep(l, view, i, a, b);
      hide Local.Held, Local.OpsBefore, Local.OpAt, ReplayedUpTo, BeaversBefore;
      val, ops := ReplayScalarMul(i, va, vb, view.localOperations, next.op);
    }
  }

  /** A leaf records nothing; it reads the next input of its kind, or its constant. */
  method ReplayLeaf(c: Circuit, s: Statement, view: PartyView, globals: seq<Elem>, values: seq<NodeVal>, next: Cursors)
    returns (leaf: NodeVal, next': Cursors)
    requires ValidStatement(s, c) && |view.inputShares| == c.numSecretInputs && |values| < |c.nodes|
    requires InProgress(Claimed(c, s.publicInputs, view, globals), view, values, next) && !c.nodes[|values|].IsGate()
    ensures ReplayedUpTo(Claimed(c, s.publicInputs, view, globals), view, |values| + 1)
    ensures InProgress(Claimed(c, s.publicInputs, view, globals), view, values + [leaf], next')
  {
    hide Local.Held, Local.OpsBefore, Local.OpAt, ReplayedUpTo, ReplayedValue;
    ghost var l := Claimed(c, s.publicInputs, view, globals);
    CountsMonotone(c.nodes, |values| + 1, |c.nodes|);
    LeafReplayed(l, view, |values|);
    next' := next;
    match c.nodes[|values|] {
      case SecretInput =>
        leaf := SharedVal(view.inputShares[next.secret]);
        next' := next.(secret := next.secret + 1);
      case PublicInput =>
        leaf := PublicVal(s.publicInputs[next.public]);
        next' := next.(public := next.public + 1);
      case Constant(k) =>
        leaf := PublicVal(k);
    }
  }

  lemma LeafReplayed(l: Local, view: PartyView, i: NodeId)
    requires i < |l.nodes| && !l.nodes[i].IsGate() && ReplayedUpTo(l, view, i)
    ensures ReplayedUpTo(l, view, i + 1) && l.OpsBefore(i + 1) == l.OpsBefore(i)
    ensures BeaversBefore(l.nodes, i + 1) == BeaversBefore(l.nodes, i)
    ensures l.nodes[i].SecretInput? ==> ReplayedValue(l, i) == SharedVal(Slot(l.shares, SecretsBefore(l.nodes, i)))
    ensures l.nodes[i].PublicInput? ==> ReplayedValue(l, i) == PublicVal(Slot(l.publics, PublicsBefore(l.nodes, i)))
    ensures l.nodes[i].Constant? ==> ReplayedValue(l, i) == PublicVal(l.nodes[i].value)
  {
    hide ReplayedUpTo, Local.OpsBefore;
    NothingRecorded(l, view, i);
  }

  /** Replays one node. */
  method ReplayNode(c: Circuit, s: Statement, view: PartyView, globals: seq<Elem>, values: seq<NodeVal>, next: Cursors)
    returns (r: Result<seq<NodeVal>, MpcithError>, next': Cursors)
    requires ValidStatement(s, c) && |view.inputShares| == c.numSecretInputs && |values| < |c.nodes|
    requires InProgress(Claimed(c, s.publicInputs, view, globals), view, values, next)
    ensures r.Ok? <==> ReplayedUpTo(Claimed(c, s.publicInputs, view, globals), view, |values| + 1)
    ensures r.Ok? ==> |r.value| == |values| + 1
    ensures r.Ok? ==> InProgress(Claimed(c, s.publicInputs, view, globals), view, r.value, next')
  {
    hide Local.Held, Local.OpsBefore, ReplayedUpTo, BeaversBefore, ReplayedValue;
    ghost var l := Claimed(c, s.publicInputs, view, globals);
    next' := next;
    if c.nodes[|values|].IsGate() {
      var val, ops, triples := ReplayGate(c, l, view, globals, values, next);
      if val.Err? {
        return Err(val.error), next';
      }
      next' := Cursors(next.secret, next.public, next.op + ops, next.triple + triples);
      return Ok(values + [val.value]), next';
    }
    var leaf: NodeVal;
    leaf, next' := ReplayLeaf(c, s, view, globals, values, next);
    return Ok(values + [leaf]), next';
  }

  lemma ReplayStarts(l: Local, view: PartyView)
    ensures InProgress(l, view, [], Cursors(0, 0, 0, 0))
  {
  }

  lemma ReplayStops(c: Circuit, publics: seq<Elem>, view: PartyView, globals: seq<Elem>, i: nat)
    requires i <= |c.nodes|
    ensures !ReplayedUpTo(Claimed(c, publics, view, globals), view, i) ==> !Replays(c, publics, view, globals)
  {
    if Replays(c, publics, view, globals) {
      ReplaysGetsEverywhere(c, publics, view, globals, i);
    }
  }

  lemma ReplayEnds(c: Circuit, publics: seq<Elem>, view: PartyView, globals: seq<Elem>, values: seq<NodeVal>, next: Cursors)
    requires InProgress(Claimed(c, publics, view, globals), view, values, next)
    requires |values| == |c.nodes| && |view.inputShares| == c.numSecretInputs
    ensures Replays(c, publics, view, globals) <==>
              && next.op == |view.localOperations| && next.triple == |view.tripleShares|
              && 2 * next.triple == |view.openedValues|
    ensures forall i :: 0 <= i < |c.nodes| ==> values[i] == ReplayedValue(Claimed(c, publics, view, globals), i)
  {
  }

  /** Replays one opened party. It succeeds exactly on the honest view of the claimed shares. */
  method ReplayParty(s: Statement, view: PartyView, c: Circuit, globals: seq<Elem>)
    returns (r: Result<seq<NodeVal>, MpcithError>)
    requires ValidStatement(s, c)
    ensures r.Ok? <==> Replays(c, s.publicInputs, view, globals)
    ensures r.Ok? ==> |r.value| == |c.nodes|
    ensures r.Ok? ==> forall i :: 0 <= i < |c.nodes| ==>
              r.value[i] == ReplayedValue(Claimed(c, s.publicInputs, view, globals), i)
  {
    if |view.inputShares| != c.numSecretInputs {
      return Err(InconsistentView);
    }
    ghost var l := Claimed(c, s.publicInputs, view, globals);
    ReplayStarts(l, view);
    hide Replays, InProgress, ReplayedUpTo, ReplayedValue, ValidStatement;
    var values: seq<NodeVal> := [];
    var next := Cursors(0, 0, 0, 0);
    for i := 0 to |c.nodes|
      invariant |values| == i && InProgress(l, view, values, next)
    {
      var step, next' := ReplayNode(c, s, view, globals, values, next);
      if step.Err? {
        ReplayStops(c, s.publicInputs, view, globals, i + 1);
        return Err(step.error);
      }
      values, next := step.value, next';
    }
    ReplayEnds(c, s.publicInputs, view, globals, values, next);
    if next.op != |view.localOperations| || next.triple != |view.tripleShares| || 2 * next.triple != |view.openedValues| {
      return Err(InconsistentView);
    }
    return Ok(values);
  }

  // ---- one repetition --------------------------------------------------------------------------------

  /** The opened view is the one that was committed. */
  predicate Bound(rep: Repetition, response: OpenedView)
    requires |rep.commitments| == PARTY_COUNT
  {
    && response.view.repetitionId == rep.id && |response.randomness| == RANDOMNESS_LEN
    && CommitView(response.view, response.randomness) == rep.commitments[response.view.partyId]
  }

  /** The global masks: the hidden party's broadcasts plus those of the two opened views. */
  function GlobalMasks(hidden: seq<Elem>, first: seq<Elem>, second: seq<Elem>): (g: seq<Elem>)
    requires |hidden| <= |first| && |hidden| <= |second|
    ensures |g| == |hidden|
  {
    seq(|hidden|, k requires 0 <= k < |hidden| => Add(Add(hidden[k], first[k]), second[k]))
  }

  predicate Shaped(rep: Repetition) {
    && |rep.commitments| == PARTY_COUNT && |rep.openedViews| == 2
    && rep.openedViews[0].view.partyId == Others(rep.hidden).0
    && rep.openedViews[1].view.partyId == Others(rep.hidden).1
    && Bound(rep, rep.openedViews[0]) && Bound(rep, rep.openedViews[1])
    && |rep.hiddenBroadcasts| % 2 == 0
    && |rep.hiddenBroadcasts| <= |rep.openedViews[0].view.openedValues|
    && |rep.hiddenBroadcasts| <= |rep.openedViews[1].view.openedValues|
  }

  function MasksOf(rep: Repetition): seq<Elem>
    requires Shaped(rep)
  {
    GlobalMasks(rep.hiddenBroadcasts, rep.openedViews[0].view.openedValues, rep.openedViews[1].view.openedValues)
  }

  function OpenedRun(c: Circuit, s: Statement, rep: Repetition, which: nat): Local
    requires Shaped(rep) && which < 2
  {
    Claimed(c, s.publicInputs, rep.openedViews[which].view, MasksOf(rep))
  }

  /** Everything a repetition must satisfy before its outputs are looked at. */
  ghost predicate Consistent(c: Circuit, s: Statement, rep: Repetition) {
    && Shaped(rep)
    && Replays(c, s.publicInputs, rep.openedViews[0].view, MasksOf(rep))
    && Replays(c, s.publicInputs, rep.openedViews[1].view, MasksOf(rep))
    && |rep.hiddenOutputShares| == |c.outputs|
  }

  /** The output sum the verifier forms for output k. */
  function OutputTotal(c: Circuit, s: Statement, rep: Repetition, k: nat): Elem
    requires Shaped(rep) && OutputsDefined(c) && k < |c.outputs| == |rep.hiddenOutputShares|
  {
    Add(Add(rep.hiddenOutputShares[k], OpenedRun(c, s, rep, 0).Held(c.outputs[k])),
        OpenedRun(c, s, rep, 1).Held(c.outputs[k]))
  }

  /** The verdict on the outputs from k on. An output that depends on no secret is not compared
      with its expected value; the hidden party must only contribute nothing to it. */
  function OutputVerdict(c: Circuit, s: Statement, rep: Repetition, k: nat): Result<bool, MpcithError>
    requires Shaped(rep) && ValidStatement(s, c) && |rep.hiddenOutputShares| == |c.outputs| && k <= |c.outputs|
    decreases |c.outputs| - k
  {
    if k == |c.outputs| then Ok(true)
    else if !Shared(c.nodes, c.outputs[k]) then
      if rep.hiddenOutputShares[k] != 0 then Err(OutputMismatch) else OutputVerdict(c, s, rep, k + 1)
    else if OutputTotal(c, s, rep, k) != s.expectedOutputs[k] then Ok(false)
    else OutputVerdict(c, s, rep, k + 1)
  }

  method VerifyCommitment(rep: Repetition, response: OpenedView) returns (r: Result<bool, MpcithError>)
    requires |rep.commitments| == PARTY_COUNT
    ensures r == if |response.randomness| != RANDOMNESS_LEN then Err(MalformedCommitment)
                 else Ok(CommitView(response.view, response.randomness) == rep.commitments[response.view.partyId])
  {
    if |response.randomness| != RANDOMNESS_LEN {
      return Err(MalformedCommitment);
    }
    return Ok(CommitView(response.view, response.randomness) == rep.commitments[response.view.partyId]);
  }

  method CheckBindings(rep: Repetition) returns (fault: Option<MpcithError>)
    requires |rep.commitments| == PARTY_COUNT
    ensures fault.None? <==> forall i :: 0 <= i < |rep.openedViews| ==> Bound(rep, rep.openedViews[i])
  {
    for i := 0 to |rep.openedViews|
      invariant forall j :: 0 <= j < i ==> Bound(rep, rep.openedViews[j])
    {
      var response := rep.openedViews[i];
      if response.view.repetitionId != rep.id {
        return Some(InconsistentView);
      }
      var matches := VerifyCommitment(rep, response);
      if matches.Err? {
        return Some(matches.error);
      }
      if !matches.value {
        return Some(CommitmentMismatch);
      }
    }
    return None;
  }

  method CollectMasks(hidden: seq<Elem>, first: seq<Elem>, second: seq<Elem>) returns (r: Result<seq<Elem>, MpcithError>)
    ensures r.Ok? <==> |hidden| % 2 == 0 && |hidden| <= |first| && |hidden| <= |second|
    ensures r.Ok? ==> r.value == GlobalMasks(hidden, first, second)
    ensures r.Err? ==> r.error == if |hidden| % 2 != 0 then InvalidOpening else InconsistentView
  {
    hide Add;
    if |hidden| % 2 != 0 {
      return Err(InvalidOpening);
    }
    var globals: seq<Elem> := [];
    var k := 0;
    while k < |hidden|
      invariant k <= |hidden| && k % 2 == 0 && |globals| == k && k <= |first| && k <= |second|
      invariant forall j :: 0 <= j < k ==> globals[j] == Add(Add(hidden[j], first[j]), second[j])
    {
      if k + 1 >= |first| || k + 1 >= |second| {
        return Err(InconsistentView);
      }
      var d := Add(Add(hidden[k], first[k]), second[k]);
      var e := Add(Add(hidden[k + 1], first[k + 1]), second[k + 1]);
      globals := globals + [d, e];
      k := k + 2;
    }
    return Ok(globals);
  }

  method CheckOutputs(s: Statement, rep: Repetition, c: Circuit, first: seq<NodeVal>, second: seq<NodeVal>)
    returns (r: Result<bool, MpcithError>)
    requires ValidStatement(s, c) && Shaped(rep) && |first| == |second| == |c.nodes|
    requires forall i :: 0 <= i < |c.nodes| ==> first[i] == ReplayedValue(OpenedRun(c, s, rep, 0), i)
    requires forall i :: 0 <= i < |c.nodes| ==> second[i] == ReplayedValue(OpenedRun(c, s, rep, 1), i)
    ensures |rep.hiddenOutputShares| != |c.outputs| ==> r == Err(OutputMismatch)
    ensures |rep.hiddenOutputShares| == |c.outputs| ==> r == OutputVerdict(c, s, rep, 0)
  {
    if |rep.hiddenOutputShares| != |c.outputs| {
      return Err(OutputMismatch);
    }
    hide Add, Local.Held;
    for k := 0 to |c.outputs|
      invariant OutputVerdict(c, s, rep, k) == OutputVerdict(c, s, rep, 0)
    {
      var id := c.outputs[k];
      var depends := NodeDependsOnSecrets(c, id);
      if !depends {
        if rep.hiddenOutputShares[k] != 0 {
          return Err(OutputMismatch);
        }
      } else {
        var total := rep.hiddenOutputShares[k];
        total := Add(total, first[id].v);
        total := Add(total, second[id].v);
        if total != s.expectedOutputs[k] {
          return Ok(false);
        }
      }
    }
    return Ok(true);
  }

  /** The verifier has a verdict on this repetition, positive or negative, and no error. */
  ghost predicate Judged(c: Circuit, s: Statement, rep: Repetition)
    requires ValidStatement(s, c)
  {
    Consistent(c, s, rep) && OutputVerdict(c, s, rep, 0).Ok?
  }

  method VerifyRepetition(s: Statement, rep: Repetition, c: Circuit) returns (r: Result<bool, MpcithError>)
    requires ValidStatement(s, c)
    ensures r.Ok? <==> Judged(c, s, rep)
    ensures !Consistent(c, s, rep) ==> r.Err?
    ensures Consistent(c, s, rep) ==> r == OutputVerdict(c, s, rep, 0)
  {
    hide Replays, OutputVerdict;
    var (p, q) := Others(rep.hidden);
    if |rep.commitments| != PARTY_COUNT {
      return Err(MissingCommitment);
    }
    if |rep.openedViews| != 2 || rep.openedViews[0].view.partyId != p || rep.openedViews[1].view.partyId != q {
      return Err(MissingResponse);
    }
    var unbound := CheckBindings(rep);
    if unbound.Some? {
      return Err(unbound.value);
    }
    var globals := CollectMasks(rep.hiddenBroadcasts, rep.openedViews[0].view.openedValues,
                                rep.openedViews[1].view.openedValues);
    if globals.Err? {
      return Err(globals.error);
    }
    var first := ReplayParty(s, rep.openedViews[0].view, c, globals.value);
    if first.Err? {
      return Err(first.error);
    }
    var second := ReplayParty(s, rep.openedViews[1].view, c, globals.value);
    if second.Err? {
      return Err(second.error);
    }
    r := CheckOutputs(s, rep, c, first.value, second.value);
  }

  // ---- the whole proof -------------------------------------------------------------------------------

  /** The verdict on the repetitions from i on: Ok(true) is Valid, Ok(false) is Invalid, and every
      structural fault is an error. */
  ghost function Verdict(s: Statement, proof: seq<Repetition>, c: Circuit, i: nat): Option<bool>
    requires ValidStatement(s, c) && i <= |proof|
    decreases |proof| - i
  {
    if i == |proof| then Some(true)
    else if proof[i].id != i || !Consistent(c, s, proof[i]) || OutputVerdict(c, s, proof[i], 0).Err? then None
    else if !OutputVerdict(c, s, proof[i], 0).value then Some(false)
    else Verdict(s, proof, c, i + 1)
  }

  method Verify(s: Statement, proof: seq<Repetition>, c: Circuit) returns (r: Result<bool, MpcithError>)
    ensures !ValidStatement(s, c) || proof == [] ==> r.Err?
    ensures ValidStatement(s, c) && proof != [] ==>
              (r.Ok? <==> Verdict(s, proof, c, 0).Some?) && (r.Ok? ==> Verdict(s, proof, c, 0) == Some(r.value))
  {
    hide Consistent, OutputVerdict;
    var validated := Validate(c);
    if validated.Err? || s.circuitId != CircuitIdOf(c) {
      return Err(InvalidCircuit);
    }
    if |s.publicInputs| != c.numPublicInputs || |s.expectedOutputs| != |c.outputs| {
      return Err(InvalidStatement);
    }
    if proof == [] {
      return Err(InvalidProtocolState);
    }
    for i := 0 to |proof|
      invariant Verdict(s, proof, c, i) == Verdict(s, proof, c, 0)
    {
      if proof[i].id != i {
        return Err(InconsistentView);
      }
      var ok := VerifyRepetition(s, proof[i], c);
      if ok.Err? {
        return Err(ok.error);
      }
      if !ok.value {
        return Ok(false);
      }
    }
    return Ok(true);
  }
}
