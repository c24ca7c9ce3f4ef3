/** What a verdict of the verifier says in plain terms, and what the commitments tie down. */
module MpcithBinding {
  import opened Wrappers
  import opened PrimeField
  import opened BigEndian
  import opened Circuits
  import opened Mpcith
  import opened MpcithProof
  import opened MpcithVerifier

  // ---- the first fault decides -------------------------------------------------------------------------

  /** Output k is as expected: the three shares sum to the expected value, or the output depends on
      no secret and the hidden party contributes nothing to it. */
  predicate OutputFine(c: Circuit, s: Statement, rep: Repetition, k: nat)
    requires Shaped(rep) && ValidStatement(s, c) && k < |c.outputs| == |rep.hiddenOutputShares|
  {
    if Shared(c.nodes, c.outputs[k])
    then Sum3(rep.hiddenOutputShares[k], OpenedRun(c, s, rep, 0).Held(c.outputs[k]), OpenedRun(c, s, rep, 1).Held(c.outputs[k]))
      == s.expectedOutputs[k]
    else rep.hiddenOutputShares[k] == 0
  }

  /** The outputs from one to another are as expected. */
  predicate OutputsFine(c: Circuit, s: Statement, rep: Repetition, from: nat, to: nat)
    requires Shaped(rep) && ValidStatement(s, c) && to <= |c.outputs| == |rep.hiddenOutputShares|
  {
    forall k :: from <= k < to ==> OutputFine(c, s, rep, k)
  }

  /** The verdict is positive exactly if all outputs are as expected; the first that is not makes it
      negative, or an error when it depends on no secret. */
  lemma {:induction false} FirstOutputDecides(c: Circuit, s: Statement, rep: Repetition, from: nat)
    requires Shaped(rep) && ValidStatement(s, c) && from <= |c.outputs| == |rep.hiddenOutputShares|
    ensures OutputVerdict(c, s, rep, from) == Ok(true) <==> OutputsFine(c, s, rep, from, |c.outputs|)
    ensures forall k :: from <= k < |c.outputs| && OutputsFine(c, s, rep, from, k) && !OutputFine(c, s, rep, k) ==>
              OutputVerdict(c, s, rep, from) == if Shared(c.nodes, c.outputs[k]) then Ok(false) else Err(OutputMismatch)
    decreases |c.outputs| - from
  {
    hide Shaped, Local.Held, OpenedRun, Add, Shared;
    if from < |c.outputs| {
      FirstOutputDecides(c, s, rep, from + 1);
      assert OutputFine(c, s, rep, from) ==> OutputVerdict(c, s, rep, from) == OutputVerdict(c, s, rep, from + 1);
      hide OutputFine, OutputVerdict;
      forall k | from < k <= |c.outputs|
        ensures OutputsFine(c, s, rep, from, k) <==> OutputFine(c, s, rep, from) && OutputsFine(c, s, rep, from + 1, k)
      {
      }
    }
  }

  /** Repetition i sits at its place and has a positive verdict. */
  ghost predicate RepetitionFine(s: Statement, proof: seq<Repetition>, c: Circuit, i: nat)
    requires ValidStatement(s, c) && i < |proof|
  {
    proof[i].id == i && Judged(c, s, proof[i]) && OutputVerdict(c, s, proof[i], 0).value
  }

  ghost predicate RepetitionsFine(s: Statement, proof: seq<Repetition>, c: Circuit, from: nat, to: nat)
    requires ValidStatement(s, c) && to <= |proof|
  {
    forall i :: from <= i < to ==> RepetitionFine(s, proof, c, i)
  }

  /** A proof is valid exactly if every repetition is; the first that is not makes it invalid, or an
      error when it is out of place or has no verdict. */
  lemma {:induction false} FirstRepetitionDecides(s: Statement, proof: seq<Repetition>, c: Circuit, from: nat)
    requires ValidStatement(s, c) && from <= |proof|
    ensures Verdict(s, proof, c, from) == Some(true) <==> RepetitionsFine(s, proof, c, from, |proof|)
    ensures forall i :: from <= i < |proof| && RepetitionsFine(s, proof, c, from, i) && !RepetitionFine(s, proof, c, i) ==>
              Verdict(s, proof, c, from) == if proof[i].id == i && Judged(c, s, proof[i]) then Some(false) else None
    decreases |proof| - from
  {
    hide Judged, RepetitionFine, Verdict, Consistent, OutputVerdict, ValidStatement;
    if from == |proof| {
      NoRepetitionLeft(s, proof, c);
    } else {
      FirstRepetitionDecides(s, proof, c, from + 1);
      VerdictOfFirst(s, proof, c, from);
      forall i | from < i <= |proof|
        ensures RepetitionsFine(s, proof, c, from, i) <==> RepetitionFine(s, proof, c, from) && RepetitionsFine(s, proof, c, from + 1, i)
      {
      }
    }
  }

  lemma NoRepetitionLeft(s: Statement, proof: seq<Repetition>, c: Circuit)
    requires ValidStatement(s, c)
    ensures Verdict(s, proof, c, |proof|) == Some(true)
  {
  }

  lemma VerdictOfFirst(s: Statement, proof: seq<Repetition>, c: Circuit, i: nat)
    requires ValidStatement(s, c) && i < |proof|
    ensures Verdict(s, proof, c, i) == if RepetitionFine(s, proof, c, i) then Verdict(s, proof, c, i + 1)
                                       else if proof[i].id == i && Judged(c, s, proof[i]) then Some(false) else None
  {
    hide Consistent, OutputVerdict, ValidStatement;
  }

  // ---- what a commitment ties down ---------------------------------------------------------------------

  predicate Opens(rep: Repetition, p: Party) {
    p != rep.hidden
  }

  /** The opening of a party that is not hidden. */
  function Opening(rep: Repetition, p: Party): OpenedView
    requires |rep.openedViews| == 2 && Opens(rep, p)
  {
    if p == Others(rep.hidden).0 then rep.openedViews[0] else rep.openedViews[1]
  }

  /** Two different openings with one commitment. */
  predicate CommitmentsCollide(x: OpenedView, y: OpenedView) {
    x != y && CommitView(x.view, x.randomness) == CommitView(y.view, y.randomness)
  }

  /** With a verdict come three commitments, and both parties that are not hidden are opened: each
      opening is of this party in this repetition, and is what the party's commitment is to. */
  lemma VerdictMeansOpened(c: Circuit, s: Statement, rep: Repetition, p: Party)
    requires ValidStatement(s, c) && Judged(c, s, rep) && Opens(rep, p)
    ensures |rep.commitments| == 3 && |rep.openedViews| == 2
    ensures rep.openedViews[0].view.partyId < rep.openedViews[1].view.partyId
    ensures var o := Opening(rep, p);
            && o.view.partyId == p && o.view.repetitionId == rep.id && |o.randomness| == 32
            && CommitView(o.view, o.randomness) == rep.commitments[p]
  {
    hide Replays, OutputVerdict, ValidStatement;
  }

  /** A repetition with another commitment for party p. */
  function Recommitted(rep: Repetition, p: Party, d: Digest): Repetition
    requires |rep.commitments| == 3
  {
    rep.(commitments := rep.commitments[p := d])
  }

  /** No verdict survives another commitment of an opened party; the hidden party's commitment is not
      looked at. */
  lemma CommitmentsChecked(c: Circuit, s: Statement, rep: Repetition, p: Party, d: Digest)
    requires ValidStatement(s, c) && Judged(c, s, rep)
    ensures |rep.commitments| == 3
    ensures p != rep.hidden && d != rep.commitments[p] ==> !Judged(c, s, Recommitted(rep, p, d))
    ensures p == rep.hidden ==> var changed := Recommitted(rep, p, d);
                                Judged(c, s, changed) && OutputVerdict(c, s, changed, 0) == OutputVerdict(c, s, rep, 0)
  {
    hide Replays, OutputVerdict, ValidStatement, Opening;
    VerdictMeansOpened(c, s, rep, if p == rep.hidden then Others(p).0 else p);
    var changed := Recommitted(rep, p, d);
    if p == rep.hidden {
      SameVerdict(c, s, rep, changed, 0);
    } else if d != rep.commitments[p] && Judged(c, s, changed) {
      OpeningKept(rep, p, d);
      VerdictMeansOpened(c, s, changed, p);
    }
  }

  lemma OpeningKept(rep: Repetition, p: Party, d: Digest)
    requires |rep.commitments| == 3 && |rep.openedViews| == 2 && Opens(rep, p)
    ensures Opening(Recommitted(rep, p, d), p) == Opening(rep, p)
  {
  }

  /** Commitments do not enter the verdict on the outputs. */
  lemma {:induction false} SameVerdict(c: Circuit, s: Statement, x: Repetition, y: Repetition, k: nat)
    requires Shaped(x) && Shaped(y) && ValidStatement(s, c) && |x.hiddenOutputShares| == |c.outputs| && k <= |c.outputs|
    requires y == x.(commitments := y.commitments)
    ensures OutputVerdict(c, s, y, k) == OutputVerdict(c, s, x, k)
    decreases |c.outputs| - k
  {
    hide Shaped, Shared, Local.Held, Add;
    if k < |c.outputs| {
      SameVerdict(c, s, x, y, k + 1);
    }
  }

  /** Binding: two repetitions with verdicts and the same commitment of a party that both open show
      the same opening of it, or exhibit two openings that collide. */
  lemma SameCommitmentSameOpening(c: Circuit, s: Statement, x: Repetition, d: Circuit, t: Statement, y: Repetition, p: Party)
    requires ValidStatement(s, c) && Judged(c, s, x) && ValidStatement(t, d) && Judged(d, t, y)
    requires Opens(x, p) && Opens(y, p) && x.commitments == y.commitments
    ensures |x.openedViews| == 2 && |y.openedViews| == 2
    ensures Opening(x, p) == Opening(y, p) || CommitmentsCollide(Opening(x, p), Opening(y, p))
  {
    hide Judged, ValidStatement, Opening;
    VerdictMeansOpened(c, s, x, p);
    VerdictMeansOpened(d, t, y, p);
  }

  // ---- what an opened view holds -----------------------------------------------------------------------

  /** The sizes a verdict presupposes: one share per secret input, and two openings and two broadcasts
      of the hidden party for every triple. */
  lemma VerdictMeansSizes(c: Circuit, s: Statement, rep: Repetition, p: Party)
    requires ValidStatement(s, c) && Judged(c, s, rep) && Opens(rep, p)
    ensures |rep.openedViews| == 2 && |rep.hiddenOutputShares| == |c.outputs|
    ensures var view := Opening(rep, p).view;
            && |view.inputShares| == c.numSecretInputs
            && |view.openedValues| == |rep.hiddenBroadcasts| == 2 * |view.tripleShares|
  {
    hide OutputVerdict, ValidStatement, Local.OpsBefore, BeaversBefore;
  }

  /** Everything recorded follows from the shares: two views of a party that replay under the same
      masks and hold the same input and triple shares record and open the same. */
  lemma TranscriptDetermined(c: Circuit, publics: seq<Elem>, v: PartyView, w: PartyView, globals: seq<Elem>)
    requires Replays(c, publics, v, globals) && Replays(c, publics, w, globals)
    requires v.partyId == w.partyId && v.inputShares == w.inputShares && v.tripleShares == w.tripleShares
    ensures v.(repetitionId := w.repetitionId) == w
  {
    hide Local.OpsBefore, Local.OpenedBefore;
  }

  /** The gates that leave a trace: multiplications that depend on a secret, and additions that do,
      except that a public summand is absorbed by the first party alone. */
  predicate Records(nodes: seq<Node>, party: Party, i: NodeId)
    requires TopologicalOrder(nodes) && i < |nodes|
  {
    && nodes[i].IsGate() && Shared(nodes, i)
    && (nodes[i].AddGate? && party != 0 ==> OperandsBefore(nodes[i], i) && Shared(nodes, nodes[i].a) && Shared(nodes, nodes[i].b))
  }

  /** The trace of a gate: its kind, the gate, the value held there; and for a scalar product the
      public operand, for a Beaver product the number of the triple and its two masks. */
  predicate TraceOf(l: Local, op: LocalOperation)
    requires TopologicalOrder(l.nodes)
  {
    var i := op.output;
    && i < |l.nodes| && Records(l.nodes, l.party, i) && op.share == l.Held(i) && OperandsBefore(l.nodes[i], i)
    && match op
       case AddOp(_, _) => l.nodes[i].AddGate?
       case MulPublicOp(_, scalar, _) =>
         && l.nodes[i].MulGate?
         && (if Shared(l.nodes, l.nodes[i].a) then !Shared(l.nodes, l.nodes[i].b) && scalar == Value(l.nodes, [], l.publics, l.nodes[i].b)
             else scalar == Value(l.nodes, [], l.publics, l.nodes[i].a))
       case BeaverOp(_, k, d, e, _) =>
         && l.nodes[i].MulGate? && Shared(l.nodes, l.nodes[i].a) && Shared(l.nodes, l.nodes[i].b)
         && k == BeaversBefore(l.nodes, i) && d == Slot(l.globals, 2 * k) && e == Slot(l.globals, 2 * k + 1)
  }

  lemma TraceAt(l: Local, i: NodeId)
    requires TopologicalOrder(l.nodes) && i < |l.nodes|
    ensures if Records(l.nodes, l.party, i) then |l.OpAt(i)| == 1 && l.OpAt(i)[0].output == i && TraceOf(l, l.OpAt(i)[0])
            else l.OpAt(i) == []
  {
    assert OperandsBefore(l.nodes[i], i);
    if l.nodes[i].IsGate() {
      var (a, b) := (l.nodes[i].a, l.nodes[i].b);
      assert IsBeaver(l.nodes, i) || l.nodes[i].AddGate? || !(Shared(l.nodes, a) && Shared(l.nodes, b));
      if !IsBeaver(l.nodes, i) {
        l.OpAtGate(i, a, b);
      }
    }
  }

  predicate Traced(ops: seq<LocalOperation>, i: NodeId) {
    exists t :: 0 <= t < |ops| && ops[t].output == i
  }

  /** The operations are the traces of exactly the gates among the first n nodes that leave one, in
      the order of the gates. */
  predicate Traces(l: Local, n: nat, ops: seq<LocalOperation>)
    requires TopologicalOrder(l.nodes) && n <= |l.nodes|
  {
    && (forall t :: 0 <= t < |ops| ==> TraceOf(l, ops[t]) && ops[t].output < n)
    && (forall t, u :: 0 <= t < u < |ops| ==> ops[t].output < ops[u].output)
    && (forall i :: 0 <= i < n && Records(l.nodes, l.party, i) ==> Traced(ops, i))
  }

  lemma {:induction false} TracesInOrder(l: Local, n: nat)
    requires TopologicalOrder(l.nodes) && n <= |l.nodes|
    ensures Traces(l, n, l.OpsBefore(n))
  {
    hide Local.OpAt, TraceOf, Records;
    if n > 0 {
      TracesInOrder(l, n - 1);
      TraceAt(l, n - 1);
      TracesNext(l, n - 1, l.OpsBefore(n - 1), l.OpAt(n - 1));
    }
  }

  lemma TracesNext(l: Local, i: NodeId, before: seq<LocalOperation>, more: seq<LocalOperation>)
    requires TopologicalOrder(l.nodes) && i < |l.nodes| && Traces(l, i, before)
    requires if Records(l.nodes, l.party, i) then |more| == 1 && more[0].output == i && TraceOf(l, more[0]) else more == []
    ensures Traces(l, i + 1, before + more)
  {
    hide TraceOf, Records;
    forall j | 0 <= j < i + 1 && Records(l.nodes, l.party, j)
      ensures Traced(before + more, j)
    {
      if j < i {
        var t :| 0 <= t < |before| && before[t].output == j;
        assert (before + more)[t].output == j;
      } else {
        assert (before + more)[|before|].output == j;
      }
    }
  }

  /** What an opened view of a repetition with a verdict records: the traces of exactly the gates that
      leave one, in their order, under the masks that the three contributions sum to. */
  lemma OpenedViewTraces(c: Circuit, s: Statement, rep: Repetition, which: nat, masks: seq<Elem>)
    requires ValidStatement(s, c) && Judged(c, s, rep) && which < 2 && |masks| == |rep.hiddenBroadcasts|
    requires forall k :: 0 <= k < |masks| && |rep.openedViews| == 2 ==>
               var (first, second) := (rep.openedViews[0].view.openedValues, rep.openedViews[1].view.openedValues);
               k < |first| && k < |second| ==> masks[k] == Sum3(rep.hiddenBroadcasts[k], first[k], second[k])
    ensures |rep.openedViews| == 2
    ensures var view := rep.openedViews[which].view;
            Traces(Local(c.nodes, s.publicInputs, view.partyId, view.inputShares, view.tripleShares, masks), |c.nodes|,
                   view.localOperations)
  {
    hide Traces, OutputVerdict, Local.OpsBefore, Local.OpenedBefore, Add;
    assert MasksOf(rep) == masks;
    TracesInOrder(OpenedRun(c, s, rep, which), |c.nodes|);
  }
}
