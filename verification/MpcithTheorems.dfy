/** Completeness of the proof, soundness of three consistent views, and perfect witness
    indistinguishability of one repetition. */
module MpcithTheorems {
  import opened Wrappers
  import opened PrimeField
  import opened Circuits
  import opened Mpcith
  import opened MpcithProof
  import opened MpcithVerifier
  import opened MpcithHonest

  // ---- completeness ----------------------------------------------------------------------------------

  /** The run proves the statement about this circuit. */
  ghost predicate RunFor(run: Run, c: Circuit, s: Statement) {
    && ValidStatement(s, c) && run.nodes == c.nodes && run.publics == s.publicInputs
    && |run.secrets| == c.numSecretInputs
  }

  function HonestRepetition(run: Run, c: Circuit, id: nat, blocks: nat -> Randomness, at: nat, hidden: Party): Repetition
    requires run.nodes == c.nodes && OutputsDefined(c)
  {
    Response(HonestPartial(run, c.outputs, id, blocks, at), hidden)
  }

  lemma HonestMasks(run: Run, c: Circuit, s: Statement, id: nat, blocks: nat -> Randomness, at: nat, hidden: Party)
    requires RunFor(run, c, s)
    ensures var rep := HonestRepetition(run, c, id, blocks, at, hidden);
            Shaped(rep) && MasksOf(rep) == run.MasksBefore(|c.nodes|)
  {
    hide Add, Sum3, Local.Held, Local.OpsBefore, Local.OpenedBefore, Run.MasksBefore;
    var rep := HonestRepetition(run, c, id, blocks, at, hidden);
    var n := |c.nodes|;
    forall k | 0 <= k < |run.MasksBefore(n)|
      ensures MasksOf(rep)[k] == run.MasksBefore(n)[k]
    {
      run.OpeningsSum(n, k);
      OthersComplete(hidden, (p: Party) => Slot(run.Of(p).OpenedBefore(n), k));
    }
  }

  lemma HonestConsistent(run: Run, c: Circuit, s: Statement, id: nat, blocks: nat -> Randomness, at: nat, hidden: Party)
    requires RunFor(run, c, s)
    ensures var rep := HonestRepetition(run, c, id, blocks, at, hidden);
            && Consistent(c, s, rep)
            && OpenedRun(c, s, rep, 0) == run.Of(Others(hidden).0)
            && OpenedRun(c, s, rep, 1) == run.Of(Others(hidden).1)
  {
    HonestMasks(run, c, s, id, blocks, at, hidden);
    HonestViewReplays(run, c, s, id, Others(hidden).0);
    HonestViewReplays(run, c, s, id, Others(hidden).1);
    HonestShape(run, c, id, blocks, at, hidden);
    hide HonestRepetition, Shaped, MasksOf, Replays, Run.Of, Claimed, Others;
  }

  lemma HonestViewReplays(run: Run, c: Circuit, s: Statement, id: nat, p: Party)
    requires RunFor(run, c, s)
    ensures var masks := run.MasksBefore(|c.nodes|);
            && Claimed(c, s.publicInputs, run.Of(p).View(id), masks) == run.Of(p)
            && Replays(c, s.publicInputs, run.Of(p).View(id), masks)
  {
    hide Local.Held, Local.OpsBefore, Local.OpenedBefore, Run.MasksBefore, Run.InputShares, Run.Triples;
  }

  lemma HonestShape(run: Run, c: Circuit, id: nat, blocks: nat -> Randomness, at: nat, hidden: Party)
    requires run.nodes == c.nodes && OutputsDefined(c)
    ensures var rep := HonestRepetition(run, c, id, blocks, at, hidden);
            && rep.hidden == hidden && rep.id == id && |rep.openedViews| == 2 && |rep.commitments| == 3
            && rep.openedViews[0] == OpenedView(run.Of(Others(hidden).0).View(id), blocks(at + Others(hidden).0))
            && rep.openedViews[1] == OpenedView(run.Of(Others(hidden).1).View(id), blocks(at + Others(hidden).1))
            && (forall p: Party {:trigger rep.commitments[p]} ::
                  rep.commitments[p] == CommitView(run.Of(p).View(id), blocks(at + p)))
            && rep.hiddenBroadcasts == run.Of(hidden).OpenedBefore(|c.nodes|)
            && |rep.hiddenOutputShares| == |c.outputs|
            && forall k :: 0 <= k < |c.outputs| ==>
                 rep.hiddenOutputShares[k] == if Shared(c.nodes, c.outputs[k]) then run.Of(hidden).Held(c.outputs[k]) else 0
  {
    hide Local.Held, Local.OpsBefore, Local.OpenedBefore, Run.MasksBefore, Run.InputShares, Run.Triples;
  }

  lemma OutputSharesSum(run: Run, out: NodeId, hidden: Party)
    requires run.Valid() && out < |run.nodes| && Shared(run.nodes, out)
    ensures Add(Add(run.Of(hidden).Held(out), run.Of(Others(hidden).0).Held(out)), run.Of(Others(hidden).1).Held(out))
         == run.Plain(out)
  {
    hide Add, Sum3, Local.Held, Run.Of, Run.Plain, Others;
    run.SharesSum(out);
    OthersComplete(hidden, (p: Party) => if out < |run.nodes| then run.Of(p).Held(out) else 0);
  }

  /** In an honest repetition the three output shares sum to the reference output. */
  lemma HonestTotal(run: Run, c: Circuit, s: Statement, id: nat, blocks: nat -> Randomness, at: nat, hidden: Party, k: nat)
    requires RunFor(run, c, s) && k < |c.outputs| && Shared(c.nodes, c.outputs[k])
    ensures var rep := HonestRepetition(run, c, id, blocks, at, hidden);
            Shaped(rep) && OutputTotal(c, s, rep, k) == run.Plain(c.outputs[k])
  {
    hide Add, Sum3, Local.Held, Run.Of, Run.Plain, Others, Consistent, Shaped, HonestRepetition, OpenedRun;
    ConsistentIsShaped(c, s, HonestRepetition(run, c, id, blocks, at, hidden));
    HonestConsistent(run, c, s, id, blocks, at, hidden);
    HonestShape(run, c, id, blocks, at, hidden);
    OutputSharesSum(run, c.outputs[k], hidden);
  }

  lemma ConsistentIsShaped(c: Circuit, s: Statement, rep: Repetition)
    ensures Consistent(c, s, rep) ==> Shaped(rep) && |rep.hiddenOutputShares| == |c.outputs|
  {
  }

  /** The expected value of every output that depends on a secret is the reference value. */
  ghost predicate OutputsRight(c: Circuit, s: Statement, secrets: seq<Elem>, from: nat)
    requires ValidStatement(s, c)
  {
    forall k :: from <= k < |c.outputs| && Shared(c.nodes, c.outputs[k]) ==>
      s.expectedOutputs[k] == Value(c.nodes, secrets, s.publicInputs, c.outputs[k])
  }

  /** A repetition whose output totals are the reference outputs is judged by the expected values. */
  lemma {:induction false} VerdictOnTotals(c: Circuit, s: Statement, rep: Repetition, secrets: seq<Elem>, k: nat)
    requires Shaped(rep) && ValidStatement(s, c) && k <= |c.outputs| == |rep.hiddenOutputShares|
    requires forall j :: 0 <= j < |c.outputs| ==>
               if Shared(c.nodes, c.outputs[j])
               then OutputTotal(c, s, rep, j) == Value(c.nodes, secrets, s.publicInputs, c.outputs[j])
               else rep.hiddenOutputShares[j] == 0
    ensures OutputVerdict(c, s, rep, k) == Ok(OutputsRight(c, s, secrets, k))
    decreases |c.outputs| - k
  {
    hide Shaped, OutputTotal, OutputVerdict, Value;
    if k == |c.outputs| {
      VerdictAtEnd(c, s, rep);
    } else {
      VerdictStep(c, s, rep, k, Value(c.nodes, secrets, s.publicInputs, c.outputs[k]));
      VerdictOnTotals(c, s, rep, secrets, k + 1);
    }
  }

  lemma HonestVerdict(run: Run, c: Circuit, s: Statement, id: nat, blocks: nat -> Randomness, at: nat, hidden: Party)
    requires RunFor(run, c, s)
    ensures var rep := HonestRepetition(run, c, id, blocks, at, hidden);
            Shaped(rep) && OutputVerdict(c, s, rep, 0) == Ok(OutputsRight(c, s, run.secrets, 0))
  {
    HonestMasks(run, c, s, id, blocks, at, hidden);
    HonestShape(run, c, id, blocks, at, hidden);
    hide Local.Held, Run.Of, HonestRepetition, Shaped, OutputTotal, OutputVerdict, OutputsRight, Value;
    var rep := HonestRepetition(run, c, id, blocks, at, hidden);
    forall k | 0 <= k < |c.outputs| && Shared(c.nodes, c.outputs[k])
      ensures OutputTotal(c, s, rep, k) == Value(c.nodes, run.secrets, s.publicInputs, c.outputs[k])
    {
      HonestTotal(run, c, s, id, blocks, at, hidden, k);
    }
    VerdictOnTotals(c, s, rep, run.secrets, 0);
  }

  lemma VerdictAtEnd(c: Circuit, s: Statement, rep: Repetition)
    requires Shaped(rep) && ValidStatement(s, c) && |rep.hiddenOutputShares| == |c.outputs|
    ensures OutputVerdict(c, s, rep, |c.outputs|) == Ok(true)
  {
  }

  lemma VerdictStep(c: Circuit, s: Statement, rep: Repetition, k: nat, total: Elem)
    requires Shaped(rep) && ValidStatement(s, c) && k < |c.outputs| == |rep.hiddenOutputShares|
    requires if Shared(c.nodes, c.outputs[k]) then OutputTotal(c, s, rep, k) == total else rep.hiddenOutputShares[k] == 0
    ensures OutputVerdict(c, s, rep, k) ==
              if Shared(c.nodes, c.outputs[k]) && total != s.expectedOutputs[k] then Ok(false)
              else OutputVerdict(c, s, rep, k + 1)
  {
    hide OutputTotal, Shaped;
  }

  /** Every repetition is an honest response for the same secrets: fresh coins, any challenge. */
  ghost predicate HonestProof(c: Circuit, s: Statement, secrets: seq<Elem>, runs: seq<Run>, blocks: nat -> Randomness,
                             ats: seq<nat>, hidden: seq<Party>, proof: seq<Repetition>) {
    && |runs| == |ats| == |hidden| == |proof|
    && forall i :: 0 <= i < |proof| ==>
         && RunFor(runs[i], c, s) && runs[i].secrets == secrets
         && proof[i] == HonestRepetition(runs[i], c, i, blocks, ats[i], hidden[i])
  }

  /** Completeness: an honest proof is never refused for its form, and it is judged valid exactly
      when each expected output that depends on a secret is the reference output. */
  lemma Completeness(c: Circuit, s: Statement, secrets: seq<Elem>, runs: seq<Run>, blocks: nat -> Randomness,
                     ats: seq<nat>, hidden: seq<Party>, proof: seq<Repetition>)
    requires ValidStatement(s, c) && proof != [] && HonestProof(c, s, secrets, runs, blocks, ats, hidden, proof)
    ensures Verdict(s, proof, c, 0) == Some(OutputsRight(c, s, secrets, 0))
  {
    HonestVerdictFrom(c, s, secrets, runs, blocks, ats, hidden, proof, 0);
  }

  lemma {:induction false} HonestVerdictFrom(c: Circuit, s: Statement, secrets: seq<Elem>, runs: seq<Run>,
                                            blocks: nat -> Randomness, ats: seq<nat>, hidden: seq<Party>,
                                            proof: seq<Repetition>, i: nat)
    requires ValidStatement(s, c) && i <= |proof| && HonestProof(c, s, secrets, runs, blocks, ats, hidden, proof)
    ensures Verdict(s, proof, c, i) == Some(i == |proof| || OutputsRight(c, s, secrets, 0))
    decreases |proof| - i
  {
    hide Consistent, OutputVerdict, Shaped, OutputsRight, HonestRepetition;
    if i < |proof| {
      HonestShape(runs[i], c, i, blocks, ats[i], hidden[i]);
      HonestConsistent(runs[i], c, s, i, blocks, ats[i], hidden[i]);
      HonestVerdict(runs[i], c, s, i, blocks, ats[i], hidden[i]);
      HonestVerdictFrom(c, s, secrets, runs, blocks, ats, hidden, proof, i + 1);
    }
  }

  // ---- soundness of three views ----------------------------------------------------------------------

  /** Three views that replay under the masks their own openings sum to, with honest triples. */
  ghost predicate ThreeViews(c: Circuit, s: Statement, v0: PartyView, v1: PartyView, v2: PartyView, masks: seq<Elem>) {
    && ValidStatement(s, c) && v0.partyId == 0 && v1.partyId == 1 && v2.partyId == 2
    && Replays(c, s.publicInputs, v0, masks) && Replays(c, s.publicInputs, v1, masks)
    && Replays(c, s.publicInputs, v2, masks)
    && (forall k :: 0 <= k < |v0.openedValues| ==>
          masks[k] == Sum3(v0.openedValues[k], v1.openedValues[k], v2.openedValues[k]))
    && (forall k :: 0 <= k < |v0.tripleShares| ==>
          Sum3(v0.tripleShares[k].c, v1.tripleShares[k].c, v2.tripleShares[k].c)
          == Mul(Sum3(v0.tripleShares[k].a, v1.tripleShares[k].a, v2.tripleShares[k].a),
                 Sum3(v0.tripleShares[k].b, v1.tripleShares[k].b, v2.tripleShares[k].b)))
  }

  function TrioOf(c: Circuit, s: Statement, v0: PartyView, v1: PartyView, v2: PartyView, masks: seq<Elem>): Trio {
    Trio(Claimed(c, s.publicInputs, v0, masks), Claimed(c, s.publicInputs, v1, masks), Claimed(c, s.publicInputs, v2, masks))
  }

  lemma ViewMasksOpen(c: Circuit, s: Statement, v0: PartyView, v1: PartyView, v2: PartyView, masks: seq<Elem>, i: NodeId)
    requires ThreeViews(c, s, v0, v1, v2, masks) && i < |c.nodes| && IsBeaver(c.nodes, i)
    ensures TrioOf(c, s, v0, v1, v2, masks).MasksOpen(i)
  {
    var t := TrioOf(c, s, v0, v1, v2, masks);
    hide Add, Sub, Mul, Sum3, Local.Held, Local.OpsBefore, Local.OpenedBefore;
    t.l0.OpenedAt(i);
    t.l1.OpenedAt(i);
    t.l2.OpenedAt(i);
    assert OperandsBefore(c.nodes[i], i);
    var a, b, k := c.nodes[i].a, c.nodes[i].b, BeaversBefore(c.nodes, i);
    Sum3OfSub(t.l0.Held(a), t.l1.Held(a), t.l2.Held(a), t.l0.Triple(k).a, t.l1.Triple(k).a, t.l2.Triple(k).a);
    Sum3OfSub(t.l0.Held(b), t.l1.Held(b), t.l2.Held(b), t.l0.Triple(k).b, t.l1.Triple(k).b, t.l2.Triple(k).b);
  }

  /** Three-view soundness: at every node that depends on a secret, the three replayed shares sum
      to the reference value for the witness the input shares sum to. */
  lemma ThreeViewSoundness(c: Circuit, s: Statement, v0: PartyView, v1: PartyView, v2: PartyView, masks: seq<Elem>, i: NodeId)
    requires ThreeViews(c, s, v0, v1, v2, masks) && i < |c.nodes| && Shared(c.nodes, i)
    ensures var t := TrioOf(c, s, v0, v1, v2, masks);
            Sum3(t.l0.Held(i), t.l1.Held(i), t.l2.Held(i)) == Value(c.nodes, t.Witness(), s.publicInputs, i)
  {
    var t := TrioOf(c, s, v0, v1, v2, masks);
    hide Add, Sub, Mul, Sum3, Local.Held;
    forall j | 0 <= j < |c.nodes| && IsBeaver(c.nodes, j)
      ensures t.MasksOpen(j)
    {
      ViewMasksOpen(c, s, v0, v1, v2, masks, j);
    }
    t.SharesReconstruct(i);
  }

  /** The view of party p when the hidden party's view is known too. */
  function ViewOf(rep: Repetition, hiddenView: PartyView, p: Party): PartyView
    requires |rep.openedViews| == 2
  {
    if p == rep.hidden then hiddenView
    else if p == Others(rep.hidden).0 then rep.openedViews[0].view
    else rep.openedViews[1].view
  }

  /** The hidden party has a view that replays too and that its broadcasts and output shares come
      from, and the triples of the three views are products. */
  ghost predicate HiddenViewFits(c: Circuit, s: Statement, rep: Repetition, hiddenView: PartyView) {
    && ValidStatement(s, c) && Consistent(c, s, rep) && hiddenView.partyId == rep.hidden
    && rep.hiddenBroadcasts == hiddenView.openedValues
    && ThreeViews(c, s, ViewOf(rep, hiddenView, 0), ViewOf(rep, hiddenView, 1), ViewOf(rep, hiddenView, 2), MasksOf(rep))
    && forall k :: 0 <= k < |c.outputs| ==>
         rep.hiddenOutputShares[k] ==
           if Shared(c.nodes, c.outputs[k])
           then Claimed(c, s.publicInputs, hiddenView, MasksOf(rep)).Held(c.outputs[k]) else 0
  }

  /** The witness three views extract to. */
  function Extracted(c: Circuit, s: Statement, rep: Repetition, hiddenView: PartyView): seq<Elem>
    requires HiddenViewFits(c, s, rep, hiddenView)
  {
    TrioOf(c, s, ViewOf(rep, hiddenView, 0), ViewOf(rep, hiddenView, 1), ViewOf(rep, hiddenView, 2), MasksOf(rep)).Witness()
  }

  lemma TotalIsReference(c: Circuit, s: Statement, rep: Repetition, hiddenView: PartyView, k: nat)
    requires HiddenViewFits(c, s, rep, hiddenView) && k < |c.outputs| && Shared(c.nodes, c.outputs[k])
    ensures OutputTotal(c, s, rep, k) == Value(c.nodes, Extracted(c, s, rep, hiddenView), s.publicInputs, c.outputs[k])
  {
    hide Add, Sum3, Local.Held, Value, Replays;
    var out := c.outputs[k];
    ThreeViewSoundness(c, s, ViewOf(rep, hiddenView, 0), ViewOf(rep, hiddenView, 1), ViewOf(rep, hiddenView, 2),
                       MasksOf(rep), out);
    OthersComplete(rep.hidden, (p: Party) =>
      if |rep.openedViews| == 2 && out < |c.nodes|
      then Local(c.nodes, s.publicInputs, ViewOf(rep, hiddenView, p).partyId, ViewOf(rep, hiddenView, p).inputShares,
                 ViewOf(rep, hiddenView, p).tripleShares, MasksOf'(rep)).Held(out)
      else 0);
  }

  /** The masks of a repetition, defined for every repetition. */
  function MasksOf'(rep: Repetition): seq<Elem> {
    if Shaped(rep) then MasksOf(rep) else []
  }

  /** When the hidden party's view fits, acceptance means truth: the verdict is exactly whether the
      expected outputs are the reference outputs of the extracted witness. */
  lemma AcceptanceIsTruth(c: Circuit, s: Statement, rep: Repetition, hiddenView: PartyView)
    requires HiddenViewFits(c, s, rep, hiddenView)
    ensures OutputVerdict(c, s, rep, 0) == Ok(OutputsRight(c, s, Extracted(c, s, rep, hiddenView), 0))
  {
    hide Local.Held, Value, OutputVerdict, OutputTotal, OutputsRight, Extracted, Replays, ThreeViews;
    forall k | 0 <= k < |c.outputs| && Shared(c.nodes, c.outputs[k])
      ensures OutputTotal(c, s, rep, k) == Value(c.nodes, Extracted(c, s, rep, hiddenView), s.publicInputs, c.outputs[k])
    {
      TotalIsReference(c, s, rep, hiddenView, k);
    }
    VerdictOnTotals(c, s, rep, Extracted(c, s, rep, hiddenView), 0);
  }

  /** The three views of an honest run replay under its masks, and their triples multiply. */
  lemma HonestThreeViews(run: Run, c: Circuit, s: Statement, id: nat)
    requires RunFor(run, c, s)
    ensures var masks := run.MasksBefore(|c.nodes|);
            && ThreeViews(c, s, run.Of(0).View(id), run.Of(1).View(id), run.Of(2).View(id), masks)
            && TrioOf(c, s, run.Of(0).View(id), run.Of(1).View(id), run.Of(2).View(id), masks) == run.All()
  {
    hide Add, Mul, Sum3, Local.Held, Local.OpsBefore, Local.OpenedBefore, Run.MasksBefore, Run.InputShares, Run.Triples, Replays;
    HonestViewReplays(run, c, s, id, 0);
    HonestViewReplays(run, c, s, id, 1);
    HonestViewReplays(run, c, s, id, 2);
    var n := |c.nodes|;
    forall k | 0 <= k < |run.Of(0).OpenedBefore(n)|
      ensures run.MasksBefore(n)[k] == Sum3(run.Of(0).OpenedBefore(n)[k], run.Of(1).OpenedBefore(n)[k], run.Of(2).OpenedBefore(n)[k])
    {
      run.OpeningsSum(n, k);
    }
    run.TriplesAreProducts();
    forall k | 0 <= k < run.Beavers()
      ensures Sum3(run.Triples(0, run.Beavers())[k].c, run.Triples(1, run.Beavers())[k].c, run.Triples(2, run.Beavers())[k].c)
           == Mul(Sum3(run.Triples(0, run.Beavers())[k].a, run.Triples(1, run.Beavers())[k].a, run.Triples(2, run.Beavers())[k].a),
                  Sum3(run.Triples(0, run.Beavers())[k].b, run.Triples(1, run.Beavers())[k].b, run.Triples(2, run.Beavers())[k].b))
    {
      assert run.All().C(k) == Mul(run.All().A(k), run.All().B(k));
    }
  }

  lemma HonestViewOf(run: Run, c: Circuit, id: nat, blocks: nat -> Randomness, at: nat, hidden: Party, p: Party)
    requires run.nodes == c.nodes && OutputsDefined(c)
    ensures var rep := HonestRepetition(run, c, id, blocks, at, hidden);
            |rep.openedViews| == 2 && ViewOf(rep, run.Of(hidden).View(id), p) == run.Of(p).View(id)
  {
    hide Run.Of, HonestRepetition, Local.OpenedBefore, Local.View;
    HonestShape(run, c, id, blocks, at, hidden);
  }

  /** What soundness supposes of the hidden party is what an honest run provides: its hidden view
      fits, and the three views extract to the run's own secrets. */
  lemma HonestHiddenView(run: Run, c: Circuit, s: Statement, id: nat, blocks: nat -> Randomness, at: nat, hidden: Party)
    requires RunFor(run, c, s)
    ensures var (rep, view) := (HonestRepetition(run, c, id, blocks, at, hidden), run.Of(hidden).View(id));
            HiddenViewFits(c, s, rep, view) && Extracted(c, s, rep, view) == run.secrets
  {
    hide Run.Of, HonestRepetition, Local.OpenedBefore, Local.OpsBefore, Local.Held, Consistent, Shaped, MasksOf, ThreeViews, TrioOf, Replays, Claimed, ViewOf, Run.MasksBefore, Trio.Witness;
    HonestMasks(run, c, s, id, blocks, at, hidden);
    HonestConsistent(run, c, s, id, blocks, at, hidden);
    HonestShape(run, c, id, blocks, at, hidden);
    HonestViewReplays(run, c, s, id, hidden);
    HonestViewOf(run, c, id, blocks, at, hidden, 0);
    HonestViewOf(run, c, id, blocks, at, hidden, 1);
    HonestViewOf(run, c, id, blocks, at, hidden, 2);
    HonestThreeViews(run, c, s, id);
    run.WitnessShared();
    run.OfData(hidden);
  }

  // ---- witness indistinguishability ------------------------------------------------------------------

  /** The node of the k-th Beaver multiplication among the first n nodes. */
  function NthBeaver(nodes: seq<Node>, n: nat, k: nat): (i: NodeId)
    requires n <= |nodes| && k < BeaversBefore(nodes, n)
    ensures i < n && IsBeaver(nodes, i) && BeaversBefore(nodes, i) == k
  {
    if BeaversBefore(nodes, n - 1) == k then n - 1 else NthBeaver(nodes, n - 1, k)
  }

  lemma NthBeaverOf(nodes: seq<Node>, i: NodeId)
    requires i < |nodes| && IsBeaver(nodes, i)
    ensures BeaversBefore(nodes, i) < BeaversBefore(nodes, |nodes|)
    ensures NthBeaver(nodes, |nodes|, BeaversBefore(nodes, i)) == i
  {
    BeaversMonotone(nodes, i + 1, |nodes|);
    var j := NthBeaver(nodes, |nodes|, BeaversBefore(nodes, i));
    if j < i {
      BeaversMonotone(nodes, j + 1, i);
    } else if i < j {
      BeaversMonotone(nodes, i + 1, j);
    }
  }

  /** The new values of the k-th triple's a and b: each moves with its operand's plaintext value. */
  function MovedA(run: Run, other: seq<Elem>, k: nat): Elem
    requires k < run.Beavers()
  {
    var x := run.nodes[NthBeaver(run.nodes, |run.nodes|, k)].a;
    Add(run.draws(run.TripleStart(k)), Sub(Value(run.nodes, other, run.publics, x), run.Plain(x)))
  }

  function MovedB(run: Run, other: seq<Elem>, k: nat): Elem
    requires k < run.Beavers()
  {
    var y := run.nodes[NthBeaver(run.nodes, |run.nodes|, k)].b;
    Add(run.draws(run.TripleStart(k) + 1), Sub(Value(run.nodes, other, run.publics, y), run.Plain(y)))
  }

  /** A share draw moves by the change of the shared value if it belongs to the hidden party. */
  function MovedShare(draw: Elem, p: nat, hidden: Party, before: Elem, after: Elem): Elem {
    if p == hidden then Add(draw, Sub(after, before)) else draw
  }

  /** The draw at t of the shifted tape. The hidden party absorbs every change. */
  function Shifted(run: Run, other: seq<Elem>, hidden: Party, t: nat): Elem
    requires |other| == |run.secrets|
  {
    if t < run.at || t >= run.End() then run.draws(t)
    else if t < run.TripleStart(0) then
      var k := (t - run.at) / 2;
      MovedShare(run.draws(t), (t - run.at) % 2, hidden, run.secrets[k], other[k])
    else
      var k, r := (t - run.TripleStart(0)) / 8, (t - run.TripleStart(0)) % 8;
      var a, b := run.draws(run.TripleStart(k)), run.draws(run.TripleStart(k) + 1);
      var a', b' := MovedA(run, other, k), MovedB(run, other, k);
      if r == 0 then a'
      else if r == 1 then b'
      else if r < 4 then MovedShare(run.draws(t), r - 2, hidden, a, a')
      else if r < 6 then MovedShare(run.draws(t), r - 4, hidden, b, b')
      else MovedShare(run.draws(t), r - 6, hidden, Mul(a, b), Mul(a', b'))
  }

  /** The run of the other witness on the shifted tape. */
  function ShiftedRun(run: Run, other: seq<Elem>, hidden: Party): Run
    requires |other| == |run.secrets|
  {
    Run(run.nodes, run.publics, other, (t: nat) => Shifted(run, other, hidden, t), run.at)
  }

  lemma ShareUnmoved(before: Elem, after: Elem, s0: Elem, s1: Elem, hidden: Party, p: Party)
    requires p != hidden
    ensures Share3(after, MovedShare(s0, 0, hidden, before, after), MovedShare(s1, 1, hidden, before, after), p)
         == Share3(before, s0, s1, p)
  {
    FeOf(before); FeOf(after); FeOf(s0); FeOf(s1);
    hide Fe, Add, Sub;
    Representatives();
  }

  lemma ShiftedInput(run: Run, other: seq<Elem>, hidden: Party, k: nat)
    requires |other| == |run.secrets| && k < |other|
    ensures var d := ShiftedRun(run, other, hidden).draws;
            && d(run.at + 2 * k) == MovedShare(run.draws(run.at + 2 * k), 0, hidden, run.secrets[k], other[k])
            && d(run.at + 2 * k + 1) == MovedShare(run.draws(run.at + 2 * k + 1), 1, hidden, run.secrets[k], other[k])
  {
    hide MovedShare, MovedA, MovedB;
  }

  /** What the shifted tape deals as the k-th triple. */
  lemma ShiftedTriple(run: Run, other: seq<Elem>, hidden: Party, k: nat)
    requires |other| == |run.secrets| && k < run.Beavers()
    ensures var d, t := ShiftedRun(run, other, hidden).draws, run.TripleStart(k);
            var a, b, a', b' := run.draws(t), run.draws(t + 1), MovedA(run, other, k), MovedB(run, other, k);
            && d(t) == a' && d(t + 1) == b'
            && d(t + 2) == MovedShare(run.draws(t + 2), 0, hidden, a, a')
            && d(t + 3) == MovedShare(run.draws(t + 3), 1, hidden, a, a')
            && d(t + 4) == MovedShare(run.draws(t + 4), 0, hidden, b, b')
            && d(t + 5) == MovedShare(run.draws(t + 5), 1, hidden, b, b')
            && d(t + 6) == MovedShare(run.draws(t + 6), 0, hidden, Mul(a, b), Mul(a', b'))
            && d(t + 7) == MovedShare(run.draws(t + 7), 1, hidden, Mul(a, b), Mul(a', b'))
  {
    hide MovedShare, MovedA, MovedB, Mul, Shifted;
    TripleDraw(run, other, hidden, k, 0);
    TripleDraw(run, other, hidden, k, 1);
    TripleDraw(run, other, hidden, k, 2);
    TripleDraw(run, other, hidden, k, 3);
    TripleDraw(run, other, hidden, k, 4);
    TripleDraw(run, other, hidden, k, 5);
    TripleDraw(run, other, hidden, k, 6);
    TripleDraw(run, other, hidden, k, 7);
  }

  /** The r-th draw of the k-th triple on the shifted tape. */
  lemma TripleDraw(run: Run, other: seq<Elem>, hidden: Party, k: nat, r: nat)
    requires |other| == |run.secrets| && k < run.Beavers() && r < 8
    ensures var t := run.TripleStart(k);
            var a, b, a', b' := run.draws(t), run.draws(t + 1), MovedA(run, other, k), MovedB(run, other, k);
            Shifted(run, other, hidden, t + r) ==
              if r == 0 then a' else if r == 1 then b'
              else if r < 4 then MovedShare(run.draws(t + r), r - 2, hidden, a, a')
              else if r < 6 then MovedShare(run.draws(t + r), r - 4, hidden, b, b')
              else MovedShare(run.draws(t + r), r - 6, hidden, Mul(a, b), Mul(a', b'))
  {
    hide MovedShare, MovedA, MovedB, Mul;
    assert run.TripleStart(k) + r - run.TripleStart(0) == 8 * k + r;
  }

  lemma InputsUnmoved(run: Run, other: seq<Elem>, hidden: Party, p: Party)
    requires |other| == |run.secrets| && p != hidden
    ensures ShiftedRun(run, other, hidden).InputShares(p) == run.InputShares(p)
  {
    var run' := ShiftedRun(run, other, hidden);
    ShiftedRunData(run, other, hidden);
    forall k | 0 <= k < |other|
      ensures run'.InputShares(p)[k] == run.InputShares(p)[k]
    {
      ShiftedInput(run, other, hidden, k);
      hide Share3, MovedShare, ShiftedRun;
      ShareUnmoved(run.secrets[k], other[k], run.draws(run.at + 2 * k), run.draws(run.at + 2 * k + 1), hidden, p);
    }
  }

  lemma TripleUnmoved(run: Run, other: seq<Elem>, hidden: Party, p: Party, k: nat)
    requires |other| == |run.secrets| && p != hidden && k < run.Beavers()
    ensures DealtTriple(ShiftedRun(run, other, hidden).draws, run.TripleStart(k), p)
         == DealtTriple(run.draws, run.TripleStart(k), p)
  {
    hide Mul, Share3, MovedShare, MovedA, MovedB, ShiftedRun, Shifted, Run.TripleStart;
    ShiftedTriple(run, other, hidden, k);
    var d, t := ShiftedRun(run, other, hidden).draws, run.TripleStart(k);
    var a, b, a', b' := run.draws(t), run.draws(t + 1), MovedA(run, other, k), MovedB(run, other, k);
    assert Share3(a', d(t + 2), d(t + 3), p) == Share3(a, run.draws(t + 2), run.draws(t + 3), p) by {
      ShareUnmoved(a, a', run.draws(t + 2), run.draws(t + 3), hidden, p);
    }
    assert Share3(b', d(t + 4), d(t + 5), p) == Share3(b, run.draws(t + 4), run.draws(t + 5), p) by {
      ShareUnmoved(b, b', run.draws(t + 4), run.draws(t + 5), hidden, p);
    }
    assert Share3(Mul(a', b'), d(t + 6), d(t + 7), p) == Share3(Mul(a, b), run.draws(t + 6), run.draws(t + 7), p) by {
      ShareUnmoved(Mul(a, b), Mul(a', b'), run.draws(t + 6), run.draws(t + 7), hidden, p);
    }
  }

  /** A party that stays open computes exactly the same. */
  lemma OpenPartiesUnmoved(run: Run, other: seq<Elem>, hidden: Party, p: Party)
    requires |other| == |run.secrets| && p != hidden && TopologicalOrder(run.nodes)
    ensures ShiftedRun(run, other, hidden).Of(p) == run.Of(p)
  {
    var run' := ShiftedRun(run, other, hidden);
    ShiftedRunData(run, other, hidden);
    InputsUnmoved(run, other, hidden, p);
    MasksUnmoved(run, other, hidden, |run.nodes|);
    hide ShiftedRun, DealtTriple, Run.InputShares, Run.MasksBefore, Run.TripleStart;
    forall k | 0 <= k < run.Beavers()
      ensures run'.Triples(p, run.Beavers())[k] == run.Triples(p, run.Beavers())[k]
    {
      TripleUnmoved(run, other, hidden, p, k);
    }
    assert run'.Triples(p, run.Beavers()) == run.Triples(p, run.Beavers());
  }

  lemma {:induction false} MasksUnmoved(run: Run, other: seq<Elem>, hidden: Party, i: nat)
    requires |other| == |run.secrets| && i <= |run.nodes| && TopologicalOrder(run.nodes)
    ensures ShiftedRun(run, other, hidden).MasksBefore(i) == run.MasksBefore(i)
  {
    hide Run.MasksAt, ShiftedRun;
    assert ShiftedRun(run, other, hidden).nodes == run.nodes by {
      ShiftedRunData(run, other, hidden);
    }
    if i > 0 {
      MasksUnmoved(run, other, hidden, i - 1);
      MaskAtUnmoved(run, other, hidden, i - 1);
    }
  }

  lemma ShiftedRunData(run: Run, other: seq<Elem>, hidden: Party)
    requires |other| == |run.secrets|
    ensures var run' := ShiftedRun(run, other, hidden);
            && run'.nodes == run.nodes && run'.publics == run.publics && run'.secrets == other && run'.at == run.at
            && (forall k :: run'.TripleStart(k) == run.TripleStart(k)) && run'.End() == run.End()
  {
  }

  lemma MaskAtUnmoved(run: Run, other: seq<Elem>, hidden: Party, j: NodeId)
    requires |other| == |run.secrets| && j < |run.nodes| && TopologicalOrder(run.nodes)
    ensures ShiftedRun(run, other, hidden).nodes == run.nodes
    ensures ShiftedRun(run, other, hidden).MasksAt(j) == run.MasksAt(j)
  {
    hide Add, Sub, Value, ShiftedRun, Run.TripleStart, Run.MasksAt, NthBeaver, BeaversBefore, Shifted, MovedShare;
    ShiftedRunData(run, other, hidden);
    if IsBeaver(run.nodes, j) {
      var k := BeaversBefore(run.nodes, j);
      var run', t := ShiftedRun(run, other, hidden), run.TripleStart(k);
      NthBeaverOf(run.nodes, j);
      ShiftedTriple(run, other, hidden, k);
      run.MasksAtBeaver(j);
      run'.MasksAtBeaver(j);
      assert OperandsBefore(run.nodes[j], j);
      var x, y := run.nodes[j].a, run.nodes[j].b;
      MaskUnmoved(run.Plain(x), run'.Plain(x), run.draws(t));
      MaskUnmoved(run.Plain(y), run'.Plain(y), run.draws(t + 1));
    }
  }

  lemma MaskUnmoved(v: Elem, v': Elem, a: Elem)
    ensures Sub(v', Add(a, Sub(v', v))) == Sub(v, a)
  {
    FeOf(v); FeOf(v'); FeOf(a);
    hide Fe, Add, Sub;
    Representatives();
  }

  lemma Sum3Determines(x0: Elem, x1: Elem, x2: Elem, y0: Elem, y1: Elem, y2: Elem, hidden: Party)
    requires Sum3(x0, x1, x2) == Sum3(y0, y1, y2)
    requires (hidden == 0 || x0 == y0) && (hidden == 1 || x1 == y1) && (hidden == 2 || x2 == y2)
    ensures x0 == y0 && x1 == y1 && x2 == y2
  {
    hide Add, Sub;
    AddLaws(Add(x0, x1), x2, 0);
    AddLaws(Add(y0, y1), y2, 0);
    AddLaws(x0, x1, 0);
    AddLaws(x1, x0, 0);
    AddLaws(y0, y1, 0);
    AddLaws(y1, y0, 0);
    AddLaws(x2, Add(x0, x1), 0);
    AddLaws(y2, Add(y0, y1), 0);
  }

  /** The hidden party's broadcasts are what is left of the masks, so they do not move either. */
  lemma BroadcastsUnmoved(run: Run, other: seq<Elem>, hidden: Party)
    requires |other| == |run.secrets| && run.Valid()
    ensures ShiftedRun(run, other, hidden).Of(hidden).OpenedBefore(|run.nodes|) == run.Of(hidden).OpenedBefore(|run.nodes|)
  {
    var run', n := ShiftedRun(run, other, hidden), |run.nodes|;
    hide Add, Sub, Mul, Sum3, Local.Held, Local.OpenedBefore, Shifted, Run.MasksBefore;
    forall p: Party | p != hidden
      ensures run'.Of(p) == run.Of(p)
    {
      OpenPartiesUnmoved(run, other, hidden, p);
    }
    MasksUnmoved(run, other, hidden, n);
    forall k | 0 <= k < |run.MasksBefore(n)|
      ensures run'.Of(hidden).OpenedBefore(n)[k] == run.Of(hidden).OpenedBefore(n)[k]
    {
      run.OpeningsSum(n, k);
      run'.OpeningsSum(n, k);
      Sum3Determines(run'.Of(0).OpenedBefore(n)[k], run'.Of(1).OpenedBefore(n)[k], run'.Of(2).OpenedBefore(n)[k],
                     run.Of(0).OpenedBefore(n)[k], run.Of(1).OpenedBefore(n)[k], run.Of(2).OpenedBefore(n)[k], hidden);
    }
  }

  lemma OutputShareUnmoved(run: Run, other: seq<Elem>, hidden: Party, out: NodeId)
    requires |other| == |run.secrets| && run.Valid() && out < |run.nodes| && Shared(run.nodes, out)
    requires Value(run.nodes, other, run.publics, out) == run.Plain(out)
    ensures ShiftedRun(run, other, hidden).Of(hidden).Held(out) == run.Of(hidden).Held(out)
  {
    var run' := ShiftedRun(run, other, hidden);
    hide Add, Sub, Mul, Sum3, Local.Held, Local.OpenedBefore, Shifted, Run.MasksBefore;
    forall p: Party | p != hidden
      ensures run'.Of(p) == run.Of(p)
    {
      OpenPartiesUnmoved(run, other, hidden, p);
    }
    run.SharesSum(out);
    run'.SharesSum(out);
    Sum3Determines(run'.Of(0).Held(out), run'.Of(1).Held(out), run'.Of(2).Held(out),
                   run.Of(0).Held(out), run.Of(1).Held(out), run.Of(2).Held(out), hidden);
  }

  /** Everything a repetition shows beyond the hidden party's commitment. */
  ghost predicate SameShown(r: Repetition, r': Repetition) {
    && r.openedViews == r'.openedViews && r.hiddenBroadcasts == r'.hiddenBroadcasts
    && r.hiddenOutputShares == r'.hiddenOutputShares && r.id == r'.id && r.hidden == r'.hidden
    && |r.commitments| == |r'.commitments| == 3
    && forall p :: 0 <= p < 3 && p != r.hidden ==> r.commitments[p] == r'.commitments[p]
  }

  /** Perfect witness indistinguishability of one repetition: on the shifted tape, any other witness
      with the same reference outputs shows exactly the same. */
  lemma WitnessIndistinguishable(run: Run, other: seq<Elem>, c: Circuit, s: Statement, id: nat,
                                 blocks: nat -> Randomness, at: nat, hidden: Party)
    requires RunFor(run, c, s) && |other| == |run.secrets|
    requires Outputs(c, other, s.publicInputs) == Outputs(c, run.secrets, s.publicInputs)
    ensures SameShown(HonestRepetition(run, c, id, blocks, at, hidden),
                      HonestRepetition(ShiftedRun(run, other, hidden), c, id, blocks, at, hidden))
  {
    hide Value, Local.Held, Local.View, Local.OpenedBefore, HonestRepetition, ShiftedRun, Outputs;
    hide Run.InputShares, Run.Triples, Run.MasksBefore;
    var run' := ShiftedRun(run, other, hidden);
    ShiftedRunData(run, other, hidden);
    HonestShape(run, c, id, blocks, at, hidden);
    HonestShape(run', c, id, blocks, at, hidden);
    OpenPartiesUnmoved(run, other, hidden, Others(hidden).0);
    OpenPartiesUnmoved(run, other, hidden, Others(hidden).1);
    BroadcastsUnmoved(run, other, hidden);
    var r, r' := HonestRepetition(run, c, id, blocks, at, hidden), HonestRepetition(run', c, id, blocks, at, hidden);
    forall k | 0 <= k < |c.outputs|
      ensures r'.hiddenOutputShares[k] == r.hiddenOutputShares[k]
    {
      HiddenShareUnmoved(run, other, c, s, hidden, k);
    }
    assert r'.hiddenOutputShares == r.hiddenOutputShares;
    forall p: Party | p != hidden
      ensures r.commitments[p] == r'.commitments[p]
    {
      OpenPartiesUnmoved(run, other, hidden, p);
    }
  }

  lemma HiddenShareUnmoved(run: Run, other: seq<Elem>, c: Circuit, s: Statement, hidden: Party, k: nat)
    requires RunFor(run, c, s) && |other| == |run.secrets| && k < |c.outputs|
    requires Outputs(c, other, s.publicInputs) == Outputs(c, run.secrets, s.publicInputs)
    ensures Shared(c.nodes, c.outputs[k]) ==>
              ShiftedRun(run, other, hidden).nodes == c.nodes &&
              ShiftedRun(run, other, hidden).Of(hidden).Held(c.outputs[k]) == run.Of(hidden).Held(c.outputs[k])
  {
    hide Value, Local.Held, Run.Of;
    assert Outputs(c, other, s.publicInputs)[k] == Outputs(c, run.secrets, s.publicInputs)[k];
    if Shared(c.nodes, c.outputs[k]) {
      OutputShareUnmoved(run, other, hidden, c.outputs[k]);
    }
  }

  lemma MovedBack(draw: Elem, before: Elem, after: Elem)
    ensures Add(Add(draw, Sub(after, before)), Sub(before, after)) == draw
  {
    FeOf(draw); FeOf(before); FeOf(after);
    hide Fe, Add, Sub;
    Representatives();
  }

  lemma MovedShareBack(draw: Elem, p: nat, hidden: Party, before: Elem, after: Elem)
    ensures MovedShare(MovedShare(draw, p, hidden, before, after), p, hidden, after, before) == draw
  {
    hide Add, Sub;
    MovedBack(draw, before, after);
  }

  /** Shifting is a bijection of tapes: shifting back for the first witness restores every draw. */
  lemma ShiftIsInvertible(run: Run, other: seq<Elem>, hidden: Party, t: nat)
    requires |other| == |run.secrets|
    ensures Shifted(ShiftedRun(run, other, hidden), run.secrets, hidden, t) == run.draws(t)
  {
    hide MovedShare, MovedA, MovedB;
    if run.at <= t < run.TripleStart(0) {
      var k := (t - run.at) / 2;
      MovedShareBack(run.draws(t), (t - run.at) % 2, hidden, run.secrets[k], other[k]);
    } else if run.TripleStart(0) <= t < run.End() {
      TripleShiftsBack(run, other, hidden, (t - run.TripleStart(0)) / 8, (t - run.TripleStart(0)) % 8);
    }
  }

  lemma MovedValuesBack(run: Run, other: seq<Elem>, hidden: Party, k: nat)
    requires |other| == |run.secrets| && k < run.Beavers()
    ensures var run', t := ShiftedRun(run, other, hidden), run.TripleStart(k);
            MovedA(run', run.secrets, k) == run.draws(t) && MovedB(run', run.secrets, k) == run.draws(t + 1)
  {
    hide Add, Sub, Value, ShiftedRun, Run.TripleStart, NthBeaver, Shifted, MovedShare;
    var run', t := ShiftedRun(run, other, hidden), run.TripleStart(k);
    ShiftedTriple(run, other, hidden, k);
    ShiftedRunData(run, other, hidden);
    var node := run.nodes[NthBeaver(run.nodes, |run.nodes|, k)];
    MovedBack(run.draws(t), run.Plain(node.a), run'.Plain(node.a));
    MovedBack(run.draws(t + 1), run.Plain(node.b), run'.Plain(node.b));
  }

  lemma TripleShiftsBack(run: Run, other: seq<Elem>, hidden: Party, k: nat, r: nat)
    requires |other| == |run.secrets| && k < run.Beavers() && r < 8
    ensures Shifted(ShiftedRun(run, other, hidden), run.secrets, hidden, run.TripleStart(k) + r)
         == run.draws(run.TripleStart(k) + r)
  {
    hide Add, Sub, Mul, Shifted, ShiftedRun, MovedA, MovedB, MovedShare, Run.TripleStart;
    var run', t := ShiftedRun(run, other, hidden), run.TripleStart(k);
    var a, b, a', b' := run.draws(t), run.draws(t + 1), MovedA(run, other, k), MovedB(run, other, k);
    var draw := run.draws(t + r);
    ShiftedRunData(run, other, hidden);
    DrawOfShifted(run', run.secrets, hidden, t + r);
    MovedValuesBack(run, other, hidden, k);
    ShiftedTriple(run, other, hidden, k);
    ShiftedTriple(run', run.secrets, hidden, k);
    if 2 <= r < 4 {
      MovedShareBack(draw, r - 2, hidden, a, a');
    } else if 4 <= r < 6 {
      MovedShareBack(draw, r - 4, hidden, b, b');
    } else if 6 <= r {
      MovedShareBack(draw, r - 6, hidden, Mul(a, b), Mul(a', b'));
    }
  }

  lemma DrawOfShifted(run: Run, other: seq<Elem>, hidden: Party, t: nat)
    requires |other| == |run.secrets|
    ensures ShiftedRun(run, other, hidden).draws(t) == Shifted(run, other, hidden, t)
  {
  }
}
