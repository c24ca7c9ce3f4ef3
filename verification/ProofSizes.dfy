/** Honest proofs about circuits within the size limits fit the proof format. */
module ProofSizes {
  import opened PrimeField
  import opened BigEndian
  import opened Codec
  import opened Circuits
  import opened Mpcith
  import opened MpcithProof
  import opened MpcithHonest
  import opened MpcithTheorems
  import opened Proofs
  import opened ViewEncoding
  import opened ProofEncoding
  import CircuitEncoding

  /** The longest operation takes a tag, two integers and three elements. */
  const OPERATION_LEN: nat := 105

  lemma {:induction false} ListLength<T>(show: T -> seq<Byte>, xs: seq<T>, most: nat)
    requires forall i :: 0 <= i < |xs| ==> |show(xs[i])| <= most
    ensures |PrintAll(show, xs)| <= most * |xs|
  {
    if xs != [] {
      ListLength(show, xs[..|xs| - 1], most);
    }
  }

  lemma OperationLength(op: LocalOperation)
    ensures |PrintOperation(op)| <= OPERATION_LEN
  {
    hide PrintU32, PrintElement;
    ListLength(PrintU32, Integers(op), 4);
    ListLength(PrintElement, Elements(op), ELEMENT_LEN);
  }

  lemma TripleLength(t: TripleShare)
    ensures |PrintTriple(t)| <= 96
  {
    hide PrintElement;
    ListLength(PrintElement, TripleElements(t), ELEMENT_LEN);
  }

  lemma {:induction false} CountsBounded(nodes: seq<Node>, i: nat)
    requires i <= |nodes|
    ensures SecretsBefore(nodes, i) + PublicsBefore(nodes, i) + BeaversBefore(nodes, i) <= i
  {
    if i > 0 {
      CountsBounded(nodes, i - 1);
    }
  }

  lemma {:induction false} OperationsBounded(l: Local, i: nat)
    requires i <= |l.nodes| && |l.nodes| < TWO_32
    ensures |l.OpsBefore(i)| <= i && AllOk(OperationFits, l.OpsBefore(i))
  {
    hide Local.Held, Local.HeldOperand;
    if i > 0 {
      OperationsBounded(l, i - 1);
      CountsBounded(l.nodes, i - 1);
      assert AllOk(OperationFits, l.OpAt(i - 1));
    }
  }

  /** At most a million of everything keeps a view's encoding below 2^32 bytes. */
  lemma SmallViewFits(v: PartyView, n: nat)
    requires n <= CircuitEncoding.MAX_CIRCUIT_NODES && v.repetitionId < TWO_32
    requires |v.inputShares| <= n && |v.localOperations| <= n && |v.tripleShares| <= n && |v.openedValues| <= 2 * n
    requires AllOk(OperationFits, v.localOperations)
    ensures ViewFits(v) && |PrintView(v)| < TWO_32
  {
    hide PrintU32, PrintElement, PrintOperation, PrintTriple, PrintAll, OperationFits;
    forall op: LocalOperation ensures |PrintOperation(op)| <= OPERATION_LEN { OperationLength(op); }
    forall t: TripleShare ensures |PrintTriple(t)| <= 96 { TripleLength(t); }
    ListLength(PrintElement, v.inputShares, ELEMENT_LEN);
    ListLength(PrintElement, v.openedValues, ELEMENT_LEN);
    ListLength(PrintOperation, v.localOperations, OPERATION_LEN);
    ListLength(PrintTriple, v.tripleShares, 96);
  }

  lemma HonestViewFits(run: Run, c: Circuit, id: nat, p: Party)
    requires CircuitEncoding.Storable(c) && run.nodes == c.nodes && |run.secrets| == c.numSecretInputs && id < TWO_32
    ensures var v := run.Of(p).View(id); ViewFits(v) && |PrintView(v)| < TWO_32
  {
    hide ViewFits, PrintView, Local.OpsBefore, Local.OpenedBefore, Run.MasksBefore, OperationFits;
    var n := |c.nodes|;
    CountsBounded(c.nodes, n);
    OperationsBounded(run.Of(p), n);
    SmallViewFits(run.Of(p).View(id), n);
  }

  /** What an honest prover stores can be written and read back. */
  lemma HonestFits(run: Run, c: Circuit, id: nat, blocks: nat -> Randomness, at: nat, hidden: Party)
    requires CircuitEncoding.Storable(c) && run.nodes == c.nodes && |run.secrets| == c.numSecretInputs && id < TWO_32
    ensures RepetitionFits(Stored(HonestRepetition(run, c, id, blocks, at, hidden)))
  {
    hide ViewFits, PrintView, Run.Of, HonestRepetition, Local.OpenedBefore;
    var rep := HonestRepetition(run, c, id, blocks, at, hidden);
    HonestShape(run, c, id, blocks, at, hidden);
    HonestViewFits(run, c, id, Others(hidden).0);
    HonestViewFits(run, c, id, Others(hidden).1);
    CountsBounded(c.nodes, |c.nodes|);
    run.OfData(hidden);
    run.OfData(Others(hidden).0);
    run.OfData(Others(hidden).1);
    StoredInner(rep);
    assert Openings(Stored(rep)) == rep.openedViews;
  }
}
