/** The honest three-party execution as a function of the witness and of the random tape. */
module MpcithHonest {
  import opened PrimeField
  import opened Circuits
  import opened Mpcith
  import opened MpcithProof

  /** Party p's share of a value whose first two shares are drawn. */
  function Share3(value: Elem, s0: Elem, s1: Elem, p: Party): Elem {
    match p
    case 0 => s0
    case 1 => s1
    case _ => Sub(Sub(value, s0), s1)
  }

  lemma Share3Sum(value: Elem, s0: Elem, s1: Elem)
    ensures Sum3(Share3(value, s0, s1, 0), Share3(value, s0, s1, 1), Share3(value, s0, s1, 2)) == value
  {
    FeOf(value); FeOf(s0); FeOf(s1);
    hide Fe, Add, Sub;
    Representatives();
    assert s0 + s1 + (value - s0 - s1) == value;
  }

  /** Party p's shares of the triple dealt from the tape at t: values a and b, then three sharings. */
  function DealtTriple(draws: nat -> Elem, t: nat, p: Party): TripleShare {
    var a, b := draws(t), draws(t + 1);
    TripleShare(Share3(a, draws(t + 2), draws(t + 3), p),
                Share3(b, draws(t + 4), draws(t + 5), p),
                Share3(Mul(a, b), draws(t + 6), draws(t + 7), p))
  }

  /** One repetition: the public data, the witness, and the tape from a position on. */
  datatype Run = Run(nodes: seq<Node>, publics: seq<Elem>, secrets: seq<Elem>, draws: nat -> Elem, at: nat)
  {
    /** Where the k-th triple starts on the tape, after two draws for every secret input. */
    function TripleStart(k: nat): nat {
      at + 2 * |secrets| + 8 * k
    }

    function Beavers(): nat {
      BeaversBefore(nodes, |nodes|)
    }

    function End(): nat {
      TripleStart(Beavers())
    }

    function InputShares(p: Party): (s: seq<Elem>)
      ensures |s| == |secrets|
    {
      seq(|secrets|, k requires 0 <= k < |secrets| =>
        Share3(secrets[k], draws(at + 2 * k), draws(at + 2 * k + 1), p))
    }

    function Triples(p: Party, n: nat): (t: seq<TripleShare>)
      ensures |t| == n
    {
      seq(n, k requires 0 <= k < n => DealtTriple(draws, TripleStart(k), p))
    }

    function Plain(i: NodeId): Elem
      requires i < |nodes|
    {
      Value(nodes, secrets, publics, i)
    }

    /** The masks opened at node i, from the plaintext values of its operands. */
    function MasksAt(i: NodeId): (m: seq<Elem>)
      requires i < |nodes|
      ensures |m| == if IsBeaver(nodes, i) then 2 else 0
    {
      if IsBeaver(nodes, i) then
        var t := TripleStart(BeaversBefore(nodes, i));
        [Sub(Plain(nodes[i].a), draws(t)), Sub(Plain(nodes[i].b), draws(t + 1))]
      else []
    }

    lemma MasksAtBeaver(i: NodeId)
      requires i < |nodes| && IsBeaver(nodes, i)
      ensures var t := TripleStart(BeaversBefore(nodes, i));
              MasksAt(i) == [Sub(Plain(nodes[i].a), draws(t)), Sub(Plain(nodes[i].b), draws(t + 1))]
    {
    }

    function MasksBefore(i: nat): (m: seq<Elem>)
      requires i <= |nodes|
      ensures |m| == 2 * BeaversBefore(nodes, i)
    {
      if i == 0 then [] else MasksBefore(i - 1) + MasksAt(i - 1)
    }

    /** What party p computes in this run. */
    function Of(p: Party): (l: Local)
      ensures l.nodes == nodes
    {
      Local(nodes, publics, p, InputShares(p), Triples(p, Beavers()), MasksBefore(|nodes|))
    }

    function All(): Trio {
      Trio(Of(0), Of(1), Of(2))
    }

    ghost predicate Valid() {
      TopologicalOrder(nodes) && SecretsBefore(nodes, |nodes|) == |secrets|
    }

    lemma {:induction false} MasksGrow(i: nat, j: nat)
      requires i <= j <= |nodes|
      ensures MasksBefore(i) <= MasksBefore(j)
    {
      if i < j {
        MasksGrow(i, j - 1);
      }
    }

    lemma MaskOf(i: NodeId, p: Party)
      requires i < |nodes| && IsBeaver(nodes, i)
      ensures var k := BeaversBefore(nodes, i);
              && k < Beavers() && Of(p).Triple(k) == DealtTriple(draws, TripleStart(k), p)
              && Of(p).D(k) == MasksAt(i)[0] && Of(p).E(k) == MasksAt(i)[1]
    {
      MasksGrow(i + 1, |nodes|);
      BeaversMonotone(nodes, i + 1, |nodes|);
    }

    lemma TripleSums(k: nat)
      requires k < Beavers()
      ensures var t := TripleStart(k);
              All().A(k) == draws(t) && All().B(k) == draws(t + 1) && All().C(k) == Mul(draws(t), draws(t + 1))
    {
      hide Add, Sub, Mul, Sum3, Share3;
      var t := TripleStart(k);
      Share3Sum(draws(t), draws(t + 2), draws(t + 3));
      Share3Sum(draws(t + 1), draws(t + 4), draws(t + 5));
      Share3Sum(Mul(draws(t), draws(t + 1)), draws(t + 6), draws(t + 7));
    }

    lemma WitnessShared()
      ensures All().Witness() == secrets
    {
      hide Sum3, Share3;
      forall k | 0 <= k < |secrets|
        ensures All().Witness()[k] == secrets[k]
      {
        Share3Sum(secrets[k], draws(at + 2 * k), draws(at + 2 * k + 1));
      }
    }

    lemma TriplesAreProducts()
      ensures forall k :: 0 <= k < Beavers() ==> All().C(k) == Mul(All().A(k), All().B(k))
    {
      hide Mul, Trio.A, Trio.B, Trio.C;
      forall k | 0 <= k < Beavers()
        ensures All().C(k) == Mul(All().A(k), All().B(k))
      {
        TripleSums(k);
      }
    }

    lemma MasksAreOpen()
      ensures forall j :: 0 <= j < |nodes| && IsBeaver(nodes, j) ==> All().MasksOpen(j)
    {
      hide Add, Sub, Mul, Sum3, Local.Held, Share3, Trio.A, Trio.B, Trio.C;
      forall j | 0 <= j < |nodes| && IsBeaver(nodes, j)
        ensures All().MasksOpen(j)
      {
        MaskIsOpen(j);
      }
    }

    lemma OfData(p: Party)
      ensures Of(p).nodes == nodes && Of(p).publics == publics && Of(p).party == p && |Of(p).shares| == |secrets|
      ensures Of(p).globals == MasksBefore(|nodes|)
    {
    }

    lemma MaskIsOpen(j: NodeId)
      requires j < |nodes| && IsBeaver(nodes, j)
      ensures All().Joint() && All().MasksOpen(j)
    {
      hide Run.Of, Value, Sub, Trio.A, Trio.B, Trio.C, Trio.Witness, Trio.Combined, Run.MasksBefore;
      OfData(0);
      OfData(1);
      OfData(2);
      WitnessShared();
      MaskOf(j, 0);
      TripleSums(BeaversBefore(nodes, j));
    }

    /** The shares an honest run computes sum to the plaintext value at every shared node. */
    lemma SharesSum(i: NodeId)
      requires Valid() && i < |nodes| && Shared(nodes, i)
      ensures Sum3(Of(0).Held(i), Of(1).Held(i), Of(2).Held(i)) == Plain(i)
    {
      hide Add, Sub, Mul, Sum3, Local.Held, Share3, Trio.A, Trio.B, Trio.C, Trio.MasksOpen, Run.MasksBefore, Run.InputShares, Run.Triples, Trio.Witness;
      WitnessShared();
      TriplesAreProducts();
      MasksAreOpen();
      All().SharesReconstruct(i);
    }

    /** What the three parties open at a Beaver multiplication sums to its masks. */
    lemma ContributionsSum(j: NodeId)
      requires Valid() && j < |nodes| && IsBeaver(nodes, j)
      ensures |Of(0).MasksAt(j)| == |Of(1).MasksAt(j)| == |Of(2).MasksAt(j)| == 2
      ensures Sum3(Of(0).MasksAt(j)[0], Of(1).MasksAt(j)[0], Of(2).MasksAt(j)[0]) == MasksAt(j)[0]
      ensures Sum3(Of(0).MasksAt(j)[1], Of(1).MasksAt(j)[1], Of(2).MasksAt(j)[1]) == MasksAt(j)[1]
    {
      hide Add, Sub, Mul, Sum3, Local.Held, Run.Of, Run.MasksBefore, Run.Plain;
      OfData(0);
      OfData(1);
      OfData(2);
      assert OperandsBefore(nodes[j], j);
      var a, b, n := nodes[j].a, nodes[j].b, BeaversBefore(nodes, j);
      MaskOf(j, 0);
      SharesSum(a);
      SharesSum(b);
      TripleSums(n);
      Sum3OfSub(Of(0).Held(a), Of(1).Held(a), Of(2).Held(a),
                Of(0).Triple(n).a, Of(1).Triple(n).a, Of(2).Triple(n).a);
      Sum3OfSub(Of(0).Held(b), Of(1).Held(b), Of(2).Held(b),
                Of(0).Triple(n).b, Of(1).Triple(n).b, Of(2).Triple(n).b);
    }

    /** The three parties' contributions to every mask sum to the mask. */
    lemma {:induction false} OpeningsSum(i: nat, k: nat)
      requires Valid() && i <= |nodes| && k < |MasksBefore(i)|
      ensures Of(0).nodes == Of(1).nodes == Of(2).nodes == nodes
      ensures Sum3(Of(0).OpenedBefore(i)[k], Of(1).OpenedBefore(i)[k], Of(2).OpenedBefore(i)[k]) == MasksBefore(i)[k]
      decreases i
    {
      hide Add, Sub, Mul, Sum3, Run.Of, Local.MasksAt, Run.MasksAt;
      OfData(0);
      OfData(1);
      OfData(2);
      if k < |MasksBefore(i - 1)| {
        OpeningsSum(i - 1, k);
      } else {
        ContributionsSum(i - 1);
      }
    }
  }

  // ---- what an honest prover publishes ---------------------------------------------------------------

  /** One repetition after its views are committed and before its challenge. */
  datatype PartialRepetition = PartialRepetition(
    id: nat,
    commitments: seq<Digest>,
    views: seq<PartyView>,
    randomness: seq<Randomness>,
    outputVals: seq<(bool, seq<Elem>)>,
    broadcasts: seq<seq<Elem>>)

  function OutputVal(run: Run, id: NodeId): (bool, seq<Elem>)
    requires id < |run.nodes|
  {
    if Shared(run.nodes, id) then (true, [run.Of(0).Held(id), run.Of(1).Held(id), run.Of(2).Held(id)])
    else (false, [0, 0, 0])
  }

  function HonestPartial(run: Run, outputs: seq<NodeId>, id: nat, blocks: nat -> Randomness, at: nat): PartialRepetition
    requires forall k :: 0 <= k < |outputs| ==> outputs[k] < |run.nodes|
  {
    var v0, v1, v2 := run.Of(0).View(id), run.Of(1).View(id), run.Of(2).View(id);
    PartialRepetition(
      id,
      [CommitView(v0, blocks(at)), CommitView(v1, blocks(at + 1)), CommitView(v2, blocks(at + 2))],
      [v0, v1, v2],
      [blocks(at), blocks(at + 1), blocks(at + 2)],
      seq(|outputs|, k requires 0 <= k < |outputs| => OutputVal(run, outputs[k])),
      [v0.openedValues, v1.openedValues, v2.openedValues])
  }

  ghost predicate WellFormedPartial(p: PartialRepetition) {
    && |p.views| == |p.randomness| == |p.broadcasts| == 3
    && (forall q :: 0 <= q < 3 ==> p.views[q].partyId == q)
    && (forall k :: 0 <= k < |p.outputVals| ==> |p.outputVals[k].1| == 3)
  }

  /** The response to a challenge: two views are opened, the hidden party contributes its output
      shares and its broadcasts. */
  function Response(p: PartialRepetition, hidden: Party): Repetition
    requires WellFormedPartial(p)
  {
    var (q, r) := Others(hidden);
    Repetition(
      p.id, p.commitments, hidden,
      [OpenedView(p.views[q], p.randomness[q]), OpenedView(p.views[r], p.randomness[r])],
      seq(|p.outputVals|, k requires 0 <= k < |p.outputVals| =>
        if p.outputVals[k].0 then p.outputVals[k].1[hidden] else 0),
      p.broadcasts[hidden])
  }
}
