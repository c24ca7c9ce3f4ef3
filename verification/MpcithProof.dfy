/** Statements, commitments and proofs exchanged between prover and verifier. The circuit id and
    the view commitment are uninterpreted functions. */
module MpcithProof {
  import opened PrimeField
  import opened BigEndian
  import opened Circuits
  import opened Mpcith

  datatype MpcithError =
    | InvalidStatement | InvalidCircuit | InvalidRepetitionCount | MissingCommitment
    | MalformedCommitment | MissingResponse | InvalidOpening | CommitmentMismatch
    | InconsistentView | InvalidOperation | OutputMismatch | InvalidProtocolState

  const PARTY_COUNT: nat := 3
  const RANDOMNESS_LEN: nat := 32

  type Digest = d: seq<Byte> | |d| == 32 witness Zeros(32)

  type Randomness = r: seq<Byte> | |r| == 32 witness Zeros(32)

  const CircuitIdOf: Circuit -> Digest
  const CommitView: (PartyView, seq<Byte>) -> Digest

  datatype Statement = Statement(circuitId: Digest, publicInputs: seq<Elem>, expectedOutputs: seq<Elem>)

  datatype OpenedView = OpenedView(view: PartyView, randomness: seq<Byte>)

  datatype Repetition = Repetition(
    id: nat,
    commitments: seq<Digest>,
    hidden: Party,
    openedViews: seq<OpenedView>,
    hiddenOutputShares: seq<Elem>,
    hiddenBroadcasts: seq<Elem>)

  predicate ValidStatement(s: Statement, c: Circuit) {
    && ValidCircuit(c) && s.circuitId == CircuitIdOf(c)
    && |s.publicInputs| == c.numPublicInputs && |s.expectedOutputs| == |c.outputs|
  }

  /** The two parties that are opened when one is hidden, in ascending order. */
  function Others(hidden: Party): (Party, Party) {
    match hidden
    case 0 => (1, 2)
    case 1 => (0, 2)
    case _ => (0, 1)
  }

  /** The sum over the three parties does not depend on which one is named last. */
  lemma OthersComplete(hidden: Party, f: Party -> Elem)
    ensures Add(Add(f(hidden), f(Others(hidden).0)), f(Others(hidden).1)) == Sum3(f(0), f(1), f(2))
  {
    AddLaws(f(0), f(1), f(2));
    AddLaws(f(1), f(0), f(2));
    AddLaws(f(2), f(0), f(1));
    AddLaws(f(0), f(2), f(1));
    AddLaws(f(1), f(2), 0);
    AddLaws(f(2), f(1), 0);
    AddLaws(f(0), f(1), 0);
    AddLaws(Add(f(0), f(1)), f(2), 0);
  }
}
