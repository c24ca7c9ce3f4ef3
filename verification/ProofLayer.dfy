/** Non-interactive proofs: the joint prover and the independent verifier that recomputes every
    challenge. */
module ProofLayer {
  import opened Wrappers
  import opened PrimeField
  import opened BigEndian
  import opened RandomTape
  import opened Circuits
  import opened Mpcith
  import opened MpcithProof
  import opened MpcithTheorems
  import opened FiatShamir
  import opened Proofs
  import Codec
  import CircuitEncoding
  import ProofEncoding
  import ProofSizes
  import MpcithBinding
  import MpcithHonest
  import MpcithProver
  import MpcithVerifier

  /** What is wrong with a statement that does not fit its circuit. */
  function StatementFault(s: Statement, c: Circuit): ProofError {
    if !ValidCircuit(c) then ProofError.InvalidCircuit
    else if s.circuitId != CircuitIdOf(c) then CircuitIdMismatch
    else ProofError.InvalidStatement
  }

  method ValidateStatement(s: Statement, c: Circuit) returns (r: Result<(), ProofError>)
    ensures r.Ok? <==> ValidStatement(s, c)
    ensures r.Err? ==> r.error == StatementFault(s, c)
  {
    var validated := Validate(c);
    if validated.Err? {
      return Err(ProofError.InvalidCircuit);
    }
    if s.circuitId != CircuitIdOf(c) {
      return Err(CircuitIdMismatch);
    }
    if |s.publicInputs| != c.numPublicInputs || |s.expectedOutputs| != |c.outputs| {
      return Err(ProofError.InvalidStatement);
    }
    return Ok(());
  }

  function InnerProof(reps: seq<ProofRepetition>): (proof: seq<Repetition>)
    ensures |proof| == |reps|
  {
    seq(|reps|, i requires 0 <= i < |reps| => Inner(reps[i], i))
  }

  // ---- challenges over a stored proof ------------------------------------------------------------------

  function SessionsOf(reps: seq<ProofRepetition>): (sessions: seq<Session>)
    ensures |sessions| == |reps|
  {
    seq(|reps|, i requires 0 <= i < |reps| => Session(i, reps[i].commitments))
  }

  function HiddenOf(reps: seq<ProofRepetition>): (hidden: seq<Party>)
    ensures |hidden| == |reps|
  {
    seq(|reps|, i requires 0 <= i < |reps| => reps[i].hidden)
  }

  /** Acceptance: the right backend and version, this very statement, recomputed challenges, and
      every repetition valid. */
  ghost predicate Accepts(c: Circuit, s: Statement, proof: NonInteractiveProof) {
    && proof.backendId == BACKEND_ID && proof.version == PROTOCOL_VERSION && proof.protocolId == PROTOCOL_ID
    && proof.repetitions != [] && ValidStatement(s, c) && proof.statement == s
    && DeriveAll(s, SessionsOf(proof.repetitions)) == Ok(HiddenOf(proof.repetitions))
    && MpcithVerifier.Verdict(s, InnerProof(proof.repetitions), c, 0) == Some(true)
  }

  /** The first thing wrong with a proof: its header, its repetitions, the statement, the challenges,
      and last a malformed or a negative repetition. */
  ghost function ProofFault(c: Circuit, s: Statement, proof: NonInteractiveProof): Option<ProofError> {
    var derived := DeriveAll(s, SessionsOf(proof.repetitions));
    if proof.backendId != BACKEND_ID then Some(UnsupportedBackend)
    else if proof.version != PROTOCOL_VERSION || proof.protocolId != PROTOCOL_ID then Some(InvalidVersion)
    else if proof.repetitions == [] then Some(VerificationFailed)
    else if !ValidStatement(s, c) then Some(StatementFault(s, c))
    else if proof.statement != s then Some(ProofError.InvalidStatement)
    else if derived.Err? then Some(derived.error)
    else if derived.value != HiddenOf(proof.repetitions) then Some(ChallengeMismatch)
    else match MpcithVerifier.Verdict(s, InnerProof(proof.repetitions), c, 0)
      case None => Some(VerificationFailed)
      case Some(valid) => if valid then None else Some(ProofError.OutputMismatch)
  }

  /** The hidden party of every repetition is what the message for this repetition leaves modulo
      three; the message holds the statement and the three commitments of every repetition. */
  ghost predicate HiddenDrawn(s: Statement, reps: seq<ProofRepetition>) {
    forall sessions: seq<Session>, i: nat :: Transcript(reps, sessions) && i < |reps| ==>
      |reps[i].commitments| == 3 && DrawnFrom(FsInput(s, sessions, i), reps[i].hidden)
  }

  /** The repetitions' commitments under their positions. */
  predicate Transcript(reps: seq<ProofRepetition>, sessions: seq<Session>) {
    |sessions| == |reps| && forall k :: 0 <= k < |reps| ==> sessions[k] == Session(k, reps[k].commitments)
  }

  lemma DerivedIsDrawn(s: Statement, reps: seq<ProofRepetition>)
    ensures DeriveAll(s, SessionsOf(reps)) == Ok(HiddenOf(reps)) <==> reps != [] && HiddenDrawn(s, reps)
  {
    hide DeriveAll, FsInput, DrawnFrom;
    var sessions := SessionsOf(reps);
    ChallengesDrawn(s, sessions);
    assert Transcript(reps, sessions);
    assert forall other: seq<Session> :: Transcript(reps, other) ==> other == sessions;
    if reps != [] && HiddenDrawn(s, reps) {
      assert forall k :: 0 <= k < |reps| ==> |sessions[k].commitments| == |reps[k].commitments| == 3;
      var derived := DeriveAll(s, sessions).value;
      forall i | 0 <= i < |reps|
        ensures derived[i] == reps[i].hidden
      {
        DrawnOnce(FsInput(s, sessions, i), derived[i], reps[i].hidden);
      }
      assert derived == HiddenOf(reps);
    }
  }

  lemma DrawnOnce(message: seq<Byte>, p: Party, q: Party)
    requires DrawnFrom(message, p) && DrawnFrom(message, q)
    ensures p == q
  {
  }

  /** Acceptance in plain terms: the header this verifier is for; this very statement, of this circuit;
      one repetition or more; every hidden party drawn from the whole transcript; and a positive
      verdict on every repetition. */
  lemma AcceptanceMeans(c: Circuit, s: Statement, proof: NonInteractiveProof)
    ensures Accepts(c, s, proof) <==>
              && proof.backendId == BACKEND_ID && proof.version == 2 && proof.protocolId == 1
              && proof.statement == s && ValidCircuit(c) && s.circuitId == CircuitIdOf(c)
              && |s.publicInputs| == c.numPublicInputs && |s.expectedOutputs| == |c.outputs|
              && |proof.repetitions| > 0 && HiddenDrawn(s, proof.repetitions)
              && forall i :: 0 <= i < |proof.repetitions| ==> RepetitionHolds(c, s, proof.repetitions[i], i)
  {
    hide DeriveAll, HiddenDrawn, MpcithVerifier.Verdict, RepetitionHolds, Inner, ValidCircuit;
    DerivedIsDrawn(s, proof.repetitions);
    if ValidStatement(s, c) {
      VerdictOfAll(c, s, proof.repetitions);
    }
  }

  /** Views side by side with the randomness of their commitments. */
  predicate SideBySide(rep: ProofRepetition, pairs: seq<OpenedView>) {
    && |pairs| <= |rep.openedViews| && |pairs| <= |rep.openingRandomness|
    && (|pairs| == |rep.openedViews| || |pairs| == |rep.openingRandomness|)
    && forall k :: 0 <= k < |pairs| ==> pairs[k] == OpenedView(rep.openedViews[k], rep.openingRandomness[k])
  }

  /** The repetition verifier answers true for the i-th repetition. */
  ghost predicate RepetitionHolds(c: Circuit, s: Statement, rep: ProofRepetition, i: nat)
    requires ValidStatement(s, c)
  {
    forall pairs: seq<OpenedView> :: SideBySide(rep, pairs) ==>
      PositiveVerdict(c, s, Repetition(i, rep.commitments, rep.hidden, pairs, rep.hiddenOutputShares, rep.hiddenBroadcasts))
  }

  lemma HoldsInner(c: Circuit, s: Statement, rep: ProofRepetition, i: nat)
    requires ValidStatement(s, c)
    ensures RepetitionHolds(c, s, rep, i) <==> PositiveVerdict(c, s, Inner(rep, i))
  {
    hide PositiveVerdict, ValidStatement;
    assert SideBySide(rep, Openings(rep));
    forall pairs: seq<OpenedView> | SideBySide(rep, pairs)
      ensures pairs == Openings(rep)
    {
    }
  }

  lemma VerdictOfAll(c: Circuit, s: Statement, reps: seq<ProofRepetition>)
    requires ValidStatement(s, c)
    ensures MpcithVerifier.Verdict(s, InnerProof(reps), c, 0) == Some(true) <==>
            forall i :: 0 <= i < |reps| ==> RepetitionHolds(c, s, reps[i], i)
  {
    hide MpcithVerifier.Verdict, MpcithVerifier.OutputVerdict, MpcithVerifier.Consistent, ValidStatement, RepetitionHolds;
    MpcithBinding.FirstRepetitionDecides(s, InnerProof(reps), c, 0);
    forall i | 0 <= i < |reps|
      ensures MpcithBinding.RepetitionFine(s, InnerProof(reps), c, i) <==> RepetitionHolds(c, s, reps[i], i)
    {
      HoldsInner(c, s, reps[i], i);
    }
  }

  /** The repetition verifier answers true. */
  ghost predicate PositiveVerdict(c: Circuit, s: Statement, rep: Repetition)
    requires ValidStatement(s, c)
  {
    MpcithVerifier.Judged(c, s, rep) && MpcithVerifier.OutputVerdict(c, s, rep, 0) == Ok(true)
  }

  lemma NoFaultMeansAccepted(c: Circuit, s: Statement, proof: NonInteractiveProof)
    ensures ProofFault(c, s, proof).None? <==> Accepts(c, s, proof)
  {
    hide DeriveAll, MpcithVerifier.Verdict, ValidStatement;
  }

  // ---- tampering ---------------------------------------------------------------------------------------

  /** What a change of the header, the statement, or the list of repetitions of an accepted proof is
      refused for. */
  lemma HeaderTampered(c: Circuit, s: Statement, p: NonInteractiveProof, b: BackendId, v: Byte, t: Statement, d: Circuit)
    requires Accepts(c, s, p)
    ensures b != p.backendId ==> ProofFault(c, s, p.(backendId := b)) == Some(UnsupportedBackend)
    ensures v != p.version ==> ProofFault(c, s, p.(version := v)) == Some(InvalidVersion)
    ensures v != p.protocolId ==> ProofFault(c, s, p.(protocolId := v)) == Some(InvalidVersion)
    ensures ProofFault(c, s, p.(repetitions := [])) == Some(VerificationFailed)
    ensures t != s ==> ProofFault(c, s, p.(statement := t)) == Some(ProofError.InvalidStatement)
    ensures t != s && ValidStatement(t, c) ==> ProofFault(c, t, p) == Some(ProofError.InvalidStatement)
    ensures t.circuitId != s.circuitId ==> ProofFault(c, t, p) == Some(CircuitIdMismatch)
    ensures !ValidCircuit(d) ==> ProofFault(d, t, p) == Some(ProofError.InvalidCircuit)
  {
    hide DeriveAll, MpcithVerifier.Verdict, ValidCircuit;
  }

  /** The proof with another i-th repetition. */
  function Replaced(p: NonInteractiveProof, i: nat, rep: ProofRepetition): NonInteractiveProof
    requires i < |p.repetitions|
  {
    p.(repetitions := p.repetitions[i := rep])
  }

  /** Naming another hidden party contradicts the challenge. */
  lemma HiddenTampered(c: Circuit, s: Statement, p: NonInteractiveProof, i: nat, hidden: Party)
    requires Accepts(c, s, p) && i < |p.repetitions| && hidden != p.repetitions[i].hidden
    ensures ProofFault(c, s, Replaced(p, i, p.repetitions[i].(hidden := hidden))) == Some(ChallengeMismatch)
  {
    hide DeriveAll, MpcithVerifier.Verdict, ValidStatement;
    var reps := Replaced(p, i, p.repetitions[i].(hidden := hidden)).repetitions;
    assert SessionsOf(reps) == SessionsOf(p.repetitions);
    assert HiddenOf(reps)[i] != HiddenOf(p.repetitions)[i];
  }

  /** Another commitment of an opened party contradicts the challenges or the opening. */
  lemma CommitmentTampered(c: Circuit, s: Statement, p: NonInteractiveProof, i: nat, q: Party, d: Digest)
    requires Accepts(c, s, p) && i < |p.repetitions| && q != p.repetitions[i].hidden
    ensures |p.repetitions[i].commitments| == 3
    ensures d != p.repetitions[i].commitments[q] ==>
              var rep := p.repetitions[i];
              var fault := ProofFault(c, s, Replaced(p, i, rep.(commitments := rep.commitments[q := d])));
              fault == Some(ChallengeMismatch) || fault == Some(VerificationFailed)
  {
    hide DeriveAll, MpcithVerifier.Verdict, ValidStatement;
    StillDerivable(s, p.repetitions, i, q, d);
    if d != p.repetitions[i].commitments[q] {
      RecommittedFails(c, s, p.repetitions, i, q, d);
    }
  }

  lemma StillDerivable(s: Statement, reps: seq<ProofRepetition>, i: nat, q: Party, d: Digest)
    requires DeriveAll(s, SessionsOf(reps)).Ok? && i < |reps|
    ensures |reps[i].commitments| == 3
    ensures DeriveAll(s, SessionsOf(reps[i := reps[i].(commitments := reps[i].commitments[q := d])])).Ok?
  {
    hide DeriveAll;
    ChallengesDrawn(s, SessionsOf(reps));
    assert SessionsOf(reps)[i].commitments == reps[i].commitments;
    var reps' := reps[i := reps[i].(commitments := reps[i].commitments[q := d])];
    ChallengesDrawn(s, SessionsOf(reps'));
    forall k | 0 <= k < |reps'|
      ensures |SessionsOf(reps')[k].commitments| == 3
    {
      assert |SessionsOf(reps)[k].commitments| == 3;
    }
  }

  lemma InnerRecommitted(rep: ProofRepetition, i: nat, q: Party, d: Digest)
    requires |rep.commitments| == 3
    ensures Inner(rep.(commitments := rep.commitments[q := d]), i) == MpcithBinding.Recommitted(Inner(rep, i), q, d)
  {
  }

  lemma RecommittedFails(c: Circuit, s: Statement, reps: seq<ProofRepetition>, i: nat, q: Party, d: Digest)
    requires ValidStatement(s, c) && MpcithVerifier.Verdict(s, InnerProof(reps), c, 0) == Some(true)
    requires i < |reps| && |reps[i].commitments| == 3 && q != reps[i].hidden && d != reps[i].commitments[q]
    ensures MpcithVerifier.Verdict(s, InnerProof(reps[i := reps[i].(commitments := reps[i].commitments[q := d])]), c, 0) == None
  {
    hide MpcithVerifier.Verdict, MpcithVerifier.OutputVerdict, MpcithVerifier.Judged, ValidStatement, Openings;
    var reps' := reps[i := reps[i].(commitments := reps[i].commitments[q := d])];
    var (inner, inner') := (InnerProof(reps), InnerProof(reps'));
    MpcithBinding.FirstRepetitionDecides(s, inner, c, 0);
    MpcithBinding.FirstRepetitionDecides(s, inner', c, 0);
    assert MpcithBinding.RepetitionFine(s, inner, c, i);
    MpcithBinding.CommitmentsChecked(c, s, inner[i], q, d);
    InnerRecommitted(reps[i], i, q, d);
    forall j | 0 <= j < i
      ensures MpcithBinding.RepetitionFine(s, inner', c, j)
    {
      assert inner'[j] == inner[j] && MpcithBinding.RepetitionFine(s, inner, c, j);
    }
    assert MpcithBinding.RepetitionsFine(s, inner', c, 0, i);
  }

  method Verify(c: Circuit, s: Statement, proof: NonInteractiveProof) returns (r: Result<(), ProofError>)
    ensures r.Ok? <==> Accepts(c, s, proof)
    ensures r.Err? ==> ProofFault(c, s, proof) == Some(r.error)
  {
    hide MpcithVerifier.Verdict, DeriveAll;
    NoFaultMeansAccepted(c, s, proof);
    if proof.backendId != BACKEND_ID {
      return Err(UnsupportedBackend);
    }
    if proof.version != PROTOCOL_VERSION || proof.protocolId != PROTOCOL_ID {
      return Err(InvalidVersion);
    }
    var reps := proof.repetitions;
    if reps == [] {
      return Err(VerificationFailed);
    }
    var validated := ValidateStatement(s, c);
    if validated.Err? {
      return Err(validated.error);
    }
    if proof.statement != s {
      return Err(ProofError.InvalidStatement);
    }
    var derived := DeriveChallenges(s, SessionsOf(reps));
    if derived.Err? {
      return Err(derived.error);
    }
    DerivedLength(s, SessionsOf(reps));
    for i := 0 to |reps|
      invariant forall j :: 0 <= j < i ==> reps[j].hidden == derived.value[j]
    {
      if reps[i].hidden != derived.value[i] {
        return Err(ChallengeMismatch);
      }
    }
    assert derived.value == HiddenOf(reps);
    var verdict := MpcithVerifier.Verify(s, InnerProof(reps), c);
    if verdict.Err? {
      return Err(VerificationFailed);
    }
    if !verdict.value {
      return Err(ProofError.OutputMismatch);
    }
    return Ok(());
  }

  lemma DerivedLength(s: Statement, sessions: seq<Session>)
    ensures DeriveAll(s, sessions).Ok? ==> |DeriveAll(s, sessions).value| == |sessions|
  {
  }

  // ---- proving -----------------------------------------------------------------------------------------

  function AsSessions(committed: seq<(nat, seq<Digest>)>): (sessions: seq<Session>)
    ensures |sessions| == |committed|
  {
    seq(|committed|, i requires 0 <= i < |committed| => Session(committed[i].0, committed[i].1))
  }

  /** The callback of the joint prover: challenges from the statement and the full transcript. */
  function Challenges(s: Statement, committed: seq<(nat, seq<Digest>)>): Result<seq<Party>, MpcithError> {
    match DeriveAll(s, AsSessions(committed))
    case Ok(hidden) => Ok(hidden)
    case Err(_) => Err(InvalidProtocolState)
  }

  /** Proving never fails on a valid statement, and the verifier accepts the proof exactly when the
      expected outputs that depend on a secret are the reference outputs of the witness. */
  method Prove(c: Circuit, s: Statement, witness': seq<Elem>, count: nat, rng: Tape, blockRng: MpcithProver.BlockTape)
    returns (r: Result<NonInteractiveProof, ProofError>)
    modifies rng, blockRng
    ensures r.Ok? <==> ValidStatement(s, c) && |witness'| == c.numSecretInputs && count > 0
    ensures r.Ok? ==> r.value.statement == s && |r.value.repetitions| == count
    ensures r.Ok? ==> r.value.version == 2 && r.value.protocolId == 1 && HiddenDrawn(s, r.value.repetitions)
    ensures r.Ok? ==> (Accepts(c, s, r.value) <==> OutputsRight(c, s, witness', 0))
    ensures r.Ok? && !OutputsRight(c, s, witness', 0) ==> ProofFault(c, s, r.value) == Some(ProofError.OutputMismatch)
    ensures r.Ok? && CircuitEncoding.Storable(c) && count < Codec.TWO_32 ==> ProofEncoding.WellFormed(r.value)
  {
    hide MpcithVerifier.Verdict, DeriveAll, OutputsRight, Stored, Inner, HonestRepetition, HiddenDrawn;
    hide ProofEncoding.RepetitionFits;
    var validated := ValidateStatement(s, c);
    if validated.Err? {
      return Err(validated.error);
    }
    if |witness'| != c.numSecretInputs {
      return Err(InvalidWitness);
    }
    if count == 0 {
      return Err(ProofError.InvalidStatement);
    }
    var reps := ProveRepetitions(c, s, witness', count, rng, blockRng);
    DerivedIsDrawn(s, reps);
    WritableStatement(c, s);
    return Ok(NonInteractiveProof(PROTOCOL_VERSION, PROTOCOL_ID, BACKEND_ID, s, reps));
  }

  /** The joint proof in stored form: every challenge is derived from the stored commitments. */
  method ProveRepetitions(c: Circuit, s: Statement, witness': seq<Elem>, count: nat, rng: Tape, blockRng: MpcithProver.BlockTape)
    returns (reps: seq<ProofRepetition>)
    requires ValidStatement(s, c) && |witness'| == c.numSecretInputs && count > 0
    modifies rng, blockRng
    ensures |reps| == count
    ensures DeriveAll(s, SessionsOf(reps)) == Ok(HiddenOf(reps))
    ensures MpcithVerifier.Verdict(s, InnerProof(reps), c, 0) == Some(OutputsRight(c, s, witness', 0))
    ensures CircuitEncoding.Storable(c) && count < Codec.TWO_32 ==> Codec.AllOk(ProofEncoding.RepetitionFits, reps)
  {
    hide MpcithVerifier.Verdict, DeriveAll, OutputsRight, Stored, Inner, HonestRepetition, Challenges, ValidStatement;
    hide ProofEncoding.RepetitionFits, CircuitEncoding.Storable;
    hide MpcithProver.Prover.PartialAt, MpcithProver.Prover.RunFrom, MpcithProver.Prover.StartOf;
    StatementOutputs(c, s);
    var prover := new MpcithProver.Prover(c, s, witness', rng, blockRng);
    ghost var at, blockAt := rng.pos, blockRng.pos;
    var interactive, challenges := prover.ProveJoint(count, committed => Challenges(s, committed));
    ghost var committed := seq(count, i requires 0 <= i < count && OutputsDefined(c) => (i, prover.PartialAt(at, blockAt, i).commitments));
    Derivable(prover, s, committed, at, blockAt);
    DerivedLength(s, AsSessions(committed));
    reps := seq(count, i requires 0 <= i < count && interactive.Ok? && |interactive.value| == count => Stored(interactive.value[i]));
    forall i | 0 <= i < count
      ensures Inner(reps[i], i) == interactive.value[i] && reps[i].hidden == challenges.value[i]
      ensures reps[i].commitments == committed[i].1
    {
      HonestStored(prover, at, blockAt, i, challenges.value[i]);
    }
    Assembled(reps, interactive.value, challenges.value, committed);
    if CircuitEncoding.Storable(c) && count < Codec.TWO_32 {
      forall i | 0 <= i < count
        ensures ProofEncoding.RepetitionFits(reps[i])
      {
        HonestWritable(prover, at, blockAt, i, challenges.value[i]);
      }
    }
  }

  lemma StatementOutputs(c: Circuit, s: Statement)
    requires ValidStatement(s, c)
    ensures OutputsDefined(c)
  {
  }

  lemma Assembled(reps: seq<ProofRepetition>, interactive: seq<Repetition>, hidden: seq<Party>, committed: seq<(nat, seq<Digest>)>)
    requires |reps| == |interactive| == |hidden| == |committed|
    requires forall i :: 0 <= i < |reps| ==> Inner(reps[i], i) == interactive[i] && reps[i].hidden == hidden[i]
    requires forall i :: 0 <= i < |reps| ==> committed[i] == (i, reps[i].commitments)
    ensures InnerProof(reps) == interactive && HiddenOf(reps) == hidden && SessionsOf(reps) == AsSessions(committed)
  {
    hide Inner;
  }

  /** Three commitments everywhere, so the challenges can be derived. */
  lemma Derivable(prover: MpcithProver.Prover, s: Statement, committed: seq<(nat, seq<Digest>)>, at: nat, blockAt: nat)
    requires OutputsDefined(prover.circuit) && committed != []
    requires forall i :: 0 <= i < |committed| ==> committed[i] == (i, prover.PartialAt(at, blockAt, i).commitments)
    ensures DeriveAll(s, AsSessions(committed)).Ok?
    ensures Challenges(s, committed) == Ok(DeriveAll(s, AsSessions(committed)).value)
  {
    hide MpcithHonest.Run.Of, FsInput;
    forall i | 0 <= i < |committed|
      ensures |committed[i].1| == 3
    {
    }
  }

  lemma HonestStored(prover: MpcithProver.Prover, at: nat, blockAt: nat, i: nat, hidden: Party)
    requires OutputsDefined(prover.circuit)
    ensures var rep := HonestRepetition(prover.RunFrom(prover.StartOf(at, i)), prover.circuit, i, prover.blockRng.blocks,
                                        blockAt + 3 * i, hidden);
            && Inner(Stored(rep), i) == rep && Stored(rep).hidden == hidden
            && Stored(rep).commitments == prover.PartialAt(at, blockAt, i).commitments
  {
    hide MpcithHonest.Run.Of;
    var run := prover.RunFrom(prover.StartOf(at, i));
    HonestShape(run, prover.circuit, i, prover.blockRng.blocks, blockAt + 3 * i, hidden);
    HonestOrder(run, prover.circuit, i, prover.blockRng.blocks, blockAt + 3 * i, hidden);
    StoredInner(HonestRepetition(run, prover.circuit, i, prover.blockRng.blocks, blockAt + 3 * i, hidden));
  }

  lemma HonestWritable(prover: MpcithProver.Prover, at: nat, blockAt: nat, i: nat, hidden: Party)
    requires CircuitEncoding.Storable(prover.circuit) && |prover.secrets| == prover.circuit.numSecretInputs && i < Codec.TWO_32
    ensures ProofEncoding.RepetitionFits(Stored(HonestRepetition(prover.RunFrom(prover.StartOf(at, i)), prover.circuit, i,
                                                                 prover.blockRng.blocks, blockAt + 3 * i, hidden)))
  {
    hide MpcithHonest.Run.Of, MpcithHonest.HonestPartial, MpcithHonest.Response, ProofEncoding.RepetitionFits, HonestRepetition, Stored, ValidCircuit;
    ProofSizes.HonestFits(prover.RunFrom(prover.StartOf(at, i)), prover.circuit, i, prover.blockRng.blocks, blockAt + 3 * i, hidden);
  }

  lemma WritableStatement(c: Circuit, s: Statement)
    requires ValidStatement(s, c)
    ensures CircuitEncoding.Storable(c) ==> Countable(s)
  {
    ProofSizes.CountsBounded(c.nodes, |c.nodes|);
  }

  lemma HonestOrder(run: MpcithHonest.Run, c: Circuit, id: nat, blocks: nat -> Randomness, at: nat, hidden: Party)
    requires run.nodes == c.nodes && OutputsDefined(c)
    ensures var rep := HonestRepetition(run, c, id, blocks, at, hidden);
            && rep.id == id && rep.hidden == hidden && |rep.openedViews| == 2
            && rep.openedViews[0].view.partyId <= rep.openedViews[1].view.partyId
            && rep.commitments == MpcithHonest.HonestPartial(run, c.outputs, id, blocks, at).commitments
  {
  }

  /** A proof sent as bytes: it arrives unchanged, so the receiver accepts exactly when the expected
      outputs that depend on a secret are the reference outputs of the sender's witness. */
  method ProveSendVerify(c: Circuit, s: Statement, witness': seq<Elem>, count: nat, rng: Tape, blockRng: MpcithProver.BlockTape)
    returns (sent: seq<Byte>, r: Result<(), ProofError>)
    requires Codec.ElementsFit() && CircuitEncoding.Storable(c) && ValidStatement(s, c)
    requires |witness'| == c.numSecretInputs && 0 < count <= ProofEncoding.MAX_PROOF_REPETITIONS
    modifies rng, blockRng
    ensures r.Ok? <==> OutputsRight(c, s, witness', 0)
  {
    hide OutputsRight, Accepts, ProofEncoding.WellFormed, Codec.ElementsFit, CircuitEncoding.Storable, ValidStatement;
    var proved := Prove(c, s, witness', count, rng, blockRng);
    sent := ProofEncoding.SerializeProof(proved.value);
    var received := ProofEncoding.DeserializeProof(sent);
    r := Verify(c, s, received.value);
  }
}
