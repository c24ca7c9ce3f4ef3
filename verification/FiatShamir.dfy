/** Joint Fiat-Shamir challenges: every challenge hashes the statement, all commitments of all
    repetitions, and the id of its own repetition. */
module FiatShamir {
  import opened Wrappers
  import opened PrimeField
  import opened BigEndian
  import opened Codec
  import opened Mpcith
  import opened MpcithProof
  import opened Proofs

  datatype ProofError =
    | InvalidVersion | InvalidCircuit | CircuitIdMismatch | InvalidStatement | InvalidWitness
    | MalformedEncoding | ChallengeMismatch | UnsupportedBackend | VerificationFailed | OutputMismatch
    | ExcessiveRepetitions

  const STATEMENT_VERSION: Byte := 1

  /** "private-payment-auth/fs/v2" */
  const DOMAIN_FS: seq<Byte> :=
    [112, 114, 105, 118, 97, 116, 101, 45, 112, 97, 121, 109, 101,
     110, 116, 45, 97, 117, 116, 104, 47, 102, 115, 47, 118, 50]

  /** The domain separator, the backend id and the protocol version. */
  const FS_PREFIX: seq<Byte> := DOMAIN_FS + BACKEND_ID + [PROTOCOL_VERSION]

  type Expansion = e: seq<Byte> | |e| == 64 witness Zeros(64)

  /** The backend's expansion of a message to 64 bytes. */
  const Expand: seq<Byte> -> Expansion

  datatype Session = Session(id: nat, commitments: seq<Digest>)

  function PrintDigest(d: Digest): (bs: seq<Byte>)
    ensures |bs| == 32
  {
    d
  }

  predicate AnyDigest(d: Digest) {
    true
  }

  function PrintStatement(s: Statement): seq<Byte> {
    [STATEMENT_VERSION] + (s.circuitId
    + (PrintU32(|s.publicInputs|) + (PrintAll(PrintElement, s.publicInputs)
    + (PrintU32(|s.expectedOutputs|) + PrintAll(PrintElement, s.expectedOutputs)))))
  }

  function PrintSession(x: Session): seq<Byte> {
    PrintU32(x.id) + PrintAll(PrintDigest, x.commitments)
  }

  function FsInput(s: Statement, sessions: seq<Session>, selector: nat): seq<Byte>
    requires selector < |sessions|
  {
    FS_PREFIX + (PrintStatement(s) + (PrintU32(|sessions|) + (PrintAll(PrintSession, sessions)
    + PrintU32(sessions[selector].id))))
  }

  /** The message is written piece by piece. */
  method FsMessage(s: Statement, sessions: seq<Session>, selector: nat) returns (r: Result<seq<Byte>, ProofError>)
    ensures r == if selector < |sessions| then Ok(FsInput(s, sessions, selector)) else Err(MalformedEncoding)
  {
    hide PrintStatement, PrintSession, PrintU32, PrintAll;
    var message := DOMAIN_FS;
    message := message + BACKEND_ID;
    message := message + [PROTOCOL_VERSION];
    message := AppendStatement(message, s);
    message := AppendSessions(message, sessions);
    if selector >= |sessions| {
      return Err(MalformedEncoding);
    }
    message := message + PrintU32(sessions[selector].id);
    Regroup(FS_PREFIX, PrintStatement(s), PrintU32(|sessions|), PrintAll(PrintSession, sessions), PrintU32(sessions[selector].id));
    return Ok(message);
  }

  lemma Regroup(a: seq<Byte>, b: seq<Byte>, c: seq<Byte>, d: seq<Byte>, e: seq<Byte>)
    ensures a + b + (c + d) + e == a + (b + (c + (d + e)))
  {
  }

  method AppendStatement(out: seq<Byte>, s: Statement) returns (out': seq<Byte>)
    ensures out' == out + PrintStatement(s)
  {
    hide PrintU32, PrintElement, PrintAll;
    out' := out + [STATEMENT_VERSION];
    out' := out' + s.circuitId;
    out' := out' + PrintU32(|s.publicInputs|);
    out' := AppendElements(out', s.publicInputs);
    out' := out' + PrintU32(|s.expectedOutputs|);
    out' := AppendElements(out', s.expectedOutputs);
  }

  method AppendSessions(message: seq<Byte>, sessions: seq<Session>) returns (message': seq<Byte>)
    ensures message' == message + (PrintU32(|sessions|) + PrintAll(PrintSession, sessions))
  {
    hide PrintU32, PrintSession;
    message' := message + PrintU32(|sessions|);
    for i := 0 to |sessions|
      invariant message' == message + PrintU32(|sessions|) + PrintAll(PrintSession, sessions[..i])
    {
      message' := AppendSession(message', sessions[i]);
      assert sessions[..i + 1][..i] == sessions[..i];
    }
    assert sessions[..|sessions|] == sessions;
  }

  method AppendSession(message: seq<Byte>, session: Session) returns (message': seq<Byte>)
    ensures message' == message + PrintSession(session)
  {
    hide PrintU32;
    message' := message + PrintU32(session.id);
    for j := 0 to |session.commitments|
      invariant message' == message + PrintU32(session.id) + PrintAll(PrintDigest, session.commitments[..j])
    {
      message' := message' + session.commitments[j];
      assert session.commitments[..j + 1][..j] == session.commitments[..j];
    }
    assert session.commitments[..|session.commitments|] == session.commitments;
  }

  // ---- what the message binds --------------------------------------------------------------------------

  predicate Countable(s: Statement) {
    |s.publicInputs| < TWO_32 && |s.expectedOutputs| < TWO_32
  }

  /** What the message format takes for granted: three commitments, and an id of 32 bits. */
  predicate WellSized(x: Session) {
    |x.commitments| == 3 && x.id < TWO_32
  }

  lemma ElementsPrefixFree()
    requires ElementsFit()
    ensures PrefixFree(PrintElement, AnyElement)
  {
    forall x: Elem, y: Elem | PrintElement(x) == PrintElement(y)
      ensures x == y
    {
      BytesOfInteger(x, ELEMENT_LEN);
      BytesOfInteger(y, ELEMENT_LEN);
    }
    FixedWidthPrefixFree(PrintElement, AnyElement, ELEMENT_LEN);
  }

  lemma DigestsPrefixFree()
    ensures PrefixFree(PrintDigest, AnyDigest)
  {
    FixedWidthPrefixFree(PrintDigest, AnyDigest, 32);
  }

  lemma SessionsPrefixFree()
    ensures PrefixFree(PrintSession, WellSized)
  {
    forall x: Session, y: Session, b: seq<Byte> | WellSized(x) && WellSized(y)
                                                  && Starts(PrintSession(x), b) && Starts(PrintSession(y), b)
      ensures x == y
    {
      hide Starts, PrintU32, FromBytes;
      StartsSplit(PrintU32(x.id), PrintAll(PrintDigest, x.commitments), b);
      StartsSplit(PrintU32(y.id), PrintAll(PrintDigest, y.commitments), b);
      ReadU32(x.id, b);
      ReadU32(y.id, b);
      DigestsPrefixFree();
      ListPrefixFree(PrintDigest, AnyDigest, x.commitments, y.commitments, b[4..]);
    }
  }

  /** A counted list of elements at the start of a byte string is determined by it. */
  lemma CountedElements(xs: seq<Elem>, ys: seq<Elem>, more: seq<Byte>, more': seq<Byte>, b: seq<Byte>)
    requires ElementsFit() && |xs| < TWO_32 && |ys| < TWO_32
    requires Starts(PrintU32(|xs|) + (PrintAll(PrintElement, xs) + more), b)
    requires Starts(PrintU32(|ys|) + (PrintAll(PrintElement, ys) + more'), b)
    ensures xs == ys
    ensures var at := 4 + |PrintAll(PrintElement, xs)|;
            at <= |b| && Starts(more, b[at..]) && Starts(more', b[at..])
  {
    hide Starts, PrintU32, FromBytes, PrintElement, PrintAll;
    StartsSplit(PrintU32(|xs|), PrintAll(PrintElement, xs) + more, b);
    StartsSplit(PrintU32(|ys|), PrintAll(PrintElement, ys) + more', b);
    ReadU32(|xs|, b);
    ReadU32(|ys|, b);
    StartsSplit(PrintAll(PrintElement, xs), more, b[4..]);
    StartsSplit(PrintAll(PrintElement, ys), more', b[4..]);
    ElementsPrefixFree();
    ListPrefixFree(PrintElement, AnyElement, xs, ys, b[4..]);
    StartsShorter(PrintAll(PrintElement, xs), b[4..]);
    assert b[4..][|PrintAll(PrintElement, xs)|..] == b[4 + |PrintAll(PrintElement, xs)|..];
  }

  /** Statements are prefix-free. */
  lemma StatementPrefixFree(s: Statement, t: Statement, b: seq<Byte>)
    requires ElementsFit() && Countable(s) && Countable(t)
    requires Starts(PrintStatement(s), b) && Starts(PrintStatement(t), b)
    ensures s == t
  {
    hide PrintU32, PrintElement, PrintAll;
    var at := b[33..];
    StatementTail(s, b);
    StatementTail(t, b);
    CountedElements(s.publicInputs, t.publicInputs,
                    PrintU32(|s.expectedOutputs|) + PrintAll(PrintElement, s.expectedOutputs),
                    PrintU32(|t.expectedOutputs|) + PrintAll(PrintElement, t.expectedOutputs), at);
    var rest := at[4 + |PrintAll(PrintElement, s.publicInputs)|..];
    NothingAfter(PrintAll(PrintElement, s.expectedOutputs));
    NothingAfter(PrintAll(PrintElement, t.expectedOutputs));
    CountedElements(s.expectedOutputs, t.expectedOutputs, [], [], rest);
  }

  lemma StatementTail(s: Statement, b: seq<Byte>)
    requires Starts(PrintStatement(s), b)
    ensures |b| >= 33 && b[1..33] == s.circuitId
    ensures Starts(PrintU32(|s.publicInputs|) + (PrintAll(PrintElement, s.publicInputs)
                   + (PrintU32(|s.expectedOutputs|) + PrintAll(PrintElement, s.expectedOutputs))), b[33..])
  {
    hide PrintU32, PrintElement, PrintAll;
    var tail := PrintU32(|s.publicInputs|) + (PrintAll(PrintElement, s.publicInputs)
                + (PrintU32(|s.expectedOutputs|) + PrintAll(PrintElement, s.expectedOutputs)));
    var head := [STATEMENT_VERSION] + s.circuitId;
    assert PrintStatement(s) == head + tail;
    StartsSplit(head, tail, b);
    assert b[1..33] == head[1..];
  }

  /** The message binds the statement, every commitment of every repetition, and the repetition it
      is for: two equal messages come from the same data. */
  lemma FsInputInjective(s: Statement, xs: seq<Session>, i: nat, t: Statement, ys: seq<Session>, j: nat)
    requires ElementsFit() && Countable(s) && Countable(t) && |xs| < TWO_32 && |ys| < TWO_32
    requires i < |xs| && j < |ys|
    requires forall k :: 0 <= k < |xs| ==> WellSized(xs[k])
    requires forall k :: 0 <= k < |ys| ==> WellSized(ys[k])
    requires FsInput(s, xs, i) == FsInput(t, ys, j)
    ensures s == t && xs == ys && xs[i].id == ys[j].id
  {
    hide PrintU32, PrintStatement, PrintSession, PrintAll, FromBytes, Starts, WellSized;
    var (m, n) := (FsInput(s, xs, i), FsInput(t, ys, j));
    var sTail := PrintU32(|xs|) + (PrintAll(PrintSession, xs) + PrintU32(xs[i].id));
    var tTail := PrintU32(|ys|) + (PrintAll(PrintSession, ys) + PrintU32(ys[j].id));
    var b := m[|FS_PREFIX|..];
    assert b == PrintStatement(s) + sTail;
    assert n[|FS_PREFIX|..] == PrintStatement(t) + tTail;
    StartsWhole(b);
    StartsSplit(PrintStatement(s), sTail, b);
    StartsSplit(PrintStatement(t), tTail, b);
    StatementPrefixFree(s, t, b);
    assert sTail == b[|PrintStatement(s)|..] == tTail;
    TailsEqual(xs, i, ys, j, sTail);
  }

  lemma TailsEqual(xs: seq<Session>, i: nat, ys: seq<Session>, j: nat, b: seq<Byte>)
    requires |xs| < TWO_32 && |ys| < TWO_32 && i < |xs| && j < |ys|
    requires forall k :: 0 <= k < |xs| ==> WellSized(xs[k])
    requires forall k :: 0 <= k < |ys| ==> WellSized(ys[k])
    requires b == PrintU32(|xs|) + (PrintAll(PrintSession, xs) + PrintU32(xs[i].id))
    requires b == PrintU32(|ys|) + (PrintAll(PrintSession, ys) + PrintU32(ys[j].id))
    ensures xs == ys && xs[i].id == ys[j].id
  {
    hide PrintU32, PrintSession, PrintAll, FromBytes, Starts;
    assert WellSized(xs[i]) && WellSized(ys[j]);
    StartsWhole(b);
    StartsSplit(PrintU32(|xs|), PrintAll(PrintSession, xs) + PrintU32(xs[i].id), b);
    StartsSplit(PrintU32(|ys|), PrintAll(PrintSession, ys) + PrintU32(ys[j].id), b);
    ReadU32(|xs|, b);
    ReadU32(|ys|, b);
    var rest := b[4..];
    StartsSplit(PrintAll(PrintSession, xs), PrintU32(xs[i].id), rest);
    StartsSplit(PrintAll(PrintSession, ys), PrintU32(ys[j].id), rest);
    SessionsPrefixFree();
    ListPrefixFree(PrintSession, WellSized, xs, ys, rest);
    var last := rest[|PrintAll(PrintSession, xs)|..];
    ReadU32(xs[i].id, last);
    ReadU32(ys[j].id, last);
  }

  // ---- challenges --------------------------------------------------------------------------------------

  /** The hidden party: the first eight expanded bytes as a big-endian integer, modulo three. */
  function ChallengeFor(message: seq<Byte>): Party {
    FromBytes(Expand(message)[..8]) % 3
  }

  function DeriveAll(s: Statement, sessions: seq<Session>): Result<seq<Party>, ProofError> {
    if sessions == [] || exists k :: 0 <= k < |sessions| && |sessions[k].commitments| != 3 then Err(ProofError.InvalidStatement)
    else Ok(seq(|sessions|, i requires 0 <= i < |sessions| => ChallengeFor(FsInput(s, sessions, i))))
  }

  /** One challenge per session, in order, each from the message that selects it. */
  method DeriveChallenges(s: Statement, sessions: seq<Session>) returns (r: Result<seq<Party>, ProofError>)
    ensures r == DeriveAll(s, sessions)
  {
    hide FsInput;
    if sessions == [] {
      return Err(ProofError.InvalidStatement);
    }
    for k := 0 to |sessions|
      invariant forall j :: 0 <= j < k ==> |sessions[j].commitments| == 3
    {
      if |sessions[k].commitments| != 3 {
        return Err(ProofError.InvalidStatement);
      }
    }
    var challenges: seq<Party> := [];
    for i := 0 to |sessions|
      invariant |challenges| == i && forall j :: 0 <= j < i ==> challenges[j] == ChallengeFor(FsInput(s, sessions, j))
    {
      var message := FsMessage(s, sessions, i);
      var expanded := Expand(message.value);
      challenges := challenges + [FromBytes(expanded[..8]) % 3];
    }
    assert challenges == DeriveAll(s, sessions).value;
    return Ok(challenges);
  }

  /** Challenges exist exactly for one session or more, each with three commitments. Challenge i is
      then what the first eight bytes of the expanded message for i, a big-endian integer, leave over
      after division by three. */
  lemma ChallengesDrawn(s: Statement, sessions: seq<Session>)
    ensures DeriveAll(s, sessions).Ok? <==> |sessions| > 0 && forall k :: 0 <= k < |sessions| ==> |sessions[k].commitments| == 3
    ensures DeriveAll(s, sessions).Err? ==> DeriveAll(s, sessions).error == ProofError.InvalidStatement
    ensures DeriveAll(s, sessions).Ok? ==>
              && |DeriveAll(s, sessions).value| == |sessions|
              && forall i :: 0 <= i < |sessions| ==> DrawnFrom(FsInput(s, sessions, i), DeriveAll(s, sessions).value[i])
  {
    hide FsInput;
    if DeriveAll(s, sessions).Ok? {
      forall i | 0 <= i < |sessions|
        ensures DrawnFrom(FsInput(s, sessions, i), DeriveAll(s, sessions).value[i])
      {
        var n := FromBytes(Expand(FsInput(s, sessions, i))[..8]);
        assert IsThird(n, n / 3, DeriveAll(s, sessions).value[i]);
      }
    }
  }

  predicate IsThird(n: nat, q: nat, hidden: Party) {
    n == 3 * q + hidden
  }

  ghost predicate DrawnFrom(message: seq<Byte>, hidden: Party) {
    exists q: nat :: IsThird(FromBytes(Expand(message)[..8]), q, hidden)
  }
}
