/** The byte layouts of the canonical encodings, position by position: tags, versions, widths and the
    order of the fields. */
module Layouts {
  import opened PrimeField
  import opened BigEndian
  import opened Codec
  import opened Circuits
  import opened Mpcith
  import opened MpcithProof
  import opened FiatShamir
  import opened Proofs
  import opened Policies
  import CircuitEncoding
  import PolicyEncoding
  import ProofEncoding
  import ViewEncoding

  // ---- positions ---------------------------------------------------------------------------------------

  /** Four bytes as an integer, the most significant first. */
  function Number(bs: seq<Byte>): nat
    requires |bs| == 4
  {
    bs[0] as int * 0x100_0000 + bs[1] as int * 0x1_0000 + bs[2] as int * 0x100 + bs[3] as int
  }

  predicate NumberAt(b: seq<Byte>, at: nat, n: nat) {
    at + 4 <= |b| && Number(b[at..at + 4]) == n
  }

  predicate BytesAt(b: seq<Byte>, at: nat, x: seq<Byte>) {
    at + |x| <= |b| && b[at..at + |x|] == x
  }

  /** Elements of 32 bytes each, one after the other. */
  predicate ElementsAt(b: seq<Byte>, at: nat, xs: seq<Elem>) {
    at + 32 * |xs| <= |b| && forall i :: 0 <= i < |xs| ==> FromBytes(b[at + 32 * i..at + 32 * i + 32]) == xs[i]
  }

  function Joined(parts: seq<seq<Byte>>): seq<Byte> {
    if parts == [] then [] else Joined(parts[..|parts| - 1]) + parts[|parts| - 1]
  }

  /** What stands at a position is followed by the rest. */
  lemma Cut(b: seq<Byte>, at: nat, x: seq<Byte>, rest: seq<Byte>)
    requires at <= |b| && b[at..] == x + rest
    ensures at + |x| <= |b| && BytesAt(b, at, x) && b[at + |x|..] == rest
  {
    assert b[at..][..|x|] == x && b[at..][|x|..] == rest;
  }

  lemma NumberPrinted(n: nat)
    requires n < TWO_32
    ensures Number(PrintU32(n)) == n
  {
    var bs := PrintU32(n);
    hide ToBytes;
    DigitsOf(n, 4);
    DigitsOf(n / 256, 3);
    DigitsOf(n / 256 / 256, 2);
    DigitsOf(n / 256 / 256 / 256, 1);
  }

  lemma DigitsOf(n: nat, width: nat)
    requires width > 0
    ensures ToBytes(n, width) == ToBytes(n / 256, width - 1) + [n % 256]
  {
  }

  lemma CutNumber(b: seq<Byte>, at: nat, n: nat, rest: seq<Byte>)
    requires at <= |b| && n < TWO_32 && b[at..] == PrintU32(n) + rest
    ensures NumberAt(b, at, n) && b[at + 4..] == rest
  {
    hide PrintU32, Number;
    Cut(b, at, PrintU32(n), rest);
    NumberPrinted(n);
  }

  lemma {:induction false} CutElements(b: seq<Byte>, at: nat, xs: seq<Elem>, rest: seq<Byte>)
    requires ElementsFit() && at <= |b| && b[at..] == PrintAll(PrintElement, xs) + rest
    ensures at + 32 * |xs| <= |b| && ElementsAt(b, at, xs) && b[at + 32 * |xs|..] == rest
  {
    hide FromBytes, PrintElement, ElementsFit;
    if xs != [] {
      var n := |xs| - 1;
      var front, last := xs[..n], xs[n];
      assert PrintAll(PrintElement, xs) + rest == PrintAll(PrintElement, front) + (PrintElement(last) + rest);
      hide PrintAll;
      CutElements(b, at, front, PrintElement(last) + rest);
      Cut(b, at + 32 * n, PrintElement(last), rest);
      ElementPrinted(last);
    }
  }

  lemma {:induction false} CutDigests(b: seq<Byte>, at: nat, ds: seq<Digest>, rest: seq<Byte>)
    requires at <= |b| && b[at..] == PrintAll(PrintDigest, ds) + rest
    ensures at + 32 * |ds| <= |b| && b[at + 32 * |ds|..] == rest
    ensures forall k :: 0 <= k < |ds| ==> BytesAt(b, at + 32 * k, ds[k])
  {
    hide BytesAt;
    if ds != [] {
      var n := |ds| - 1;
      var front, last := ds[..n], ds[n];
      assert PrintAll(PrintDigest, ds) + rest == PrintAll(PrintDigest, front) + (PrintDigest(last) + rest);
      hide PrintAll;
      CutDigests(b, at, front, PrintDigest(last) + rest);
      Cut(b, at + 32 * n, PrintDigest(last), rest);
    }
  }

  lemma ElementPrinted(x: Elem)
    requires ElementsFit()
    ensures FromBytes(PrintElement(x)) == x
  {
    BytesOfInteger(x, 32);
  }

  lemma CutCounted(b: seq<Byte>, at: nat, xs: seq<Elem>, rest: seq<Byte>)
    requires ElementsFit() && at <= |b| && |xs| < TWO_32 && b[at..] == PrintCounted(PrintElement, xs) + rest
    ensures at + 4 + 32 * |xs| <= |b| && NumberAt(b, at, |xs|) && ElementsAt(b, at + 4, xs) && b[at + 4 + 32 * |xs|..] == rest
  {
    hide PrintU32, PrintAll, ElementsFit, NumberAt, ElementsAt;
    assert PrintCounted(PrintElement, xs) + rest == PrintU32(|xs|) + (PrintAll(PrintElement, xs) + rest);
    CutNumber(b, at, |xs|, PrintAll(PrintElement, xs) + rest);
    assert at + 4 <= |b| by { Cut(b, at, PrintU32(|xs|), PrintAll(PrintElement, xs) + rest); }
    CutElements(b, at + 4, xs, rest);
  }

  /** A list of prints of different widths, as the parts it is joined of. */
  lemma {:induction false} PartsOf<T>(show: T -> seq<Byte>, xs: seq<T>) returns (parts: seq<seq<Byte>>)
    ensures |parts| == |xs| && PrintAll(show, xs) == Joined(parts) && forall i :: 0 <= i < |xs| ==> parts[i] == show(xs[i])
  {
    parts := [];
    if xs != [] {
      var n := |xs| - 1;
      var front := PartsOf(show, xs[..n]);
      parts := front + [show(xs[n])];
      assert parts[..n] == front;
    }
  }

  // ---- statements and messages -------------------------------------------------------------------------

  /** The version 1, 32 bytes of circuit id, and the two lists of elements after their counts. */
  predicate StatementAt(b: seq<Byte>, at: nat, s: Statement) {
    var (n, m) := (|s.publicInputs|, |s.expectedOutputs|);
    && at + StatementLength(s) <= |b| && b[at] == 1 && BytesAt(b, at + 1, s.circuitId)
    && NumberAt(b, at + 33, n) && ElementsAt(b, at + 37, s.publicInputs)
    && NumberAt(b, at + 37 + 32 * n, m) && ElementsAt(b, at + 41 + 32 * n, s.expectedOutputs)
  }

  function StatementLength(s: Statement): nat {
    41 + 32 * |s.publicInputs| + 32 * |s.expectedOutputs|
  }

  lemma CutStatement(b: seq<Byte>, at: nat, s: Statement, rest: seq<Byte>)
    requires ElementsFit() && Countable(s) && at <= |b| && b[at..] == PrintStatement(s) + rest
    ensures at + StatementLength(s) <= |b| && StatementAt(b, at, s) && b[at + StatementLength(s)..] == rest
  {
    hide PrintU32, PrintElement, PrintAll, ElementsFit, NumberAt, ElementsAt;
    var expected := PrintU32(|s.expectedOutputs|) + PrintAll(PrintElement, s.expectedOutputs);
    var publics := PrintU32(|s.publicInputs|) + PrintAll(PrintElement, s.publicInputs);
    assert PrintStatement(s) + rest == [STATEMENT_VERSION] + (s.circuitId + (publics + (expected + rest)));
    Cut(b, at, [STATEMENT_VERSION], s.circuitId + (publics + (expected + rest)));
    Cut(b, at + 1, s.circuitId, publics + (expected + rest));
    CutCounted(b, at + 33, s.publicInputs, expected + rest);
    CutCounted(b, at + 37 + 32 * |s.publicInputs|, s.expectedOutputs, rest);
  }

  lemma StatementLayout(s: Statement)
    requires ElementsFit() && Countable(s)
    ensures var b := PrintStatement(s);
            |b| == StatementLength(s) && StatementAt(b, 0, s)
  {
    hide PrintStatement, ElementsFit, StatementAt;
    NothingAfter(PrintStatement(s));
    CutStatement(PrintStatement(s), 0, s, []);
  }

  /** A session of the transcript: its id in four bytes and three digests. */
  predicate SessionAt(b: seq<Byte>, at: nat, x: Session) {
    && at + 100 <= |b| && |x.commitments| == 3 && NumberAt(b, at, x.id)
    && BytesAt(b, at + 4, x.commitments[0]) && BytesAt(b, at + 36, x.commitments[1]) && BytesAt(b, at + 68, x.commitments[2])
  }

  lemma CutSession(b: seq<Byte>, at: nat, x: Session, rest: seq<Byte>)
    requires WellSized(x) && at <= |b| && b[at..] == PrintSession(x) + rest
    ensures at + 100 <= |b| && SessionAt(b, at, x) && b[at + 100..] == rest
  {
    hide PrintU32, NumberAt, BytesAt, PrintAll;
    var ds := PrintAll(PrintDigest, x.commitments);
    assert PrintSession(x) + rest == PrintU32(x.id) + (ds + rest);
    Cut(b, at, PrintU32(x.id), ds + rest);
    CutNumber(b, at, x.id, ds + rest);
    CutDigests(b, at + 4, x.commitments, rest);
    assert BytesAt(b, at + 4 + 32 * 0, x.commitments[0]);
  }

  /** The message a challenge hashes: the domain, the backend's id, the version 2, the statement, the
      number of repetitions, every repetition's id and commitments, and the id of the selected one. */
  lemma MessageLayout(s: Statement, sessions: seq<Session>, selector: nat)
    requires ElementsFit() && Countable(s) && selector < |sessions| < TWO_32
    requires forall k :: 0 <= k < |sessions| ==> WellSized(sessions[k])
    ensures var (m, at, n) := (FsInput(s, sessions, selector), 43 + StatementLength(s), |sessions|);
            && |m| == at + 8 + 100 * n
            && BytesAt(m, 0, DOMAIN_FS) && |DOMAIN_FS| == 26 && BytesAt(m, 26, BACKEND_ID) && m[42] == 2
            && StatementAt(m, 43, s) && NumberAt(m, at, n)
            && (forall k :: 0 <= k < n ==> SessionAt(m, at + 4 + 100 * k, sessions[k]))
            && NumberAt(m, at + 4 + 100 * n, sessions[selector].id)
  {
    hide PrintU32, PrintStatement, PrintSession, PrintAll, NumberAt, StatementAt, BytesAt, SessionAt, ElementsFit, WellSized;
    var (m, at, n) := (FsInput(s, sessions, selector), 43 + StatementLength(s), |sessions|);
    var tail := PrintU32(sessions[selector].id);
    MessageHead(s, sessions, selector);
    CutStatement(m, 43, s, PrintU32(n) + (PrintAll(PrintSession, sessions) + tail));
    CutNumber(m, at, n, PrintAll(PrintSession, sessions) + tail);
    CutSessions(m, at + 4, sessions, tail);
    NothingAfter(tail);
    SelectedFits(sessions, selector);
    CutNumber(m, at + 4 + 100 * n, sessions[selector].id, []);
    Cut(m, at + 4 + 100 * n, tail, []);
  }

  lemma SelectedFits(sessions: seq<Session>, selector: nat)
    requires selector < |sessions| && WellSized(sessions[selector])
    ensures sessions[selector].id < TWO_32
  {
  }

  lemma MessageHead(s: Statement, sessions: seq<Session>, selector: nat)
    requires selector < |sessions|
    ensures var m := FsInput(s, sessions, selector);
            && |m| >= 43 && BytesAt(m, 0, DOMAIN_FS) && |DOMAIN_FS| == 26 && BytesAt(m, 26, BACKEND_ID) && m[42] == 2
            && m[43..] == PrintStatement(s) + (PrintU32(|sessions|) + (PrintAll(PrintSession, sessions) + PrintU32(sessions[selector].id)))
  {
    hide PrintU32, PrintStatement, PrintSession, PrintAll;
    var m := FsInput(s, sessions, selector);
    var rest := PrintStatement(s) + (PrintU32(|sessions|) + (PrintAll(PrintSession, sessions) + PrintU32(sessions[selector].id)));
    assert m == DOMAIN_FS + (BACKEND_ID + ([PROTOCOL_VERSION] + rest));
    Cut(m, 0, DOMAIN_FS, BACKEND_ID + ([PROTOCOL_VERSION] + rest));
    Cut(m, 26, BACKEND_ID, [PROTOCOL_VERSION] + rest);
    Cut(m, 42, [PROTOCOL_VERSION], rest);
  }

  lemma {:induction false} CutSessions(m: seq<Byte>, at: nat, sessions: seq<Session>, rest: seq<Byte>)
    requires at <= |m| && m[at..] == PrintAll(PrintSession, sessions) + rest && AllOk(WellSized, sessions)
    ensures at + 100 * |sessions| <= |m| && m[at + 100 * |sessions|..] == rest
    ensures forall k :: 0 <= k < |sessions| ==> SessionAt(m, at + 100 * k, sessions[k])
  {
    hide PrintSession, WellSized, SessionAt;
    if sessions != [] {
      var n := |sessions| - 1;
      var front, last := sessions[..n], sessions[n];
      assert PrintAll(PrintSession, sessions) + rest == PrintAll(PrintSession, front) + (PrintSession(last) + rest);
      hide PrintAll, BytesAt;
      CutSessions(m, at, front, PrintSession(last) + rest);
      CutSession(m, at + 100 * n, last, rest);
    }
  }

  // ---- views -------------------------------------------------------------------------------------------

  /** A recorded operation: its tag, the gate (and for a Beaver product the triple), its elements. */
  predicate OperationBytes(b: seq<Byte>, op: LocalOperation) {
    match op
    case AddOp(output, share) => |b| == 37 && b[0] == 0 && NumberAt(b, 1, output) && ElementsAt(b, 5, [share])
    case MulPublicOp(output, scalar, share) =>
      |b| == 69 && b[0] == 1 && NumberAt(b, 1, output) && ElementsAt(b, 5, [scalar, share])
    case BeaverOp(output, k, d, e, share) =>
      |b| == 105 && b[0] == 2 && NumberAt(b, 1, output) && NumberAt(b, 5, k) && ElementsAt(b, 9, [d, e, share])
  }

  lemma OperationPrinted(op: LocalOperation)
    requires ElementsFit() && ViewEncoding.OperationFits(op)
    ensures OperationBytes(ViewEncoding.PrintOperation(op), op)
  {
    hide PrintU32, PrintElement, NumberAt, ElementsAt, ElementsFit;
    var (b, xs) := (ViewEncoding.PrintOperation(op), ViewEncoding.Elements(op));
    IntegersPrinted(op);
    hide PrintAll;
    var elements := PrintAll(PrintElement, xs);
    NothingAfter(elements);
    assert ViewEncoding.Integers(op)[0] == op.output;
    if op.BeaverOp? {
      var ints := PrintU32(op.tripleIndex) + elements;
      assert ViewEncoding.Integers(op)[1] == op.tripleIndex;
      assert b == [2] + (PrintU32(op.output) + ints);
      Cut(b, 0, [2], PrintU32(op.output) + ints);
      CutNumber(b, 1, op.output, ints);
      CutNumber(b, 5, op.tripleIndex, elements);
      CutElements(b, 9, xs, []);
    } else {
      var tag := ViewEncoding.OperationTag(op);
      assert b == [tag] + (PrintU32(op.output) + elements);
      Cut(b, 0, [tag], PrintU32(op.output) + elements);
      CutNumber(b, 1, op.output, elements);
      CutElements(b, 5, xs, []);
    }
  }

  lemma IntegersPrinted(op: LocalOperation)
    ensures PrintAll(PrintU32, ViewEncoding.Integers(op)) ==
              if op.BeaverOp? then PrintU32(op.output) + PrintU32(op.tripleIndex) else PrintU32(op.output)
  {
    hide PrintU32;
    ViewEncoding.PrintsOfFew<nat>(PrintU32, op.output, if op.BeaverOp? then op.tripleIndex else 0, 0);
  }

  /** A triple: its three shares, 96 bytes. */
  predicate TripleAt(b: seq<Byte>, at: nat, t: TripleShare) {
    ElementsAt(b, at, [t.a, t.b, t.c])
  }

  lemma {:induction false} CutTriples(b: seq<Byte>, at: nat, ts: seq<TripleShare>, rest: seq<Byte>)
    requires ElementsFit() && at <= |b| && b[at..] == PrintAll(ViewEncoding.PrintTriple, ts) + rest
    ensures at + 96 * |ts| <= |b| && b[at + 96 * |ts|..] == rest
    ensures forall k :: 0 <= k < |ts| ==> TripleAt(b, at + 96 * k, ts[k])
  {
    hide ElementsFit, TripleAt;
    if ts != [] {
      var n := |ts| - 1;
      var front, last := ts[..n], ts[n];
      assert PrintAll(ViewEncoding.PrintTriple, ts) + rest
          == PrintAll(ViewEncoding.PrintTriple, front) + (ViewEncoding.PrintTriple(last) + rest);
      hide PrintAll;
      CutTriples(b, at, front, ViewEncoding.PrintTriple(last) + rest);
      CutTriple(b, at + 96 * n, last, rest);
    }
  }

  lemma CutTriple(b: seq<Byte>, at: nat, t: TripleShare, rest: seq<Byte>)
    requires ElementsFit() && at <= |b| && b[at..] == ViewEncoding.PrintTriple(t) + rest
    ensures at + 96 <= |b| && TripleAt(b, at, t) && b[at + 96..] == rest
  {
    hide ElementsFit, PrintAll, ElementsAt;
    CutElements(b, at, [t.a, t.b, t.c], rest);
  }

  /** The bytes are what these parts join to, one part for each value in order. */
  predicate PartsAt(b: seq<Byte>, at: nat, parts: seq<seq<Byte>>) {
    BytesAt(b, at, Joined(parts))
  }

  /** Triple shares and openings, each after its count, up to the end. */
  predicate TriplesAt(b: seq<Byte>, at: nat, v: PartyView) {
    var (m, k) := (|v.tripleShares|, |v.openedValues|);
    && NumberAt(b, at, m) && (forall j :: 0 <= j < m ==> TripleAt(b, at + 4 + 96 * j, v.tripleShares[j]))
    && NumberAt(b, at + 4 + 96 * m, k) && ElementsAt(b, at + 8 + 96 * m, v.openedValues)
    && |b| == at + 8 + 96 * m + 32 * k
  }

  /** What a view records, from a position to the end: operations, triple shares and openings, each
      after its count. The operations are of different widths. */
  predicate RecordsAt(b: seq<Byte>, at: nat, v: PartyView, ops: seq<seq<Byte>>) {
    && |ops| == |v.localOperations| && (forall j :: 0 <= j < |ops| ==> OperationBytes(ops[j], v.localOperations[j]))
    && NumberAt(b, at, |ops|) && PartsAt(b, at + 4, ops) && TriplesAt(b, at + 4 + |Joined(ops)|, v)
  }

  lemma RecordsLayout(b: seq<Byte>, at: nat, v: PartyView) returns (ops: seq<seq<Byte>>)
    requires ElementsFit() && ViewEncoding.ViewFits(v) && at <= |b| && b[at..] == ViewEncoding.PrintRecords(ViewEncoding.RecordsOf(v))
    ensures RecordsAt(b, at, v, ops)
  {
    hide PrintU32, PrintElement, NumberAt, ElementsAt, ElementsFit, OperationBytes, TripleAt, PartsAt, BytesAt, ViewEncoding.PrintOperation, ViewEncoding.PrintTriple, ViewEncoding.OperationFits;
    ops := PartsOf(ViewEncoding.PrintOperation, v.localOperations);
    forall k | 0 <= k < |ops|
      ensures OperationBytes(ops[k], v.localOperations[k])
    {
      OperationPrinted(v.localOperations[k]);
    }
    hide PrintAll;
    CutRecords(b, at, v, ops);
  }

  lemma CutRecords(b: seq<Byte>, at: nat, v: PartyView, ops: seq<seq<Byte>>)
    requires ElementsFit() && at <= |b| && b[at..] == ViewEncoding.PrintRecords(ViewEncoding.RecordsOf(v))
    requires |v.localOperations| < TWO_32 && |v.tripleShares| < TWO_32 && |v.openedValues| < TWO_32
    requires |ops| == |v.localOperations| && (forall j :: 0 <= j < |ops| ==> OperationBytes(ops[j], v.localOperations[j]))
    requires PrintAll(ViewEncoding.PrintOperation, v.localOperations) == Joined(ops)
    ensures RecordsAt(b, at, v, ops)
  {
    hide PrintU32, PrintAll, PrintCounted, NumberAt, TriplesAt, ElementsFit, OperationBytes, BytesAt, Joined;
    var rest := PrintU32(|v.tripleShares|) + (PrintAll(ViewEncoding.PrintTriple, v.tripleShares) + PrintCounted(PrintElement, v.openedValues));
    RecordsPieces(v, Joined(ops));
    hide ViewEncoding.PrintRecords;
    Cut(b, at, PrintU32(|ops|), Joined(ops) + rest);
    CutNumber(b, at, |ops|, Joined(ops) + rest);
    Cut(b, at + 4, Joined(ops), rest);
    CutShares(b, at + 4 + |Joined(ops)|, v);
  }

  lemma CutShares(b: seq<Byte>, at: nat, v: PartyView)
    requires ElementsFit() && at <= |b| && |v.tripleShares| < TWO_32 && |v.openedValues| < TWO_32
    requires b[at..] == PrintU32(|v.tripleShares|) + (PrintAll(ViewEncoding.PrintTriple, v.tripleShares) + PrintCounted(PrintElement, v.openedValues))
    ensures TriplesAt(b, at, v)
  {
    hide PrintU32, PrintAll, PrintCounted, NumberAt, ElementsAt, TripleAt, ElementsFit, BytesAt;
    var openings, triples, m := PrintCounted(PrintElement, v.openedValues), PrintAll(ViewEncoding.PrintTriple, v.tripleShares), |v.tripleShares|;
    Cut(b, at, PrintU32(m), triples + openings);
    CutNumber(b, at, m, triples + openings);
    CutTriples(b, at + 4, v.tripleShares, openings);
    NothingAfter(openings);
    CutCounted(b, at + 4 + 96 * m, v.openedValues, []);
  }

  lemma RecordsPieces(v: PartyView, operations: seq<Byte>)
    requires operations == PrintAll(ViewEncoding.PrintOperation, v.localOperations)
    ensures ViewEncoding.PrintRecords(ViewEncoding.RecordsOf(v)) ==
              PrintU32(|v.localOperations|) + (operations
              + (PrintU32(|v.tripleShares|) + (PrintAll(ViewEncoding.PrintTriple, v.tripleShares)
              + PrintCounted(PrintElement, v.openedValues))))
  {
    hide PrintU32, PrintAll;
  }

  /** A view: the id of its repetition, the byte of its party, the input shares after their count, and
      what it records. */
  lemma ViewLayout(v: PartyView) returns (ops: seq<seq<Byte>>)
    requires ElementsFit() && ViewEncoding.ViewFits(v)
    ensures var (b, n) := (ViewEncoding.PrintView(v), |v.inputShares|);
            && NumberAt(b, 0, v.repetitionId) && |b| > 4 && b[4] == v.partyId
            && NumberAt(b, 5, n) && ElementsAt(b, 9, v.inputShares) && RecordsAt(b, 9 + 32 * n, v, ops)
  {
    hide PrintU32, PrintAll, NumberAt, ElementsAt, ElementsFit, RecordsAt, ViewEncoding.PrintRecords;
    var b, n := ViewEncoding.PrintView(v), |v.inputShares|;
    var records := ViewEncoding.PrintRecords(ViewEncoding.RecordsOf(v));
    var shares := PrintCounted(PrintElement, v.inputShares) + records;
    Cut(b, 0, PrintU32(v.repetitionId), [v.partyId] + shares);
    CutNumber(b, 0, v.repetitionId, [v.partyId] + shares);
    Cut(b, 4, [v.partyId], shares);
    CutCounted(b, 5, v.inputShares, records);
    ops := RecordsLayout(b, 9 + 32 * n, v);
  }

  // ---- proofs ------------------------------------------------------------------------------------------

  /** An opened view: its length, its bytes, 32 bytes of randomness. */
  predicate OpenedAt(b: seq<Byte>, at: nat, view: PartyView, randomness: seq<Byte>) {
    var n := |ViewEncoding.PrintView(view)|;
    NumberAt(b, at, n) && BytesAt(b, at + 4, ViewEncoding.PrintView(view)) && |randomness| == 32 && BytesAt(b, at + 4 + n, randomness)
  }

  lemma CutOpened(b: seq<Byte>, at: nat, view: PartyView, randomness: seq<Byte>, rest: seq<Byte>)
    requires |ViewEncoding.PrintView(view)| < TWO_32 && |randomness| == 32 && at <= |b|
    requires b[at..] == ProofEncoding.PrintOpened(OpenedView(view, randomness)) + rest
    ensures OpenedAt(b, at, view, randomness)
    ensures at + 36 + |ViewEncoding.PrintView(view)| <= |b| && b[at + 36 + |ViewEncoding.PrintView(view)|..] == rest
  {
    hide PrintU32, NumberAt, ViewEncoding.PrintView;
    var v := ViewEncoding.PrintView(view);
    assert ProofEncoding.PrintOpened(OpenedView(view, randomness)) + rest == PrintU32(|v|) + (v + (randomness + rest));
    Cut(b, at, PrintU32(|v|), v + (randomness + rest));
    CutNumber(b, at, |v|, v + (randomness + rest));
    Cut(b, at + 4, v, randomness + rest);
    Cut(b, at + 4 + |v|, randomness, rest);
  }

  /** Two opened views after the number two, up to the end. */
  predicate OpeningsAt(b: seq<Byte>, at: nat, rep: ProofRepetition) {
    && |rep.openedViews| == 2 && |rep.openingRandomness| == 2
    && NumberAt(b, at, 2) && OpenedAt(b, at + 4, rep.openedViews[0], rep.openingRandomness[0])
    && var second := at + 40 + |ViewEncoding.PrintView(rep.openedViews[0])|;
       && OpenedAt(b, second, rep.openedViews[1], rep.openingRandomness[1])
       && |b| == second + 36 + |ViewEncoding.PrintView(rep.openedViews[1])|
  }

  function Opening(rep: ProofRepetition, k: nat): seq<Byte>
    requires k < |rep.openedViews| && k < |rep.openingRandomness|
  {
    ProofEncoding.PrintOpened(OpenedView(rep.openedViews[k], rep.openingRandomness[k]))
  }

  lemma OpeningFits(rep: ProofRepetition, k: nat)
    requires ProofEncoding.RepetitionFits(rep) && k < 2
    ensures |ViewEncoding.PrintView(rep.openedViews[k])| < TWO_32 && |rep.openingRandomness[k]| == 32
  {
    hide ViewEncoding.PrintView, ViewEncoding.ViewFits;
    assert ProofEncoding.OpenedFits(Openings(rep)[k]);
  }

  lemma CutOpenings(b: seq<Byte>, at: nat, rep: ProofRepetition)
    requires |rep.openedViews| == 2 && |rep.openingRandomness| == 2
    requires forall k :: 0 <= k < 2 ==> |ViewEncoding.PrintView(rep.openedViews[k])| < TWO_32 && |rep.openingRandomness[k]| == 32
    requires at <= |b| && b[at..] == PrintU32(2) + (Opening(rep, 0) + Opening(rep, 1))
    ensures OpeningsAt(b, at, rep)
  {
    hide PrintU32, NumberAt, OpenedAt, BytesAt, ProofEncoding.PrintOpened, ViewEncoding.PrintView;
    Cut(b, at, PrintU32(2), Opening(rep, 0) + Opening(rep, 1));
    CutNumber(b, at, 2, Opening(rep, 0) + Opening(rep, 1));
    CutOpened(b, at + 4, rep.openedViews[0], rep.openingRandomness[0], Opening(rep, 1));
    NothingAfter(Opening(rep, 1));
    CutOpened(b, at + 40 + |ViewEncoding.PrintView(rep.openedViews[0])|, rep.openedViews[1], rep.openingRandomness[1], []);
  }

  /** A repetition: three commitments, the byte of the hidden party, its broadcasts, its output shares,
      and the opened views. */
  predicate RepetitionBytes(b: seq<Byte>, rep: ProofRepetition) {
    var (n, m) := (|rep.hiddenBroadcasts|, |rep.hiddenOutputShares|);
    && |rep.commitments| == 3 && |b| > 96 && b[96] == rep.hidden
    && BytesAt(b, 0, rep.commitments[0]) && BytesAt(b, 32, rep.commitments[1]) && BytesAt(b, 64, rep.commitments[2])
    && NumberAt(b, 97, n) && ElementsAt(b, 101, rep.hiddenBroadcasts)
    && NumberAt(b, 101 + 32 * n, m) && ElementsAt(b, 105 + 32 * n, rep.hiddenOutputShares)
    && OpeningsAt(b, 105 + 32 * n + 32 * m, rep)
  }

  lemma RepetitionLayout(rep: ProofRepetition)
    requires ElementsFit() && ProofEncoding.RepetitionFits(rep)
    ensures RepetitionBytes(ProofEncoding.PrintRepetition(rep), rep)
  {
    hide PrintU32, PrintAll, NumberAt, ElementsAt, ElementsFit, OpeningsAt, Opening, BytesAt, ViewEncoding.PrintView, ProofEncoding.TwoOpenings;
    var b, n, m := ProofEncoding.PrintRepetition(rep), |rep.hiddenBroadcasts|, |rep.hiddenOutputShares|;
    var views := PrintU32(2) + (Opening(rep, 0) + Opening(rep, 1));
    var shares := PrintCounted(PrintElement, rep.hiddenOutputShares) + views;
    var broadcasts := PrintCounted(PrintElement, rep.hiddenBroadcasts) + shares;
    RepetitionPieces(rep);
    hide ProofEncoding.PrintRepetition, PrintCounted;
    CutDigests(b, 0, rep.commitments, [rep.hidden] + broadcasts);
    assert BytesAt(b, 0 + 32 * 0, rep.commitments[0]) && BytesAt(b, 0 + 32 * 1, rep.commitments[1]) && BytesAt(b, 0 + 32 * 2, rep.commitments[2]);
    CutByte(b, 96, rep.hidden, broadcasts);
    CutCounted(b, 97, rep.hiddenBroadcasts, shares);
    CutCounted(b, 101 + 32 * n, rep.hiddenOutputShares, views);
    OpeningFits(rep, 0);
    OpeningFits(rep, 1);
    CutOpenings(b, 105 + 32 * n + 32 * m, rep);
  }

  lemma CutByte(b: seq<Byte>, at: nat, x: Byte, rest: seq<Byte>)
    requires at <= |b| && b[at..] == [x] + rest
    ensures at < |b| && b[at] == x && b[at + 1..] == rest
  {
    assert b[at..][0] == x && b[at..][1..] == rest;
  }

  lemma RepetitionPieces(rep: ProofRepetition)
    requires |rep.openedViews| == 2 && |rep.openingRandomness| == 2
    ensures ProofEncoding.PrintRepetition(rep) ==
              PrintAll(PrintDigest, rep.commitments) + ([rep.hidden] + (PrintCounted(PrintElement, rep.hiddenBroadcasts)
              + (PrintCounted(PrintElement, rep.hiddenOutputShares) + (PrintU32(2) + (Opening(rep, 0) + Opening(rep, 1))))))
  {
    hide PrintU32, PrintCounted, ProofEncoding.PrintOpened;
    var xs := Openings(rep);
    assert xs == [OpenedView(rep.openedViews[0], rep.openingRandomness[0]), OpenedView(rep.openedViews[1], rep.openingRandomness[1])];
    ViewEncoding.PrintsOfFew(ProofEncoding.PrintOpened, xs[0], xs[1], xs[1]);
    hide PrintAll;
  }

  /** A proof: the version 2, the protocol 1, 16 bytes of backend id, the statement, and the repetitions
      after their count. */
  predicate ProofBytes(b: seq<Byte>, p: NonInteractiveProof, reps: seq<seq<Byte>>) {
    var at := 18 + StatementLength(p.statement);
    && |b| > 1 && b[0] == 2 && b[1] == 1 && BytesAt(b, 2, p.backendId) && StatementAt(b, 18, p.statement)
    && NumberAt(b, at, |reps|) && PartsAt(b, at + 4, reps) && |b| == at + 4 + |Joined(reps)|
    && |reps| == |p.repetitions| && forall k :: 0 <= k < |reps| ==> RepetitionBytes(reps[k], p.repetitions[k])
  }

  lemma ProofLayout(p: NonInteractiveProof) returns (reps: seq<seq<Byte>>)
    requires ElementsFit() && ProofEncoding.WellFormed(p)
    ensures ProofBytes(ProofEncoding.PrintProof(p), p, reps)
  {
    hide PrintU32, PrintStatement, PrintAll, ElementsFit, RepetitionBytes, ProofBytes, ProofEncoding.PrintRepetition, ProofEncoding.RepetitionFits, Joined;
    reps := PartsOf(ProofEncoding.PrintRepetition, p.repetitions);
    forall k | 0 <= k < |reps|
      ensures RepetitionBytes(reps[k], p.repetitions[k])
    {
      RepetitionLayout(p.repetitions[k]);
    }
    CutProof(p, reps);
  }

  lemma CutProof(p: NonInteractiveProof, reps: seq<seq<Byte>>)
    requires ElementsFit() && ProofEncoding.WellFormed(p) && |reps| == |p.repetitions|
    requires forall k :: 0 <= k < |reps| ==> RepetitionBytes(reps[k], p.repetitions[k])
    requires Joined(reps) == PrintAll(ProofEncoding.PrintRepetition, p.repetitions)
    ensures ProofBytes(ProofEncoding.PrintProof(p), p, reps)
  {
    hide PrintU32, PrintStatement, PrintAll, NumberAt, BytesAt, StatementAt, StatementLength, ElementsFit, RepetitionBytes, Joined, AllOk, Supported;
    var b, list, id := ProofEncoding.PrintProof(p), PrintU32(|reps|) + Joined(reps), p.backendId;
    var at := 18 + StatementLength(p.statement);
    ProofPieces(p);
    hide ProofEncoding.PrintProof;
    CutByte(b, 0, 2, [1] + (id + (PrintStatement(p.statement) + list)));
    CutByte(b, 1, 1, id + (PrintStatement(p.statement) + list));
    Cut(b, 2, id, PrintStatement(p.statement) + list);
    CutStatement(b, 18, p.statement, list);
    Cut(b, at, PrintU32(|reps|), Joined(reps));
    CutNumber(b, at, |reps|, Joined(reps));
    NothingAfter(Joined(reps));
    Cut(b, at + 4, Joined(reps), []);
  }

  lemma ProofPieces(p: NonInteractiveProof)
    requires p.version == 2 && p.protocolId == 1
    ensures ProofEncoding.PrintProof(p) == [2] + ([1] + (p.backendId + (PrintStatement(p.statement)
              + (PrintU32(|p.repetitions|) + PrintAll(ProofEncoding.PrintRepetition, p.repetitions)))))
  {
    hide PrintU32, PrintStatement, PrintAll;
  }

  // ---- circuits ----------------------------------------------------------------------------------------

  /** A node: its tag, then a constant's 32 bytes or a gate's two operands. */
  predicate NodeBytes(b: seq<Byte>, node: Node) {
    match node
    case SecretInput => b == [0]
    case PublicInput => b == [1]
    case Constant(value) => |b| == 33 && b[0] == 2 && ElementsAt(b, 1, [value])
    case AddGate(x, y) => |b| == 9 && b[0] == 3 && NumberAt(b, 1, x) && NumberAt(b, 5, y)
    case MulGate(x, y) => |b| == 9 && b[0] == 4 && NumberAt(b, 1, x) && NumberAt(b, 5, y)
  }

  lemma NodePrinted(node: Node)
    requires ElementsFit() && CircuitEncoding.NodeFits(node)
    ensures NodeBytes(CircuitEncoding.PrintNode(node), node)
  {
    hide PrintU32, NumberAt, FromBytes, ToBytes, ElementsFit;
    var b := CircuitEncoding.PrintNode(node);
    match node {
      case Constant(value) =>
        assert b == [2] + PrintElement(value) && b[1..33] == PrintElement(value);
        ElementPrinted(value);
      case AddGate(x, y) =>
        assert b == [3] + (PrintU32(x) + PrintU32(y));
        TwoNumbers(b, 3, x, y);
      case MulGate(x, y) =>
        assert b == [4] + (PrintU32(x) + PrintU32(y));
        TwoNumbers(b, 4, x, y);
      case _ =>
    }
  }

  lemma TwoNumbers(b: seq<Byte>, tag: Byte, x: nat, y: nat)
    requires x < TWO_32 && y < TWO_32 && b == [tag] + (PrintU32(x) + PrintU32(y))
    ensures |b| == 9 && b[0] == tag && NumberAt(b, 1, x) && NumberAt(b, 5, y)
  {
    hide PrintU32, NumberAt;
    Cut(b, 0, [tag], PrintU32(x) + PrintU32(y));
    CutNumber(b, 1, x, PrintU32(y));
    NothingAfter(PrintU32(y));
    CutNumber(b, 5, y, []);
  }

  /** A circuit: the version 1, the nodes after their number, and the outputs, four bytes each, after
      theirs. */
  lemma CircuitLayout(c: Circuit) returns (nodes: seq<seq<Byte>>)
    requires ElementsFit() && CircuitEncoding.Storable(c)
    ensures |nodes| == |c.nodes| && forall k :: 0 <= k < |nodes| ==> NodeBytes(nodes[k], c.nodes[k])
    ensures var (b, at) := (CircuitEncoding.PrintCircuit(c), 5 + |Joined(nodes)|);
            && |b| == at + 4 + 4 * |c.outputs| && b[0] == 1 && NumberAt(b, 1, |nodes|) && PartsAt(b, 5, nodes)
            && NumberAt(b, at, |c.outputs|) && forall k :: 0 <= k < |c.outputs| ==> NumberAt(b, at + 4 + 4 * k, c.outputs[k])
  {
    hide PrintU32, NumberAt, NodeBytes, CircuitEncoding.PrintNode, Joined, ElementsFit;
    nodes := PartsOf(CircuitEncoding.PrintNode, c.nodes);
    forall k | 0 <= k < |nodes|
      ensures NodeBytes(nodes[k], c.nodes[k])
    {
      NodeInRange(c, k);
      NodePrinted(c.nodes[k]);
    }
    OutputsInRange(c);
    hide PrintAll, ValidCircuit;
    var b, outs := CircuitEncoding.PrintCircuit(c), PrintAll(PrintU32, c.outputs);
    Cut(b, 0, [1], PrintU32(|nodes|) + (Joined(nodes) + (PrintU32(|c.outputs|) + outs)));
    Cut(b, 1, PrintU32(|nodes|), Joined(nodes) + (PrintU32(|c.outputs|) + outs));
    CutNumber(b, 1, |nodes|, Joined(nodes) + (PrintU32(|c.outputs|) + outs));
    Cut(b, 5, Joined(nodes), PrintU32(|c.outputs|) + outs);
    var at := 5 + |Joined(nodes)|;
    Cut(b, at, PrintU32(|c.outputs|), outs);
    CutNumber(b, at, |c.outputs|, outs);
    NothingAfter(outs);
    CutNumbers(b, at + 4, c.outputs, []);
  }

  lemma NodeInRange(c: Circuit, k: nat)
    requires CircuitEncoding.Storable(c) && k < |c.nodes|
    ensures CircuitEncoding.NodeFits(c.nodes[k])
  {
    assert OperandsBefore(c.nodes[k], k);
  }

  lemma OutputsInRange(c: Circuit)
    requires CircuitEncoding.Storable(c)
    ensures forall k :: 0 <= k < |c.outputs| ==> c.outputs[k] < TWO_32
  {
  }

  lemma {:induction false} CutNumbers(b: seq<Byte>, at: nat, ns: seq<nat>, rest: seq<Byte>)
    requires at <= |b| && b[at..] == PrintAll(PrintU32, ns) + rest && forall k :: 0 <= k < |ns| ==> ns[k] < TWO_32
    ensures at + 4 * |ns| <= |b| && b[at + 4 * |ns|..] == rest
    ensures forall k :: 0 <= k < |ns| ==> NumberAt(b, at + 4 * k, ns[k])
  {
    hide PrintU32, NumberAt;
    if ns != [] {
      var n := |ns| - 1;
      var front, last := ns[..n], ns[n];
      assert PrintAll(PrintU32, ns) + rest == PrintAll(PrintU32, front) + (PrintU32(last) + rest);
      hide PrintAll;
      CutNumbers(b, at, front, PrintU32(last) + rest);
      Cut(b, at + 4 * n, PrintU32(last), rest);
      CutNumber(b, at + 4 * n, last, rest);
    }
  }

  // ---- policies ----------------------------------------------------------------------------------------

  /** A policy node: the tag; a limit of eight bytes, 32 bytes of id, or a threshold of two bytes; and
      the members after their number. */
  ghost predicate PolicyBytes(b: seq<Byte>, p: Policy)
    decreases p, 1
  {
    match p
    case AmountAtMost(limit) => |b| == 9 && b[0] == 1 && FromBytes(b[1..]) == limit
    case Credential(id) => |b| == 33 && b[0] == 2 && b[1..] == id
    case Threshold(k, ms) => |b| >= 7 && b[0] == 3 && b[1] as int * 256 + b[2] as int == k && NumberAt(b, 3, |ms|) && MembersBytes(b[7..], p)
    case And(ms) => |b| >= 5 && b[0] == 4 && NumberAt(b, 1, |ms|) && MembersBytes(b[5..], p)
    case Or(ms) => |b| >= 5 && b[0] == 5 && NumberAt(b, 1, |ms|) && MembersBytes(b[5..], p)
  }

  ghost predicate MembersBytes(b: seq<Byte>, p: Policy)
    requires !p.IsLeaf()
    decreases p, 0
  {
    exists parts: seq<seq<Byte>> ::
      b == Joined(parts) && |parts| == |p.members| && forall i :: 0 <= i < |p.members| ==> PolicyBytes(parts[i], p.members[i])
  }

  /** An encoded policy is the version 1 and its root node. */
  lemma PolicyLayout(p: Policy)
    requires PolicyEncoding.Encodable(p)
    ensures var b := PolicyEncoding.Encode(p);
            |b| > 0 && b[0] == 1 && PolicyBytes(b[1..], p)
  {
    hide PolicyBytes, PolicyEncoding.EncodeNode;
    NodeLayout(p);
    assert PolicyEncoding.Encode(p)[1..] == PolicyEncoding.EncodeNode(p);
  }

  lemma {:induction false} NodeLayout(p: Policy)
    requires PolicyEncoding.Encodable(p)
    ensures PolicyBytes(PolicyEncoding.EncodeNode(p), p)
    decreases p
  {
    hide PolicyEncoding.EncodeNode, PolicyEncoding.EncodeAll, PolicyEncoding.Header, FromBytes, ToBytes, NumberAt, MembersBytes;
    PolicyEncoding.NodeParts(p);
    if p.IsLeaf() {
      LeafHeader(p);
    } else {
      var parts := EncodedParts(p.members);
      forall i | 0 <= i < |p.members|
        ensures PolicyBytes(parts[i], p.members[i])
      {
        NodeLayout(p.members[i]);
      }
      MembersJoined(parts, p);
      CombinatorHeader(p, Joined(parts));
    }
  }

  lemma MembersJoined(parts: seq<seq<Byte>>, p: Policy)
    requires !p.IsLeaf() && |parts| == |p.members| && forall i :: 0 <= i < |p.members| ==> PolicyBytes(parts[i], p.members[i])
    ensures MembersBytes(Joined(parts), p)
  {
    hide PolicyBytes;
  }

  lemma LeafHeader(p: Policy)
    requires p.IsLeaf()
    ensures PolicyBytes(PolicyEncoding.Header(p), p)
  {
    hide FromBytes, ToBytes;
    match p {
      case AmountAtMost(limit) =>
        PolicyEncoding.WidthLimits();
        BytesOfInteger(limit, 8);
        assert PolicyEncoding.Header(p)[1..] == ToBytes(limit, 8);
      case Credential(id) =>
        assert PolicyEncoding.Header(p)[1..] == id;
    }
  }

  lemma CombinatorHeader(p: Policy, members: seq<Byte>)
    requires !p.IsLeaf() && |p.members| < TWO_32 && MembersBytes(members, p)
    ensures PolicyBytes(PolicyEncoding.Header(p) + members, p)
  {
    hide MembersBytes, PrintU32, NumberAt, ToBytes;
    var b, count := PolicyEncoding.Header(p) + members, PrintU32(|p.members|);
    match p {
      case Threshold(k, ms) =>
        TwoDigits(k);
        assert b == [3] + (ToBytes(k, 2) + (count + members));
        Cut(b, 0, [3], ToBytes(k, 2) + (count + members));
        Cut(b, 1, ToBytes(k, 2), count + members);
        assert b[1] == ToBytes(k, 2)[0] && b[2] == ToBytes(k, 2)[1];
        Cut(b, 3, count, members);
        CutNumber(b, 3, |ms|, members);
      case And(ms) =>
        assert b == [4] + (count + members);
        TagAndCount(b, 4, |ms|, members);
      case Or(ms) =>
        assert b == [5] + (count + members);
        TagAndCount(b, 5, |ms|, members);
    }
  }

  lemma TagAndCount(b: seq<Byte>, tag: Byte, n: nat, rest: seq<Byte>)
    requires n < TWO_32 && b == [tag] + (PrintU32(n) + rest)
    ensures |b| >= 5 && b[0] == tag && NumberAt(b, 1, n) && b[5..] == rest
  {
    hide PrintU32, NumberAt;
    Cut(b, 0, [tag], PrintU32(n) + rest);
    Cut(b, 1, PrintU32(n), rest);
    CutNumber(b, 1, n, rest);
  }

  lemma TwoDigits(k: U16)
    ensures ToBytes(k, 2)[0] as int * 256 + ToBytes(k, 2)[1] as int == k
  {
    hide ToBytes;
    DigitsOf(k, 2);
    DigitsOf(k / 256, 1);
  }

  lemma {:induction false} EncodedParts(ms: seq<Policy>) returns (parts: seq<seq<Byte>>)
    ensures |parts| == |ms| && PolicyEncoding.EncodeAll(ms) == Joined(parts)
    ensures forall i :: 0 <= i < |ms| ==> parts[i] == PolicyEncoding.EncodeNode(ms[i])
  {
    hide PolicyEncoding.EncodeNode;
    parts := [];
    if ms != [] {
      var n := |ms| - 1;
      var front := EncodedParts(ms[..n]);
      parts := front + [PolicyEncoding.EncodeNode(ms[n])];
      assert parts[..n] == front;
    }
  }
}
