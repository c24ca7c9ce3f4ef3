/** The canonical byte encoding of non-interactive proofs. */
module ProofEncoding {
  import opened Wrappers
  import opened PrimeField
  import opened BigEndian
  import opened Codec
  import opened Mpcith
  import opened MpcithProof
  import opened FiatShamir
  import opened Proofs
  import opened ViewEncoding

  const MAX_PROOF_REPETITIONS: nat := 10_000

  // ---- the format --------------------------------------------------------------------------------------

  /** A view after the length of its encoding, then the randomness of its commitment. */
  function PrintOpened(o: OpenedView): seq<Byte> {
    PrintU32(|PrintView(o.view)|) + (PrintView(o.view) + o.randomness)
  }

  predicate OpenedFits(o: OpenedView) {
    ViewFits(o.view) && |PrintView(o.view)| < TWO_32 && |o.randomness| == RANDOMNESS_LEN
  }

  function PrintOpenings(xs: seq<OpenedView>): seq<Byte> {
    PrintCounted(PrintOpened, xs)
  }

  predicate TwoOpenings(xs: seq<OpenedView>) {
    |xs| == 2 && AllOk(OpenedFits, xs)
  }

  function PrintRepetition(rep: ProofRepetition): seq<Byte> {
    PrintAll(PrintDigest, rep.commitments) + AfterCommitments(rep)
  }

  function AfterCommitments(rep: ProofRepetition): seq<Byte> {
    PrintParty(rep.hidden) + AfterHidden(rep)
  }

  function AfterHidden(rep: ProofRepetition): seq<Byte> {
    PrintCounted(PrintElement, rep.hiddenBroadcasts) + AfterBroadcasts(rep)
  }

  function AfterBroadcasts(rep: ProofRepetition): seq<Byte> {
    PrintCounted(PrintElement, rep.hiddenOutputShares)
    + (PrintU32(|rep.openedViews|) + PrintAll(PrintOpened, Openings(rep)))
  }

  /** Three commitments, two views with 32 bytes of randomness each, and counts of 32 bits. */
  predicate RepetitionFits(rep: ProofRepetition) {
    && |rep.commitments| == 3 && |rep.openedViews| == 2 && |rep.openingRandomness| == 2
    && CountedFits(AnyElement, rep.hiddenBroadcasts) && CountedFits(AnyElement, rep.hiddenOutputShares)
    && TwoOpenings(Openings(rep))
  }

  function PrintProof(p: NonInteractiveProof): seq<Byte> {
    [p.version] + AfterVersion(p)
  }

  function AfterVersion(p: NonInteractiveProof): seq<Byte> {
    [p.protocolId] + AfterProtocol(p)
  }

  function AfterProtocol(p: NonInteractiveProof): seq<Byte> {
    p.backendId + AfterBackend(p)
  }

  function AfterBackend(p: NonInteractiveProof): seq<Byte> {
    PrintStatement(p.statement) + PrintCounted(PrintRepetition, p.repetitions)
  }

  /** Everything the format asks of a proof but the limit on its repetitions. */
  predicate WellFormed(p: NonInteractiveProof) {
    && p.version == PROTOCOL_VERSION && p.protocolId == PROTOCOL_ID && Supported(p.backendId)
    && Countable(p.statement) && CountedFits(RepetitionFits, p.repetitions)
  }

  // ---- printing ----------------------------------------------------------------------------------------

  method SerializeProof(p: NonInteractiveProof) returns (out: seq<Byte>)
    ensures out == PrintProof(p)
  {
    hide PrintU32, PrintStatement, PrintRepetition;
    out := [p.version];
    out := out + [p.protocolId];
    out := out + p.backendId;
    out := AppendStatement(out, p.statement);
    var reps := p.repetitions;
    out := out + PrintU32(|reps|);
    ghost var head := out;
    for i := 0 to |reps|
      invariant out == head + PrintAll(PrintRepetition, reps[..i])
    {
      out := AppendRepetition(out, reps[i]);
      assert reps[..i + 1][..i] == reps[..i];
    }
    assert reps[..|reps|] == reps;
  }

  method AppendRepetition(out: seq<Byte>, rep: ProofRepetition) returns (out': seq<Byte>)
    ensures out' == out + PrintRepetition(rep)
  {
    hide PrintU32, PrintElement, PrintOpened, Openings, PrintAll;
    out' := AppendDigests(out, rep.commitments);
    out' := out' + [rep.hidden];
    out' := out' + PrintU32(|rep.hiddenBroadcasts|);
    out' := AppendElements(out', rep.hiddenBroadcasts);
    out' := out' + PrintU32(|rep.hiddenOutputShares|);
    out' := AppendElements(out', rep.hiddenOutputShares);
    out' := out' + PrintU32(|rep.openedViews|);
    out' := AppendOpenings(out', Openings(rep));
  }

  method AppendDigests(out: seq<Byte>, ds: seq<Digest>) returns (out': seq<Byte>)
    ensures out' == out + PrintAll(PrintDigest, ds)
  {
    out' := out;
    for i := 0 to |ds|
      invariant out' == out + PrintAll(PrintDigest, ds[..i])
    {
      out' := out' + ds[i];
      assert ds[..i + 1][..i] == ds[..i];
    }
    assert ds[..|ds|] == ds;
  }

  method AppendOpenings(out: seq<Byte>, xs: seq<OpenedView>) returns (out': seq<Byte>)
    ensures out' == out + PrintAll(PrintOpened, xs)
  {
    hide PrintU32, PrintView;
    out' := out;
    for i := 0 to |xs|
      invariant out' == out + PrintAll(PrintOpened, xs[..i])
    {
      var viewBytes := EncodeView(xs[i].view, []);
      out' := out' + PrintU32(|viewBytes|);
      out' := out' + viewBytes;
      out' := out' + xs[i].randomness;
      assert xs[..i + 1][..i] == xs[..i];
    }
    assert xs[..|xs|] == xs;
  }

  // ---- parsing -----------------------------------------------------------------------------------------

  method ReadDigest(c: Cursor) returns (r: Option<Digest>)
    requires c.Valid()
    modifies c
    ensures c.Valid() && c.pos >= old(c.pos)
    ensures Reads(PrintDigest, AnyDigest, r, old(c.Rest()), c.Rest())
  {
    ghost var before := c.Rest();
    var raw := c.ReadBytes(32);
    r := if raw.Some? then Some(raw.value) else None;
    forall d: Digest | Starts(PrintDigest(d), before)
      ensures r == Some(d)
    {
      assert before[..32] == d;
    }
  }

  method ReadDigests(c: Cursor, n: nat) returns (r: Option<seq<Digest>>)
    requires c.Valid()
    modifies c
    ensures c.Valid() && c.pos >= old(c.pos)
    ensures ReadsMany(PrintDigest, AnyDigest, n, r, old(c.Rest()), c.Rest())
  {
    hide ReadSoFar, ReadsMany, Reads;
    ghost var start := c.Rest();
    var got: seq<Digest> := [];
    NothingRead(PrintDigest, AnyDigest, n, start);
    for i := 0 to n
      invariant c.Valid() && c.pos >= old(c.pos) && |got| == i
      invariant ReadSoFar(PrintDigest, AnyDigest, n, got, start, c.Rest())
    {
      ghost var rest := c.Rest();
      var d := ReadDigest(c);
      ReadOne(PrintDigest, AnyDigest, n, got, d, start, rest, c.Rest());
      if d.None? {
        return None;
      }
      got := got + [d.value];
    }
    ReadAll(PrintDigest, AnyDigest, n, got, start, c.Rest());
    return Some(got);
  }

  /** The view whose encoding is the whole byte string. */
  method WholeView(bytes: seq<Byte>) returns (r: Option<PartyView>)
    requires ElementsFit()
    ensures forall v: PartyView :: r == Some(v) <==> ViewFits(v) && bytes == PrintView(v)
  {
    hide Starts, PrintView, ViewFits, ElementsFit;
    var inner := new Cursor(bytes);
    assert inner.Rest() == bytes;
    r := DecodeView(inner);
    forall v: PartyView | ViewFits(v) && bytes == PrintView(v)
      ensures r == Some(v) && inner.Rest() == []
    {
      StartsWhole(PrintView(v));
      NothingAfter(PrintView(v));
    }
    if r.Some? {
      NothingAfter(PrintView(r.value));
      if inner.pos != |bytes| {
        return None;
      }
    }
  }

  /** A view must fill exactly the bytes its length announces. */
  method ReadOpened(c: Cursor) returns (r: Option<OpenedView>)
    requires c.Valid() && ElementsFit()
    modifies c
    ensures c.Valid() && c.pos >= old(c.pos)
    ensures Reads(PrintOpened, OpenedFits, r, old(c.Rest()), c.Rest())
  {
    hide PrintU32, Starts, PrintView, ViewFits, ElementsFit;
    ghost var start := c.Rest();
    var len := c.ReadInteger();
    ghost var rest1 := c.Rest();
    forall o: OpenedView | OpenedFits(o) && Starts(PrintOpened(o), start)
      ensures len == Some(|PrintView(o.view)|) && Starts(PrintView(o.view) + o.randomness, rest1)
    {
      Follows<nat>(PrintU32, IdFits, len, |PrintView(o.view)|, PrintView(o.view) + o.randomness, start, rest1);
    }
    if len.None? {
      return None;
    }
    var viewBytes := c.ReadBytes(len.value);
    ghost var rest2 := c.Rest();
    forall o: OpenedView | OpenedFits(o) && Starts(PrintOpened(o), start)
      ensures viewBytes == Some(PrintView(o.view)) && Starts(o.randomness, rest2)
    {
      StartsSplit(PrintView(o.view), o.randomness, rest1);
      Announced(PrintView(o.view), rest1, viewBytes, rest2);
    }
    if viewBytes.None? {
      return None;
    }
    var view := WholeView(viewBytes.value);
    if view.None? {
      return None;
    }
    var randomness := c.ReadBytes(RANDOMNESS_LEN);
    forall o: OpenedView | OpenedFits(o) && Starts(PrintOpened(o), start)
      ensures randomness == Some(o.randomness)
    {
      Announced(o.randomness, rest2, randomness, c.Rest());
    }
    if randomness.None? {
      return None;
    }
    InThreeParts(PrintU32(len.value), viewBytes.value, randomness.value, c.Rest());
    return Some(OpenedView(view.value, randomness.value));
  }

  /** Reading as many bytes as a byte string has reads that byte string. */
  lemma Announced(a: seq<Byte>, before: seq<Byte>, r: Option<seq<Byte>>, after: seq<Byte>)
    requires Starts(a, before)
    requires r.None? ==> |a| > |before|
    requires r.Some? ==> |r.value| == |a| && before == r.value + after
    ensures r == Some(a) && after == before[|a|..]
  {
    if r.Some? {
      assert before[..|a|] == a && before[..|a|] == r.value;
    }
  }

  method ReadTwoOpened(c: Cursor) returns (r: Option<seq<OpenedView>>)
    requires c.Valid() && ElementsFit()
    modifies c
    ensures c.Valid() && c.pos >= old(c.pos)
    ensures ReadsMany(PrintOpened, OpenedFits, 2, r, old(c.Rest()), c.Rest())
  {
    hide ReadSoFar, ReadsMany, Reads, ElementsFit;
    ghost var start := c.Rest();
    NothingRead(PrintOpened, OpenedFits, 2, start);
    var got: seq<OpenedView> := [];
    for i := 0 to 2
      invariant c.Valid() && c.pos >= old(c.pos) && |got| == i
      invariant ReadSoFar(PrintOpened, OpenedFits, 2, got, start, c.Rest())
    {
      ghost var rest := c.Rest();
      var x := ReadOpened(c);
      ReadOne(PrintOpened, OpenedFits, 2, got, x, start, rest, c.Rest());
      if x.None? {
        return None;
      }
      got := got + [x.value];
    }
    ReadAll(PrintOpened, OpenedFits, 2, got, start, c.Rest());
    return Some(got);
  }

  method ReadOpenings(c: Cursor) returns (r: Option<seq<OpenedView>>)
    requires c.Valid() && ElementsFit()
    modifies c
    ensures c.Valid() && c.pos >= old(c.pos)
    ensures Reads(PrintOpenings, TwoOpenings, r, old(c.Rest()), c.Rest()) && (r.Some? ==> |r.value| == 2)
  {
    hide PrintU32, Starts, PrintAll, PrintOpened, OpenedFits, AllOk, ElementsFit;
    ghost var start := c.Rest();
    var count := c.ReadInteger();
    ghost var rest := c.Rest();
    forall xs: seq<OpenedView> | TwoOpenings(xs) && Starts(PrintOpenings(xs), start)
      ensures count == Some(2) && Starts(PrintAll(PrintOpened, xs), rest)
    {
      Follows<nat>(PrintU32, IdFits, count, 2, PrintAll(PrintOpened, xs), start, rest);
    }
    if count.None? || count.value != 2 {
      return None;
    }
    r := ReadTwoOpened(c);
    if r.Some? {
      InTwoParts(PrintU32(2), PrintAll(PrintOpened, r.value), c.Rest());
    }
  }

  lemma InTwoParts(a: seq<Byte>, b: seq<Byte>, rest: seq<Byte>)
    ensures a + (b + rest) == a + b + rest
  {
  }

  method ReadRepetition(c: Cursor) returns (r: Option<ProofRepetition>)
    requires c.Valid() && ElementsFit()
    modifies c
    ensures c.Valid() && c.pos >= old(c.pos)
    ensures Reads(PrintRepetition, RepetitionFits, r, old(c.Rest()), c.Rest())
  {
    hide PrintAll, PrintU32, Starts, PrintCounted, CountedFits, ElementsFit, ReadsCounted, ReadsMany, PrintParty, PrintOpenings, TwoOpenings, Openings;
    ghost var start := c.Rest();
    var commitments := ReadDigests(c, 3);
    ghost var rest1 := c.Rest();
    forall x: ProofRepetition | RepetitionFits(x) && Starts(PrintRepetition(x), start)
      ensures commitments == Some(x.commitments) && Starts(AfterCommitments(x), rest1)
    {
      AllDigests(x.commitments);
      FollowsMany(PrintDigest, AnyDigest, 3, commitments, x.commitments, AfterCommitments(x), start, rest1);
    }
    if commitments.None? {
      return None;
    }
    var hidden := ReadParty(c);
    ghost var rest2 := c.Rest();
    forall x: ProofRepetition | Starts(AfterCommitments(x), rest1)
      ensures hidden == Some(x.hidden) && Starts(AfterHidden(x), rest2)
    {
      Follows(PrintParty, AnyParty, hidden, x.hidden, AfterHidden(x), rest1, rest2);
    }
    if hidden.None? {
      return None;
    }
    var broadcasts := c.ReadCountedElements();
    ghost var rest3 := c.Rest();
    forall x: ProofRepetition | RepetitionFits(x) && Starts(AfterHidden(x), rest2)
      ensures broadcasts == Some(x.hiddenBroadcasts) && Starts(AfterBroadcasts(x), rest3)
    {
      FollowsCounted(PrintElement, AnyElement, broadcasts, x.hiddenBroadcasts, AfterBroadcasts(x), rest2, rest3);
    }
    if broadcasts.None? {
      return None;
    }
    var shares := c.ReadCountedElements();
    ghost var rest4 := c.Rest();
    forall x: ProofRepetition | RepetitionFits(x) && Starts(AfterBroadcasts(x), rest3)
      ensures shares == Some(x.hiddenOutputShares) && Starts(PrintOpenings(Openings(x)), rest4)
    {
      OpeningsPrinted(x);
      FollowsCounted(PrintElement, AnyElement, shares, x.hiddenOutputShares, PrintOpenings(Openings(x)), rest3, rest4);
    }
    if shares.None? {
      return None;
    }
    var openings := ReadOpenings(c);
    if openings.None? {
      return None;
    }
    r := Some(Assemble(commitments.value, hidden.value, broadcasts.value, shares.value, openings.value));
    forall x: ProofRepetition | RepetitionFits(x) && Openings(x) == openings.value
      ensures x == Assemble(x.commitments, x.hidden, x.hiddenBroadcasts, x.hiddenOutputShares, openings.value)
    {
      Assembled(x);
    }
    ManyRead(PrintDigest, AnyDigest, 3, commitments, start, rest1);
    CountedDone(PrintElement, AnyElement, broadcasts, rest2, rest3);
    CountedDone(PrintElement, AnyElement, shares, rest3, rest4);
    OpeningsOf(r.value, openings.value);
    InFiveParts(PrintAll(PrintDigest, commitments.value), PrintParty(hidden.value), PrintCounted(PrintElement, broadcasts.value),
                PrintCounted(PrintElement, shares.value), PrintOpenings(openings.value), c.Rest());
  }

  function Assemble(commitments: seq<Digest>, hidden: Party, broadcasts: seq<Elem>, shares: seq<Elem>, openings: seq<OpenedView>): ProofRepetition
    requires |openings| == 2
  {
    ProofRepetition(commitments, hidden, [openings[0].view, openings[1].view],
                    [openings[0].randomness, openings[1].randomness], broadcasts, shares)
  }

  lemma Assembled(x: ProofRepetition)
    requires |x.openedViews| == 2 && |x.openingRandomness| == 2
    ensures |Openings(x)| == 2
    ensures x == Assemble(x.commitments, x.hidden, x.hiddenBroadcasts, x.hiddenOutputShares, Openings(x))
  {
  }

  lemma OpeningsOf(x: ProofRepetition, openings: seq<OpenedView>)
    requires |openings| == 2
    requires x.openedViews == [openings[0].view, openings[1].view]
    requires x.openingRandomness == [openings[0].randomness, openings[1].randomness]
    ensures Openings(x) == openings && AfterBroadcasts(x) == PrintCounted(PrintElement, x.hiddenOutputShares) + PrintOpenings(openings)
  {
    hide PrintU32, PrintAll;
    assert Openings(x) == openings;
  }

  lemma OpeningsPrinted(x: ProofRepetition)
    requires RepetitionFits(x)
    ensures AfterBroadcasts(x) == PrintCounted(PrintElement, x.hiddenOutputShares) + PrintOpenings(Openings(x))
  {
    hide PrintU32, PrintAll, CountedFits, TwoOpenings;
  }

  lemma InFiveParts(a: seq<Byte>, b: seq<Byte>, c: seq<Byte>, d: seq<Byte>, e: seq<Byte>, rest: seq<Byte>)
    ensures a + (b + (c + (d + (e + rest)))) == a + (b + (c + (d + e))) + rest
  {
  }

  lemma AllDigests(ds: seq<Digest>)
    ensures AllOk(AnyDigest, ds)
  {
  }

  lemma StatementPrinted(s: Statement)
    ensures PrintStatement(s) == [STATEMENT_VERSION] + (PrintDigest(s.circuitId)
                                 + (PrintCounted(PrintElement, s.publicInputs) + PrintCounted(PrintElement, s.expectedOutputs)))
  {
    hide PrintU32, PrintAll;
    InTwoParts(PrintU32(|s.publicInputs|), PrintAll(PrintElement, s.publicInputs), PrintCounted(PrintElement, s.expectedOutputs));
  }

  lemma CountableFits(s: Statement)
    ensures Countable(s) <==> CountedFits(AnyElement, s.publicInputs) && CountedFits(AnyElement, s.expectedOutputs)
  {
  }

  /** The statement inside a proof; bytes after it are left alone. */
  method DecodeStatement(c: Cursor) returns (r: Result<Statement, ProofError>)
    requires c.Valid() && ElementsFit()
    modifies c
    ensures c.Valid() && c.pos >= old(c.pos)
    ensures Reads(PrintStatement, Countable, r.ToOption(), old(c.Rest()), c.Rest())
    ensures old(c.Rest()) != [] && old(c.Rest())[0] != STATEMENT_VERSION ==> r == Err(InvalidVersion)
  {
    hide PrintStatement, Countable, PrintU32, Starts, PrintCounted, CountedFits, ElementsFit, ReadsCounted, PrintDigest;
    ghost var start := c.Rest();
    ghost var tail := (s: Statement) => PrintDigest(s.circuitId) + (PrintCounted(PrintElement, s.publicInputs) + PrintCounted(PrintElement, s.expectedOutputs));
    ghost var outs := (s: Statement) => PrintCounted(PrintElement, s.publicInputs) + PrintCounted(PrintElement, s.expectedOutputs);
    var version := c.ReadBytes(1);
    ghost var rest1 := c.Rest();
    forall s: Statement | Starts(PrintStatement(s), start)
      ensures version == Some([STATEMENT_VERSION]) && Starts(tail(s), rest1)
    {
      StatementPrinted(s);
      StartsSplit([STATEMENT_VERSION], tail(s), start);
      Announced([STATEMENT_VERSION], start, version, rest1);
    }
    if version.None? {
      return Err(MalformedEncoding);
    }
    if version.value[0] != STATEMENT_VERSION {
      return Err(InvalidVersion);
    }
    assert version.value == [STATEMENT_VERSION];
    var id := ReadDigest(c);
    ghost var rest2 := c.Rest();
    forall s: Statement | Starts(tail(s), rest1)
      ensures id == Some(s.circuitId) && Starts(outs(s), rest2)
    {
      Follows(PrintDigest, AnyDigest, id, s.circuitId, outs(s), rest1, rest2);
    }
    if id.None? {
      return Err(MalformedEncoding);
    }
    var publics := c.ReadCountedElements();
    ghost var rest3 := c.Rest();
    forall s: Statement | Countable(s) && Starts(outs(s), rest2)
      ensures publics == Some(s.publicInputs) && Starts(PrintCounted(PrintElement, s.expectedOutputs), rest3)
    {
      CountableFits(s);
      FollowsCounted(PrintElement, AnyElement, publics, s.publicInputs, PrintCounted(PrintElement, s.expectedOutputs), rest2, rest3);
    }
    if publics.None? {
      return Err(MalformedEncoding);
    }
    var outputs := c.ReadCountedElements();
    forall s: Statement | Countable(s) && Starts(PrintCounted(PrintElement, s.expectedOutputs), rest3)
      ensures outputs == Some(s.expectedOutputs)
    {
      CountableFits(s);
      NothingAfter(PrintCounted(PrintElement, s.expectedOutputs));
      FollowsCounted(PrintElement, AnyElement, outputs, s.expectedOutputs, [], rest3, c.Rest());
    }
    if outputs.None? {
      return Err(MalformedEncoding);
    }
    var s := Statement(id.value, publics.value, outputs.value);
    CountedDone(PrintElement, AnyElement, publics, rest2, rest3);
    CountedDone(PrintElement, AnyElement, outputs, rest3, c.Rest());
    CountableFits(s);
    StatementPrinted(s);
    InFourParts([STATEMENT_VERSION], PrintDigest(id.value), PrintCounted(PrintElement, publics.value), PrintCounted(PrintElement, outputs.value), c.Rest());
    return Ok(s);
  }

  method ReadRepetitions(c: Cursor, n: nat) returns (r: Option<seq<ProofRepetition>>)
    requires c.Valid() && ElementsFit()
    modifies c
    ensures c.Valid() && c.pos >= old(c.pos)
    ensures ReadsMany(PrintRepetition, RepetitionFits, n, r, old(c.Rest()), c.Rest())
  {
    hide ReadSoFar, ReadsMany, Reads, ElementsFit;
    ghost var start := c.Rest();
    NothingRead(PrintRepetition, RepetitionFits, n, start);
    var got: seq<ProofRepetition> := [];
    for i := 0 to n
      invariant c.Valid() && c.pos >= old(c.pos) && |got| == i
      invariant ReadSoFar(PrintRepetition, RepetitionFits, n, got, start, c.Rest())
    {
      ghost var rest := c.Rest();
      var x := ReadRepetition(c);
      ReadOne(PrintRepetition, RepetitionFits, n, got, x, start, rest, c.Rest());
      if x.None? {
        return None;
      }
      got := got + [x.value];
    }
    ReadAll(PrintRepetition, RepetitionFits, n, got, start, c.Rest());
    return Some(got);
  }

  /** Where the three fields of the header sit. */
  lemma HeaderFields(a: Byte, b: Byte, id: seq<Byte>, rest: seq<Byte>)
    requires |id| == 16
    ensures var s := [a] + ([b] + (id + rest));
            |s| >= 18 && s[0] == a && s[1] == b && s[2..18] == id && s[18..] == rest
  {
    var s := [a] + ([b] + (id + rest));
    assert s == [a] + [b] + id + rest;
    assert s[..18] == [a] + [b] + id;
    assert s[2..18] == s[..18][2..];
  }

  lemma HeaderOfProof(p: NonInteractiveProof, s: seq<Byte>)
    requires WellFormed(p) && s == PrintProof(p)
    ensures |s| >= 18 && s[0] == PROTOCOL_VERSION && s[1] == PROTOCOL_ID && s[2..18] == p.backendId && s[18..] == AfterBackend(p)
  {
    hide AfterBackend, Countable, CountedFits;
    HeaderFields(p.version, p.protocolId, p.backendId, AfterBackend(p));
  }

  /** The version, the protocol and a supported backend. */
  method ReadHeader(c: Cursor) returns (r: Result<BackendId, ProofError>)
    requires c.Valid()
    modifies c
    ensures c.Valid() && c.pos >= old(c.pos)
    ensures var s := old(c.Rest());
            && (r.Ok? ==> Supported(r.value) && s == [PROTOCOL_VERSION] + ([PROTOCOL_ID] + (r.value + c.Rest())))
            && (|s| >= 1 && s[0] != PROTOCOL_VERSION ==> r == Err(InvalidVersion))
            && (|s| >= 2 && s[0] == PROTOCOL_VERSION && s[1] != PROTOCOL_ID ==> r == Err(InvalidVersion))
            && (|s| >= 18 && s[0] == PROTOCOL_VERSION && s[1] == PROTOCOL_ID ==>
                  if Supported(s[2..18]) then r == Ok(s[2..18]) && c.Rest() == s[18..] else r == Err(UnsupportedBackend))
  {
    ghost var start := c.Rest();
    var version := c.ReadBytes(1);
    if version.None? {
      return Err(MalformedEncoding);
    }
    ghost var rest1 := c.Rest();
    assert start == [start[0]] + rest1 && version.value[0] == start[0];
    if version.value[0] != PROTOCOL_VERSION {
      return Err(InvalidVersion);
    }
    var protocol := c.ReadBytes(1);
    if protocol.None? {
      return Err(MalformedEncoding);
    }
    ghost var rest2 := c.Rest();
    assert rest1 == [rest1[0]] + rest2 && rest1[0] == start[1] && protocol.value[0] == start[1];
    if protocol.value[0] != PROTOCOL_ID {
      return Err(InvalidVersion);
    }
    var backend := c.ReadBytes(16);
    if backend.None? {
      return Err(MalformedEncoding);
    }
    HeaderFields(start[0], start[1], backend.value, c.Rest());
    if !Supported(backend.value) {
      return Err(UnsupportedBackend);
    }
    return Ok(backend.value);
  }

  /** The repetitions, to the last byte. */
  method DecodeRepetitions(c: Cursor) returns (r: Result<seq<ProofRepetition>, ProofError>)
    requires c.Valid() && ElementsFit()
    modifies c
    ensures r.Ok? ==> CountedFits(RepetitionFits, r.value) && |r.value| <= MAX_PROOF_REPETITIONS
    ensures r.Ok? ==> old(c.Rest()) == PrintCounted(PrintRepetition, r.value)
    ensures forall reps: seq<ProofRepetition> :: CountedFits(RepetitionFits, reps) && old(c.Rest()) == PrintCounted(PrintRepetition, reps)
              ==> r == if |reps| <= MAX_PROOF_REPETITIONS then Ok(reps) else Err(ExcessiveRepetitions)
  {
    hide PrintU32, PrintAll, Starts, AllOk, PrintRepetition, RepetitionFits, ReadsMany, ElementsFit;
    ghost var start := c.Rest();
    var count := c.ReadInteger();
    ghost var rest := c.Rest();
    forall reps: seq<ProofRepetition> | CountedFits(RepetitionFits, reps) && start == PrintCounted(PrintRepetition, reps)
      ensures count == Some(|reps|) && rest == PrintAll(PrintRepetition, reps)
    {
      StartsWhole(start);
      Follows<nat>(PrintU32, IdFits, count, |reps|, PrintAll(PrintRepetition, reps), start, rest);
    }
    if count.None? {
      return Err(MalformedEncoding);
    }
    if count.value > MAX_PROOF_REPETITIONS {
      return Err(ExcessiveRepetitions);
    }
    var reps := ReadRepetitions(c, count.value);
    forall other: seq<ProofRepetition> | |other| == count.value && AllOk(RepetitionFits, other) && rest == PrintAll(PrintRepetition, other)
      ensures reps == Some(other) && c.Rest() == []
    {
      WholeList(count.value, reps, other, rest, c.Rest());
    }
    if reps.None? || c.pos != |c.bytes| {
      return Err(MalformedEncoding);
    }
    ManyRead(PrintRepetition, RepetitionFits, count.value, reps, rest, c.Rest());
    NothingAfter(PrintAll(PrintRepetition, reps.value));
    return Ok(reps.value);
  }

  /** Everything after the backend id, to the last byte. */
  method DecodeBody(c: Cursor) returns (r: Result<(Statement, seq<ProofRepetition>), ProofError>)
    requires c.Valid() && ElementsFit()
    modifies c
    ensures r.Ok? ==> Countable(r.value.0) && CountedFits(RepetitionFits, r.value.1) && |r.value.1| <= MAX_PROOF_REPETITIONS
    ensures r.Ok? ==> old(c.Rest()) == PrintStatement(r.value.0) + PrintCounted(PrintRepetition, r.value.1)
    ensures forall s: Statement, reps: seq<ProofRepetition> ::
              Countable(s) && CountedFits(RepetitionFits, reps)
              && old(c.Rest()) == PrintStatement(s) + PrintCounted(PrintRepetition, reps)
              ==> r == if |reps| <= MAX_PROOF_REPETITIONS then Ok((s, reps)) else Err(ExcessiveRepetitions)
  {
    hide PrintStatement, PrintCounted, Countable, Starts, CountedFits, ElementsFit;
    ghost var start := c.Rest();
    var statement := DecodeStatement(c);
    ghost var rest := c.Rest();
    forall s: Statement, reps: seq<ProofRepetition> | Countable(s) && start == PrintStatement(s) + PrintCounted(PrintRepetition, reps)
      ensures statement == Ok(s) && rest == PrintCounted(PrintRepetition, reps)
    {
      StartsWhole(start);
      Follows(PrintStatement, Countable, statement.ToOption(), s, PrintCounted(PrintRepetition, reps), start, rest);
    }
    if statement.Err? {
      return Err(statement.error);
    }
    var reps := DecodeRepetitions(c);
    if reps.Err? {
      return Err(reps.error);
    }
    return Ok((statement.value, reps.value));
  }

  lemma WholeList(n: nat, r: Option<seq<ProofRepetition>>, xs: seq<ProofRepetition>, before: seq<Byte>, after: seq<Byte>)
    requires ReadsMany(PrintRepetition, RepetitionFits, n, r, before, after)
    requires |xs| == n && AllOk(RepetitionFits, xs) && before == PrintAll(PrintRepetition, xs)
    ensures r == Some(xs) && after == []
  {
    hide PrintAll, AllOk;
    StartsWhole(before);
  }

  /** Parsing and printing are inverse both ways: what is accepted is the print of what is returned,
      and the print of every well-formed proof within the limit is accepted and gives the proof back. */
  method DeserializeProof(bytes: seq<Byte>) returns (r: Result<NonInteractiveProof, ProofError>)
    requires ElementsFit()
    ensures r.Ok? ==> WellFormed(r.value) && |r.value.repetitions| <= 10_000 && bytes == PrintProof(r.value)
    ensures forall p: NonInteractiveProof :: WellFormed(p) && bytes == PrintProof(p) ==>
              r == if |p.repetitions| <= 10_000 then Ok(p) else Err(ExcessiveRepetitions)
    ensures |bytes| >= 2 && (bytes[0] != PROTOCOL_VERSION || bytes[1] != PROTOCOL_ID) ==> r == Err(InvalidVersion)
    ensures |bytes| >= 18 && bytes[0] == PROTOCOL_VERSION && bytes[1] == PROTOCOL_ID && !Supported(bytes[2..18]) ==> r == Err(UnsupportedBackend)
  {
    hide PrintStatement, PrintCounted, CountedFits, Countable, ElementsFit, Supported, PrintProof;
    var c := new Cursor(bytes);
    assert c.Rest() == bytes;
    var backend := ReadHeader(c);
    ghost var rest := c.Rest();
    forall p: NonInteractiveProof | WellFormed(p) && bytes == PrintProof(p)
      ensures backend == Ok(p.backendId) && rest == AfterBackend(p)
    {
      HeaderOfProof(p, bytes);
    }
    if backend.Err? {
      return Err(backend.error);
    }
    var body := DecodeBody(c);
    forall p: NonInteractiveProof | WellFormed(p) && bytes == PrintProof(p)
      ensures body == if |p.repetitions| <= MAX_PROOF_REPETITIONS then Ok((p.statement, p.repetitions)) else Err(ExcessiveRepetitions)
    {
      assert rest == AfterBackend(p) == PrintStatement(p.statement) + PrintCounted(PrintRepetition, p.repetitions);
    }
    if body.Err? {
      return Err(body.error);
    }
    var p := NonInteractiveProof(PROTOCOL_VERSION, PROTOCOL_ID, backend.value, body.value.0, body.value.1);
    assert rest == AfterBackend(p);
    hide AfterBackend;
    ProofPrinted(p);
    return Ok(p);
  }

  lemma ProofPrinted(p: NonInteractiveProof)
    ensures PrintProof(p) == [p.version] + ([p.protocolId] + (p.backendId + AfterBackend(p)))
  {
    hide AfterBackend;
  }
}
