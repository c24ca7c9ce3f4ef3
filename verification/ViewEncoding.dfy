/** The canonical byte encoding of party views. */
module ViewEncoding {
  import opened Wrappers
  import opened PrimeField
  import opened BigEndian
  import opened Codec
  import opened Mpcith

  function OperationTag(op: LocalOperation): (tag: Byte)
    ensures tag < 3
  {
    match op
    case AddOp(_, _) => 0
    case MulPublicOp(_, _, _) => 1
    case BeaverOp(_, _, _, _, _) => 2
  }

  function Integers(op: LocalOperation): seq<nat> {
    if op.BeaverOp? then [op.output, op.tripleIndex] else [op.output]
  }

  function Elements(op: LocalOperation): seq<Elem> {
    match op
    case AddOp(_, share) => [share]
    case MulPublicOp(_, scalar, share) => [scalar, share]
    case BeaverOp(_, _, d, e, share) => [d, e, share]
  }

  function IntegerCount(tag: Byte): nat {
    if tag == 2 then 2 else 1
  }

  /** The operation with this tag and these fields. */
  function OperationOf(tag: Byte, ints: seq<nat>, elems: seq<Elem>): LocalOperation
    requires tag < 3 && |ints| == IntegerCount(tag) && |elems| == tag + 1
  {
    match tag
    case 0 => AddOp(ints[0], elems[0])
    case 1 => MulPublicOp(ints[0], elems[0], elems[1])
    case _ => BeaverOp(ints[0], ints[1], elems[0], elems[1], elems[2])
  }

  lemma OperationFields(op: LocalOperation)
    ensures |Integers(op)| == IntegerCount(OperationTag(op)) && |Elements(op)| == OperationTag(op) + 1
    ensures OperationOf(OperationTag(op), Integers(op), Elements(op)) == op
  {
  }

  lemma FieldsOfOperation(tag: Byte, ints: seq<nat>, elems: seq<Elem>)
    requires tag < 3 && |ints| == IntegerCount(tag) && |elems| == tag + 1
    ensures var op := OperationOf(tag, ints, elems);
            OperationTag(op) == tag && Integers(op) == ints && Elements(op) == elems
  {
  }

  /** The tag, the node id (and the triple's index), then the elements. */
  function PrintOperation(op: LocalOperation): seq<Byte> {
    [OperationTag(op)] + (PrintAll(PrintU32, Integers(op)) + PrintAll(PrintElement, Elements(op)))
  }

  predicate OperationFits(op: LocalOperation) {
    AllOk(IdFits, Integers(op))
  }

  function TripleElements(t: TripleShare): seq<Elem> {
    [t.a, t.b, t.c]
  }

  function PrintTriple(t: TripleShare): seq<Byte> {
    PrintAll(PrintElement, TripleElements(t))
  }

  predicate AnyTriple(t: TripleShare) {
    true
  }

  function PrintView(v: PartyView): seq<Byte> {
    PrintU32(v.repetitionId) + AfterId(v)
  }

  function AfterId(v: PartyView): seq<Byte> {
    [v.partyId] + AfterParty(v)
  }

  function AfterParty(v: PartyView): seq<Byte> {
    PrintCounted(PrintElement, v.inputShares) + PrintRecords(RecordsOf(v))
  }

  /** What a party recorded: its operations, its triple shares and its openings. */
  type Records = (seq<LocalOperation>, seq<TripleShare>, seq<Elem>)

  function RecordsOf(v: PartyView): Records {
    (v.localOperations, v.tripleShares, v.openedValues)
  }

  function PrintRecords(x: Records): seq<Byte> {
    PrintCounted(PrintOperation, x.0) + AfterOperations(x)
  }

  function AfterOperations(x: Records): seq<Byte> {
    PrintCounted(PrintTriple, x.1) + PrintCounted(PrintElement, x.2)
  }

  predicate RecordsFit(x: Records) {
    CountedFits(OperationFits, x.0) && CountedFits(AnyTriple, x.1) && CountedFits(AnyElement, x.2)
  }

  /** What the format can hold: counts, ids and indices of 32 bits. */
  predicate ViewFits(v: PartyView) {
    && v.repetitionId < TWO_32 && CountedFits(AnyElement, v.inputShares) && RecordsFit(RecordsOf(v))
  }

  // ---- printing ----------------------------------------------------------------------------------------

  lemma PrintsOfFew<T>(show: T -> seq<Byte>, x: T, y: T, z: T)
    ensures PrintAll(show, [x]) == show(x)
    ensures PrintAll(show, [x, y]) == show(x) + show(y)
    ensures PrintAll(show, [x, y, z]) == show(x) + show(y) + show(z)
  {
    assert [x][..0] == [] && [x, y][..1] == [x] && [x, y, z][..2] == [x, y];
  }

  method AppendOperation(out: seq<Byte>, op: LocalOperation) returns (out': seq<Byte>)
    ensures out' == out + PrintOperation(op)
  {
    hide PrintU32, PrintElement, PrintAll;
    out' := out + [OperationTag(op)];
    out' := out' + PrintU32(op.output);
    match op {
      case AddOp(output, share) =>
        PrintsOfFew(PrintU32, output, output, output);
        PrintsOfFew(PrintElement, share, share, share);
        out' := out' + PrintElement(share);
      case MulPublicOp(output, scalar, share) =>
        PrintsOfFew(PrintU32, output, output, output);
        PrintsOfFew(PrintElement, scalar, share, share);
        out' := out' + PrintElement(scalar);
        out' := out' + PrintElement(share);
      case BeaverOp(output, tripleIndex, d, e, share) =>
        PrintsOfFew(PrintU32, output, tripleIndex, output);
        PrintsOfFew(PrintElement, d, e, share);
        out' := out' + PrintU32(tripleIndex);
        out' := out' + PrintElement(d);
        out' := out' + PrintElement(e);
        out' := out' + PrintElement(share);
    }
  }

  method EncodeView(view: PartyView, out: seq<Byte>) returns (out': seq<Byte>)
    ensures out' == out + PrintView(view)
  {
    hide PrintU32, PrintAll, PrintElement, PrintOperation, PrintTriple;
    out' := out + PrintU32(view.repetitionId);
    out' := out' + [view.partyId];
    out' := out' + PrintU32(|view.inputShares|);
    out' := AppendElements(out', view.inputShares);
    out' := AppendOperations(out', view.localOperations);
    out' := AppendTriples(out', view.tripleShares);
    out' := out' + PrintU32(|view.openedValues|);
    out' := AppendElements(out', view.openedValues);
  }

  method AppendOperations(out: seq<Byte>, ops: seq<LocalOperation>) returns (out': seq<Byte>)
    ensures out' == out + PrintCounted(PrintOperation, ops)
  {
    hide PrintU32, PrintOperation;
    out' := out + PrintU32(|ops|);
    for i := 0 to |ops|
      invariant out' == out + PrintU32(|ops|) + PrintAll(PrintOperation, ops[..i])
    {
      out' := AppendOperation(out', ops[i]);
      assert ops[..i + 1][..i] == ops[..i];
    }
    assert ops[..|ops|] == ops;
  }

  method AppendTriples(out: seq<Byte>, triples: seq<TripleShare>) returns (out': seq<Byte>)
    ensures out' == out + PrintCounted(PrintTriple, triples)
  {
    hide PrintU32, TripleElements;
    out' := out + PrintU32(|triples|);
    for i := 0 to |triples|
      invariant out' == out + PrintU32(|triples|) + PrintAll(PrintTriple, triples[..i])
    {
      out' := AppendElements(out', TripleElements(triples[i]));
      assert triples[..i + 1][..i] == triples[..i];
    }
    assert triples[..|triples|] == triples;
  }

  // ---- parsing -----------------------------------------------------------------------------------------

  method ReadOperation(c: Cursor) returns (r: Option<LocalOperation>)
    requires c.Valid() && ElementsFit()
    modifies c
    ensures c.Valid() && c.pos >= old(c.pos)
    ensures Reads(PrintOperation, OperationFits, r, old(c.Rest()), c.Rest())
  {
    hide PrintU32, PrintElement, PrintAll, Starts, ReadsMany, ElementsFit, AllOk, OperationTag, Integers, Elements, OperationOf;
    ghost var start := c.Rest();
    var tag := c.ReadBytes(1);
    if tag.None? || tag.value[0] > 2 {
      forall op: LocalOperation | Starts(PrintOperation(op), start)
        ensures false
      {
        StartsSplit([OperationTag(op)], PrintAll(PrintU32, Integers(op)) + PrintAll(PrintElement, Elements(op)), start);
        OneByte(OperationTag(op), start);
      }
      return None;
    }
    var t := tag.value[0];
    ghost var fields := c.Rest();
    forall op: LocalOperation | Starts(PrintOperation(op), start)
      ensures OperationTag(op) == t && Starts(PrintAll(PrintU32, Integers(op)) + PrintAll(PrintElement, Elements(op)), fields)
    {
      StartsSplit([OperationTag(op)], PrintAll(PrintU32, Integers(op)) + PrintAll(PrintElement, Elements(op)), start);
      OneByte(OperationTag(op), start);
    }
    var ints := c.ReadIntegers(IntegerCount(t));
    ghost var rest := c.Rest();
    forall op: LocalOperation | OperationFits(op) && Starts(PrintOperation(op), start)
      ensures ints == Some(Integers(op)) && Starts(PrintAll(PrintElement, Elements(op)), rest)
    {
      OperationFields(op);
      FollowsMany<nat>(PrintU32, IdFits, IntegerCount(t), ints, Integers(op), PrintAll(PrintElement, Elements(op)), fields, rest);
    }
    if ints.None? {
      return None;
    }
    var elems := c.ReadElements(t + 1);
    forall op: LocalOperation | OperationFits(op) && Starts(PrintOperation(op), start)
      ensures elems == Some(Elements(op))
    {
      OperationFields(op);
      AllElements(Elements(op));
      NothingAfter(PrintAll(PrintElement, Elements(op)));
      FollowsMany(PrintElement, AnyElement, t + 1, elems, Elements(op), [], rest, c.Rest());
    }
    if elems.None? {
      return None;
    }
    ManyRead<nat>(PrintU32, IdFits, IntegerCount(t), ints, fields, rest);
    ManyRead(PrintElement, AnyElement, t + 1, elems, rest, c.Rest());
    r := Some(OperationOf(t, ints.value, elems.value));
    FieldsOfOperation(t, ints.value, elems.value);
    InThreeParts([t], PrintAll(PrintU32, ints.value), PrintAll(PrintElement, elems.value), c.Rest());
    forall op: LocalOperation | OperationFits(op) && Starts(PrintOperation(op), start)
      ensures r == Some(op)
    {
      OperationFields(op);
    }
  }

  method ReadOperations(c: Cursor, n: nat) returns (r: Option<seq<LocalOperation>>)
    requires c.Valid() && ElementsFit()
    modifies c
    ensures c.Valid() && c.pos >= old(c.pos)
    ensures ReadsMany(PrintOperation, OperationFits, n, r, old(c.Rest()), c.Rest())
  {
    hide ReadSoFar, ReadsMany, Reads, ElementsFit;
    ghost var start := c.Rest();
    var got: seq<LocalOperation> := [];
    NothingRead(PrintOperation, OperationFits, n, start);
    for i := 0 to n
      invariant c.Valid() && c.pos >= old(c.pos) && |got| == i
      invariant ReadSoFar(PrintOperation, OperationFits, n, got, start, c.Rest())
    {
      ghost var rest := c.Rest();
      var op := ReadOperation(c);
      ReadOne(PrintOperation, OperationFits, n, got, op, start, rest, c.Rest());
      if op.None? {
        return None;
      }
      got := got + [op.value];
    }
    ReadAll(PrintOperation, OperationFits, n, got, start, c.Rest());
    return Some(got);
  }

  method ReadTriple(c: Cursor) returns (r: Option<TripleShare>)
    requires c.Valid() && ElementsFit()
    modifies c
    ensures c.Valid() && c.pos >= old(c.pos)
    ensures Reads(PrintTriple, AnyTriple, r, old(c.Rest()), c.Rest())
  {
    hide ReadsMany, Starts, PrintAll, ElementsFit;
    ghost var before := c.Rest();
    var elems := c.ReadElements(3);
    forall t: TripleShare | Starts(PrintTriple(t), before)
      ensures elems == Some(TripleElements(t))
    {
      AllElements(TripleElements(t));
      NothingAfter(PrintTriple(t));
      FollowsMany(PrintElement, AnyElement, 3, elems, TripleElements(t), [], before, c.Rest());
    }
    if elems.None? {
      return None;
    }
    ManyRead(PrintElement, AnyElement, 3, elems, before, c.Rest());
    r := Some(TripleShare(elems.value[0], elems.value[1], elems.value[2]));
    assert TripleElements(r.value) == elems.value;
  }

  method ReadTriples(c: Cursor, n: nat) returns (r: Option<seq<TripleShare>>)
    requires c.Valid() && ElementsFit()
    modifies c
    ensures c.Valid() && c.pos >= old(c.pos)
    ensures ReadsMany(PrintTriple, AnyTriple, n, r, old(c.Rest()), c.Rest())
  {
    hide ReadSoFar, ReadsMany, Reads, ElementsFit;
    ghost var start := c.Rest();
    var got: seq<TripleShare> := [];
    NothingRead(PrintTriple, AnyTriple, n, start);
    for i := 0 to n
      invariant c.Valid() && c.pos >= old(c.pos) && |got| == i
      invariant ReadSoFar(PrintTriple, AnyTriple, n, got, start, c.Rest())
    {
      ghost var rest := c.Rest();
      var t := ReadTriple(c);
      ReadOne(PrintTriple, AnyTriple, n, got, t, start, rest, c.Rest());
      if t.None? {
        return None;
      }
      got := got + [t.value];
    }
    ReadAll(PrintTriple, AnyTriple, n, got, start, c.Rest());
    return Some(got);
  }

  method ReadCountedOperations(c: Cursor) returns (r: Option<seq<LocalOperation>>)
    requires c.Valid() && ElementsFit()
    modifies c
    ensures c.Valid() && c.pos >= old(c.pos)
    ensures ReadsCounted(PrintOperation, OperationFits, r, old(c.Rest()), c.Rest())
  {
    hide ReadsMany, Reads, ReadsCounted, ElementsFit;
    ghost var before := c.Rest();
    var count := c.ReadInteger();
    ghost var middle := c.Rest();
    r := None;
    if count.Some? {
      r := ReadOperations(c, count.value);
    }
    CountedRead(PrintOperation, OperationFits, count, r, before, middle, c.Rest());
  }

  method ReadCountedTriples(c: Cursor) returns (r: Option<seq<TripleShare>>)
    requires c.Valid() && ElementsFit()
    modifies c
    ensures c.Valid() && c.pos >= old(c.pos)
    ensures ReadsCounted(PrintTriple, AnyTriple, r, old(c.Rest()), c.Rest())
  {
    hide ReadsMany, Reads, ReadsCounted, ElementsFit;
    ghost var before := c.Rest();
    var count := c.ReadInteger();
    ghost var middle := c.Rest();
    r := None;
    if count.Some? {
      r := ReadTriples(c, count.value);
    }
    CountedRead(PrintTriple, AnyTriple, count, r, before, middle, c.Rest());
  }

  function PrintParty(p: Party): (bs: seq<Byte>)
    ensures |bs| == 1
  {
    [p]
  }

  predicate AnyParty(p: Party) {
    true
  }

  /** One byte below three. */
  method ReadParty(c: Cursor) returns (r: Option<Party>)
    requires c.Valid()
    modifies c
    ensures c.Valid() && c.pos >= old(c.pos)
    ensures Reads(PrintParty, AnyParty, r, old(c.Rest()), c.Rest())
  {
    ghost var before := c.Rest();
    var raw := c.ReadBytes(1);
    r := if raw.Some? && raw.value[0] < 3 then Some(raw.value[0]) else None;
    forall p: Party | Starts(PrintParty(p), before)
      ensures r == Some(p)
    {
      OneByte(p, before);
    }
  }

  method ReadRecords(c: Cursor) returns (r: Option<Records>)
    requires c.Valid() && ElementsFit()
    modifies c
    ensures c.Valid() && c.pos >= old(c.pos)
    ensures Reads(PrintRecords, RecordsFit, r, old(c.Rest()), c.Rest())
  {
    hide Starts, PrintCounted, CountedFits, ElementsFit, ReadsCounted;
    ghost var start := c.Rest();
    var ops := ReadCountedOperations(c);
    ghost var rest1 := c.Rest();
    forall x: Records | RecordsFit(x) && Starts(PrintRecords(x), start)
      ensures ops == Some(x.0) && Starts(AfterOperations(x), rest1)
    {
      FollowsCounted(PrintOperation, OperationFits, ops, x.0, AfterOperations(x), start, rest1);
    }
    if ops.None? {
      return None;
    }
    var triples := ReadCountedTriples(c);
    ghost var rest2 := c.Rest();
    forall x: Records | RecordsFit(x) && Starts(AfterOperations(x), rest1)
      ensures triples == Some(x.1) && Starts(PrintCounted(PrintElement, x.2), rest2)
    {
      FollowsCounted(PrintTriple, AnyTriple, triples, x.1, PrintCounted(PrintElement, x.2), rest1, rest2);
    }
    if triples.None? {
      return None;
    }
    var openings := c.ReadCountedElements();
    forall x: Records | RecordsFit(x) && Starts(PrintCounted(PrintElement, x.2), rest2)
      ensures openings == Some(x.2)
    {
      NothingAfter(PrintCounted(PrintElement, x.2));
      FollowsCounted(PrintElement, AnyElement, openings, x.2, [], rest2, c.Rest());
    }
    if openings.None? {
      return None;
    }
    r := Some((ops.value, triples.value, openings.value));
    CountedDone(PrintOperation, OperationFits, ops, start, rest1);
    CountedDone(PrintTriple, AnyTriple, triples, rest1, rest2);
    CountedDone(PrintElement, AnyElement, openings, rest2, c.Rest());
    InThreeParts(PrintCounted(PrintOperation, ops.value), PrintCounted(PrintTriple, triples.value),
                 PrintCounted(PrintElement, openings.value), c.Rest());
  }

  lemma InThreeParts(a: seq<Byte>, b: seq<Byte>, c: seq<Byte>, rest: seq<Byte>)
    ensures a + (b + (c + rest)) == a + (b + c) + rest
  {
  }

  lemma InFourParts(a: seq<Byte>, b: seq<Byte>, c: seq<Byte>, d: seq<Byte>, rest: seq<Byte>)
    ensures a + (b + (c + (d + rest))) == a + (b + (c + d)) + rest
  {
  }

  /** Reads exactly a view's encoding, or no view's encoding starts here. */
  method DecodeView(c: Cursor) returns (r: Option<PartyView>)
    requires c.Valid() && ElementsFit()
    modifies c
    ensures c.Valid() && c.pos >= old(c.pos)
    ensures Reads(PrintView, ViewFits, r, old(c.Rest()), c.Rest())
  {
    hide PrintU32, Starts, PrintCounted, CountedFits, ElementsFit, ReadsCounted, PrintParty, PrintRecords, RecordsFit;
    ghost var start := c.Rest();
    var id := c.ReadInteger();
    ghost var rest1 := c.Rest();
    forall v: PartyView | ViewFits(v) && Starts(PrintView(v), start)
      ensures id == Some(v.repetitionId) && Starts(AfterId(v), rest1)
    {
      Follows<nat>(PrintU32, IdFits, id, v.repetitionId, AfterId(v), start, rest1);
    }
    if id.None? {
      return None;
    }
    var party := ReadParty(c);
    ghost var rest2 := c.Rest();
    forall v: PartyView | Starts(AfterId(v), rest1)
      ensures party == Some(v.partyId) && Starts(AfterParty(v), rest2)
    {
      PartyPrinted(v);
      Follows(PrintParty, AnyParty, party, v.partyId, AfterParty(v), rest1, rest2);
    }
    if party.None? {
      return None;
    }
    var shares := c.ReadCountedElements();
    ghost var rest3 := c.Rest();
    forall v: PartyView | ViewFits(v) && Starts(AfterParty(v), rest2)
      ensures shares == Some(v.inputShares) && Starts(PrintRecords(RecordsOf(v)), rest3)
    {
      FollowsCounted(PrintElement, AnyElement, shares, v.inputShares, PrintRecords(RecordsOf(v)), rest2, rest3);
    }
    if shares.None? {
      return None;
    }
    var records := ReadRecords(c);
    forall v: PartyView | ViewFits(v) && Starts(PrintRecords(RecordsOf(v)), rest3)
      ensures records == Some(RecordsOf(v))
    {
    }
    if records.None? {
      return None;
    }
    var (ops, triples, openings) := records.value;
    r := Some(PartyView(id.value, party.value, shares.value, ops, triples, openings));
    CountedDone(PrintElement, AnyElement, shares, rest2, rest3);
    PartyPrinted(r.value);
    InFourParts(PrintU32(id.value), PrintParty(party.value), PrintCounted(PrintElement, shares.value), PrintRecords(records.value), c.Rest());
  }

  lemma PartyPrinted(v: PartyView)
    ensures AfterId(v) == PrintParty(v.partyId) + AfterParty(v)
  {
  }
}
