/** The canonical byte encoding of policies: self-delimiting nodes behind a version byte. */
module PolicyEncoding {
  import opened Wrappers
  import opened PrimeField
  import opened BigEndian
  import opened Codec
  import opened Policies

  const ENCODING_VERSION: Byte := 1

  function Tag(p: Policy): Byte {
    match p
    case AmountAtMost(_) => 1
    case Credential(_) => 2
    case Threshold(_, _) => 3
    case And(_) => 4
    case Or(_) => 5
  }

  /** Everything of a node up to its members. */
  function Header(p: Policy): seq<Byte> {
    match p
    case AmountAtMost(limit) => [Tag(p)] + ToBytes(limit, 8)
    case Credential(id) => [Tag(p)] + id
    case Threshold(k, ms) => [Tag(p)] + ToBytes(k, 2) + PrintU32(|ms|)
    case And(ms) => [Tag(p)] + PrintU32(|ms|)
    case Or(ms) => [Tag(p)] + PrintU32(|ms|)
  }

  function HeaderLen(tag: Byte): nat {
    match tag
    case 1 => 9
    case 2 => 33
    case 3 => 7
    case _ => 5
  }

  function EncodeNode(p: Policy): seq<Byte>
    decreases p, 1
  {
    if p.IsLeaf() then Header(p) else Header(p) + EncodeAll(p.members)
  }

  function EncodeAll(ms: seq<Policy>): seq<Byte>
    decreases ms, 0
  {
    if ms == [] then [] else EncodeAll(ms[..|ms| - 1]) + EncodeNode(ms[|ms| - 1])
  }

  function Encode(p: Policy): seq<Byte> {
    [ENCODING_VERSION] + EncodeNode(p)
  }

  /** No member list is longer than its count field can say. */
  predicate Encodable(p: Policy)
    decreases p
  {
    p.IsLeaf() || (|p.members| < TWO_32 && forall i :: 0 <= i < |p.members| ==> Encodable(p.members[i]))
  }

  predicate AllEncodable(ms: seq<Policy>) {
    forall i :: 0 <= i < |ms| ==> Encodable(ms[i])
  }

  // ---- printing ----------------------------------------------------------------------------------------

  method EncodeHeader(p: Policy, out: seq<Byte>) returns (out': seq<Byte>)
    ensures out' == out + Header(p)
  {
    match p {
      case AmountAtMost(limit) =>
        out' := out + [1];
        out' := out' + ToBytes(limit, 8);
      case Credential(id) =>
        out' := out + [2];
        out' := out' + id;
      case Threshold(k, ms) =>
        out' := out + [3];
        out' := out' + ToBytes(k, 2);
        out' := out' + PrintU32(|ms|);
      case And(ms) =>
        out' := out + [4];
        out' := out' + PrintU32(|ms|);
      case Or(ms) =>
        out' := out + [5];
        out' := out' + PrintU32(|ms|);
    }
  }

  lemma AllUpTo(ms: seq<Policy>, i: nat)
    requires i < |ms|
    ensures EncodeAll(ms[..i + 1]) == EncodeAll(ms[..i]) + EncodeNode(ms[i])
  {
    hide EncodeNode;
    assert ms[..i + 1][..i] == ms[..i];
  }

  lemma NodeParts(p: Policy)
    ensures EncodeNode(p) == if p.IsLeaf() then Header(p) else Header(p) + EncodeAll(p.members)
    ensures EncodeAll([]) == []
  {
    hide Header;
  }

  method EncodeInto(p: Policy, out: seq<Byte>) returns (out': seq<Byte>)
    ensures out' == out + EncodeNode(p)
    decreases p
  {
    hide Header, EncodeNode, EncodeAll;
    NodeParts(p);
    out' := EncodeHeader(p, out);
    if !p.IsLeaf() {
      assert p.members[..0] == [];
      for i := 0 to |p.members|
        invariant out' == out + Header(p) + EncodeAll(p.members[..i])
      {
        out' := EncodeInto(p.members[i], out');
        AllUpTo(p.members, i);
      }
      assert p.members[..|p.members|] == p.members;
    }
  }

  method EncodePolicy(p: Policy) returns (out: seq<Byte>)
    ensures out == Encode(p)
  {
    out := EncodeInto(p, [ENCODING_VERSION]);
  }

  // ---- unique reading ----------------------------------------------------------------------------------

  lemma WidthLimits()
    ensures Power256(2) == 0x1_0000 && Power256(4) == TWO_32 && Power256(8) == TWO_64
  {
    assert Power256(1) == 256 && Power256(2) == 0x1_0000 && Power256(3) == 0x100_0000;
    assert Power256(4) == 0x1_0000_0000 && Power256(5) == 0x100_0000_0000;
    assert Power256(6) == 0x1_0000_0000_0000 && Power256(7) == 0x100_0000_0000_0000;
  }

  /** What a header that starts a byte string says about the bytes. */
  lemma HeaderFields(p: Policy, b: seq<Byte>)
    requires Header(p) <= b && (p.IsLeaf() || |p.members| < TWO_32)
    ensures |Header(p)| == HeaderLen(Tag(p)) <= |b| && b[0] == Tag(p)
    ensures p.AmountAtMost? ==> FromBytes(b[1..9]) == p.limit
    ensures p.Credential? ==> b[1..33] == p.id
    ensures p.Threshold? ==> FromBytes(b[1..3]) == p.k && FromBytes(b[3..7]) == |p.members|
    ensures p.And? || p.Or? ==> FromBytes(b[1..5]) == |p.members|
  {
    hide FromBytes, ToBytes;
    WidthLimits();
    var h := Header(p);
    assert b[..|h|] == h;
    match p {
      case AmountAtMost(limit) =>
        BytesOfInteger(limit, 8);
        assert b[1..9] == h[1..9] == ToBytes(limit, 8);
      case Credential(id) =>
        assert b[1..33] == h[1..33] == id;
      case Threshold(k, ms) =>
        BytesOfInteger(k, 2);
        BytesOfInteger(|ms|, 4);
        assert b[1..3] == h[1..3] == ToBytes(k, 2);
        assert b[3..7] == h[3..7] == PrintU32(|ms|);
      case _ =>
        BytesOfInteger(|p.members|, 4);
        assert b[1..5] == h[1..5] == PrintU32(|p.members|);
    }
  }

  /** Prefix-freeness: at most one policy's encoding starts a given byte string. */
  lemma {:induction false} PrefixFree(p: Policy, q: Policy, b: seq<Byte>)
    requires Encodable(p) && Encodable(q) && EncodeNode(p) <= b && EncodeNode(q) <= b
    ensures p == q
    decreases p, 1
  {
    hide FromBytes;
    StartsWithHeader(p, b);
    StartsWithHeader(q, b);
    HeaderFields(p, b);
    HeaderFields(q, b);
    if !p.IsLeaf() {
      PrefixFreeAll(p.members, q.members, b[HeaderLen(Tag(p))..]);
    }
  }

  lemma StartsWithHeader(p: Policy, b: seq<Byte>)
    requires EncodeNode(p) <= b
    ensures Header(p) <= b
    ensures !p.IsLeaf() ==> EncodeAll(p.members) <= b[|Header(p)|..]
  {
    hide Header;
    if !p.IsLeaf() {
      StartsSplit(Header(p), EncodeAll(p.members), b);
    }
  }

  lemma {:induction false} PrefixFreeAll(ms: seq<Policy>, ns: seq<Policy>, b: seq<Byte>)
    requires |ms| == |ns| && AllEncodable(ms) && AllEncodable(ns) && EncodeAll(ms) <= b && EncodeAll(ns) <= b
    ensures ms == ns
    decreases ms, 0
  {
    hide Encodable;
    if ms != [] {
      var i := |ms| - 1;
      StartsSplit(EncodeAll(ms[..i]), EncodeNode(ms[i]), b);
      StartsSplit(EncodeAll(ns[..i]), EncodeNode(ns[i]), b);
      PrefixFreeAll(ms[..i], ns[..i], b);
      PrefixFree(ms[i], ns[i], b[|EncodeAll(ms[..i])|..]);
      assert ms == ms[..i] + [ms[i]] && ns == ns[..i] + [ns[i]];
    }
  }

  /** Distinct policies have distinct encodings. */
  lemma EncodeInjective(p: Policy, q: Policy)
    requires Encodable(p) && Encodable(q) && Encode(p) == Encode(q)
    ensures p == q
  {
    assert EncodeNode(p) == Encode(p)[1..] && EncodeNode(q) == Encode(q)[1..];
    PrefixFree(p, q, EncodeNode(p));
  }

  /** Past the width of the count field, two different policies share an encoding. */
  lemma TruncatedCountsCollide(ms: seq<Policy>)
    requires |ms| == TWO_32
    ensures And([Or(ms)]) != And([Or([])] + ms)
    ensures Encode(And([Or(ms)])) == Encode(And([Or([])] + ms))
  {
    hide ToBytes;
    AllOfCons(Or([]), ms);
    assert EncodeAll([]) == [];
    assert EncodeAll([Or(ms)]) == EncodeNode(Or(ms)) by {
      assert [Or(ms)][..0] == [];
    }
    assert PrintU32(1) == PrintU32(TWO_32 + 1) && PrintU32(0) == PrintU32(TWO_32);
    assert EncodeNode(Or(ms)) == EncodeNode(Or([])) + EncodeAll(ms);
  }

  lemma {:induction false} AllOfCons(p: Policy, ms: seq<Policy>)
    ensures EncodeAll([p] + ms) == EncodeNode(p) + EncodeAll(ms)
  {
    hide EncodeNode;
    if ms == [] {
      assert [p] + ms == [p] && [p][..0] == [];
    } else {
      var i := |ms| - 1;
      AllOfCons(p, ms[..i]);
      assert ([p] + ms)[..i + 1] == [p] + ms[..i];
    }
  }

  lemma {:induction false} AllOfPrefix(ms: seq<Policy>, i: nat)
    requires i < |ms|
    ensures EncodeAll(ms[..i]) + EncodeNode(ms[i]) <= EncodeAll(ms)
    decreases |ms|
  {
    hide EncodeNode;
    var n := |ms| - 1;
    if i < n {
      AllOfPrefix(ms[..n], i);
      assert ms[..n][..i] == ms[..i];
    }
  }

  /** If the members read so far encode a prefix, any list that starts these bytes goes on with an
      encoding of its next member. */
  lemma ReadsSameMembers(got: seq<Policy>, ms: seq<Policy>, b: seq<Byte>)
    requires |got| < |ms| && AllEncodable(got) && AllEncodable(ms) && EncodeAll(got) <= b && EncodeAll(ms) <= b
    ensures Encodable(ms[|got|]) && EncodeNode(ms[|got|]) <= b[|EncodeAll(got)|..]
  {
    hide EncodeNode, EncodeAll, Encodable;
    var i := |got|;
    AllOfPrefix(ms, i);
    StartsSplit(EncodeAll(ms[..i]), EncodeNode(ms[i]), b);
    PrefixFreeAll(got, ms[..i], b);
  }

  /** No node starts here: the tag is missing or unknown, or the header is cut short. */
  lemma NoNodeHere(b: seq<Byte>)
    requires b == [] || !(1 <= b[0] <= 5) || |b| < HeaderLen(b[0])
    ensures forall p: Policy :: Encodable(p) ==> !(EncodeNode(p) <= b)
  {
    forall p: Policy | Encodable(p) && EncodeNode(p) <= b
      ensures false
    {
      hide EncodeNode, FromBytes;
      StartsWithHeader(p, b);
      HeaderFields(p, b);
    }
  }

  lemma MembersHere(p: Policy, b: seq<Byte>)
    requires Encodable(p) && EncodeNode(p) <= b && b != [] && 3 <= b[0] <= 5
    ensures !p.IsLeaf() && AllEncodable(p.members) && HeaderLen(b[0]) <= |b|
    ensures |p.members| == FromBytes(b[HeaderLen(b[0]) - 4..HeaderLen(b[0])]) && EncodeAll(p.members) <= b[HeaderLen(b[0])..]
  {
    hide EncodeNode, EncodeAll, FromBytes, Header;
    StartsWithHeader(p, b);
    HeaderFields(p, b);
  }

  lemma NoMembersHere(b: seq<Byte>, tag: Byte, count: nat)
    requires 3 <= tag <= 5 && HeaderLen(tag) <= |b| && b[0] == tag
    requires count == FromBytes(b[HeaderLen(tag) - 4..HeaderLen(tag)])
    requires forall ms: seq<Policy> :: |ms| == count && AllEncodable(ms) ==> !(EncodeAll(ms) <= b[HeaderLen(tag)..])
    ensures forall p: Policy :: Encodable(p) ==> !(EncodeNode(p) <= b)
  {
    hide EncodeNode, EncodeAll, Encodable, AllEncodable, FromBytes;
    forall p: Policy | Encodable(p) && EncodeNode(p) <= b
      ensures false
    {
      MembersHere(p, b);
    }
  }

  lemma FieldBytes(b: seq<Byte>)
    ensures ToBytes(FromBytes(b), |b|) == b && FromBytes(b) < Power256(|b|)
  {
    IntegerOfBytes(b);
  }

  lemma LeafRead(b: seq<Byte>, tag: Byte, field: seq<Byte>)
    requires 1 <= tag <= 2 && HeaderLen(tag) <= |b| && b[0] == tag && field == b[1..HeaderLen(tag)]
    ensures tag == 1 ==> FromBytes(field) < TWO_64 && b[..9] == EncodeNode(AmountAtMost(FromBytes(field)))
    ensures tag == 2 ==> |field| == 32 && b[..33] == EncodeNode(Credential(field))
    ensures tag == 1 ==> Encodable(AmountAtMost(FromBytes(field)))
    ensures tag == 2 ==> Encodable(Credential(field))
  {
    hide FromBytes, ToBytes, Encodable, EncodeNode, Header;
    assert b[..HeaderLen(tag)] == [tag] + field;
    if tag == 1 {
      AmountRead(field);
    } else {
      CredentialRead(field);
    }
  }

  lemma AmountRead(field: seq<Byte>)
    requires |field| == 8
    ensures FromBytes(field) < TWO_64 && EncodeNode(AmountAtMost(FromBytes(field))) == [1] + field
    ensures Encodable(AmountAtMost(FromBytes(field)))
  {
    hide FromBytes, ToBytes;
    WidthLimits();
    FieldBytes(field);
  }

  lemma CredentialRead(field: seq<Byte>)
    requires |field| == 32
    ensures EncodeNode(Credential(field)) == [2] + field && Encodable(Credential(field))
  {
  }

  /** The node a parsed header stands for. */
  function NodeOf(tag: Byte, field: seq<Byte>, ms: seq<Policy>): Policy
    requires 3 <= tag <= 5 && (tag == 3 ==> FromBytes(field) < 0x1_0000)
  {
    match tag
    case 3 => Threshold(FromBytes(field), ms)
    case 4 => And(ms)
    case _ => Or(ms)
  }

  lemma NodeRead(b: seq<Byte>, tag: Byte, field: seq<Byte>, ms: seq<Policy>)
    requires 3 <= tag <= 5 && HeaderLen(tag) <= |b| && b[0] == tag
    requires tag == 3 ==> field == b[1..3]
    requires |ms| == FromBytes(b[HeaderLen(tag) - 4..HeaderLen(tag)]) && AllEncodable(ms)
    ensures tag == 3 ==> FromBytes(field) < 0x1_0000
    ensures Encodable(NodeOf(tag, field, ms))
    ensures EncodeNode(NodeOf(tag, field, ms)) == b[..HeaderLen(tag)] + EncodeAll(ms)
  {
    hide FromBytes, ToBytes, EncodeAll;
    WidthLimits();
    var h := HeaderLen(tag);
    FieldBytes(b[h - 4..h]);
    if tag == 3 {
      FieldBytes(b[1..3]);
      assert b[..7] == [b[0]] + b[1..3] + b[3..7];
    } else {
      assert b[..5] == [b[0]] + b[1..5];
    }
  }

  // ---- parsing -----------------------------------------------------------------------------------------

  /** The fixed fields of a node after its tag. */
  method TakeFields(c: Cursor, tag: Byte) returns (r: Result<(seq<Byte>, nat), PolicyError>)
    requires c.Valid() && 1 <= tag <= 5
    modifies c
    ensures c.Valid() && c.pos >= old(c.pos)
    ensures r.Err? <==> old(c.pos) + HeaderLen(tag) - 1 > |c.bytes|
    ensures r.Err? ==> r.error == MalformedEncoding
    ensures r.Ok? ==> c.pos == old(c.pos) + HeaderLen(tag) - 1
    ensures r.Ok? && tag <= 2 ==> r.value == (c.bytes[old(c.pos)..c.pos], 0)
    ensures r.Ok? && tag == 3 ==> r.value == (c.bytes[old(c.pos)..old(c.pos) + 2], FromBytes(c.bytes[old(c.pos) + 2..c.pos]))
    ensures r.Ok? && tag >= 4 ==> r.value == ([], FromBytes(c.bytes[old(c.pos)..c.pos]))
  {
    var field: seq<Byte> := [];
    if tag <= 3 {
      var slice := c.ReadBytes(if tag == 1 then 8 else if tag == 2 then CREDENTIAL_ID_LEN else 2);
      if slice.None? {
        return Err(MalformedEncoding);
      }
      field := slice.value;
    }
    var count := 0;
    if tag >= 3 {
      var slice := c.ReadBytes(4);
      if slice.None? {
        return Err(MalformedEncoding);
      }
      count := FromBytes(slice.value);
    }
    return Ok((field, count));
  }

  /** The tag and the fixed fields of a node. */
  method TakeHeader(c: Cursor) returns (r: Result<(Byte, seq<Byte>, nat), PolicyError>)
    requires c.Valid()
    modifies c
    ensures c.Valid() && c.pos >= old(c.pos)
    ensures r.Err? ==> r.error == MalformedEncoding
    ensures r.Err? ==> forall p: Policy :: Encodable(p) ==> !(EncodeNode(p) <= c.bytes[old(c.pos)..])
    ensures r.Ok? ==>
              var (rest, (tag, field, count)) := (c.bytes[old(c.pos)..], r.value);
              && 1 <= tag <= 5 && HeaderLen(tag) <= |rest| && rest[0] == tag && c.pos == old(c.pos) + HeaderLen(tag)
              && (tag <= 2 ==> field == rest[1..HeaderLen(tag)])
              && (tag == 3 ==> field == rest[1..3])
              && (tag >= 3 ==> count == FromBytes(rest[HeaderLen(tag) - 4..HeaderLen(tag)]))
  {
    hide FromBytes, EncodeNode, Encodable;
    ghost var rest := c.bytes[c.pos..];
    var tagByte := c.ReadBytes(1);
    assert tagByte.Some? ==> tagByte.value[0] == rest[0];
    if tagByte.None? || !(1 <= tagByte.value[0] <= 5) {
      NoNodeHere(rest);
      return Err(MalformedEncoding);
    }
    var tag := tagByte.value[0];
    var fields := TakeFields(c, tag);
    if fields.Err? {
      NoNodeHere(rest);
      return Err(fields.error);
    }
    var (field, count) := fields.value;
    assert tag <= 2 ==> rest[1..HeaderLen(tag)] == field;
    assert tag == 3 ==> rest[1..3] == field;
    assert tag >= 3 ==> rest[HeaderLen(tag) - 4..HeaderLen(tag)] == c.bytes[c.pos - 4..c.pos];
    return Ok((tag, field, count));
  }

  /** Reads exactly an encoding: success means the c.bytes read encode the policy, failure means no
      policy's encoding starts here. */
  method TakeNode(c: Cursor) returns (r: Result<Policy, PolicyError>)
    requires c.Valid()
    modifies c
    ensures c.Valid() && c.pos >= old(c.pos)
    ensures r.Ok? ==> Encodable(r.value) && c.bytes[old(c.pos)..c.pos] == EncodeNode(r.value)
    ensures r.Err? ==> r.error == MalformedEncoding
    ensures r.Err? ==> forall p: Policy :: Encodable(p) ==> !(EncodeNode(p) <= c.bytes[old(c.pos)..])
    decreases |c.bytes| - c.pos, 0
  {
    hide EncodeAll, Header, FromBytes, EncodeNode, Encodable, AllEncodable;
    ghost var start := c.pos;
    ghost var rest := c.bytes[c.pos..];
    var header := TakeHeader(c);
    if header.Err? {
      return Err(header.error);
    }
    var (tag, field, count) := header.value;
    ghost var at := c.pos;
    assert rest[..HeaderLen(tag)] == c.bytes[start..at] && rest[HeaderLen(tag)..] == c.bytes[at..];
    if tag <= 2 {
      LeafRead(rest, tag, field);
      if tag == 1 {
        return Ok(AmountAtMost(FromBytes(field)));
      }
      return Ok(Credential(field));
    }
    var members := TakeMembers(c, count);
    if members.Err? {
      NoMembersHere(rest, tag, count);
      return Err(members.error);
    }
    NodeRead(rest, tag, field, members.value);
    assert c.bytes[start..c.pos] == c.bytes[start..at] + c.bytes[at..c.pos];
    match tag {
      case 3 => return Ok(Threshold(FromBytes(field), members.value));
      case 4 => return Ok(And(members.value));
      case _ => return Ok(Or(members.value));
    }
  }

  method TakeMembers(c: Cursor, count: nat) returns (r: Result<seq<Policy>, PolicyError>)
    requires c.Valid()
    modifies c
    ensures c.Valid() && c.pos >= old(c.pos)
    ensures r.Ok? ==> |r.value| == count && AllEncodable(r.value) && c.bytes[old(c.pos)..c.pos] == EncodeAll(r.value)
    ensures r.Err? ==> r.error == MalformedEncoding
    ensures r.Err? ==> forall ms: seq<Policy> :: |ms| == count && AllEncodable(ms) ==> !(EncodeAll(ms) <= c.bytes[old(c.pos)..])
    decreases |c.bytes| - c.pos, 1
  {
    hide EncodeNode, Encodable;
    var members: seq<Policy> := [];
    for i := 0 to count
      invariant c.Valid() && c.pos >= old(c.pos) && |members| == i && AllEncodable(members)
      invariant c.bytes[old(c.pos)..c.pos] == EncodeAll(members)
    {
      ghost var at := c.pos;
      var member := TakeNode(c);
      if member.Err? {
        ghost var rest := c.bytes[old(c.pos)..];
        assert rest[..at - old(c.pos)] == c.bytes[old(c.pos)..at] && rest[at - old(c.pos)..] == c.bytes[at..];
        forall ms: seq<Policy> | |ms| == count && AllEncodable(ms) && EncodeAll(ms) <= rest
          ensures false
        {
          ReadsSameMembers(members, ms, rest);
        }
        return Err(member.error);
      }
      assert c.bytes[old(c.pos)..c.pos] == c.bytes[old(c.pos)..at] + c.bytes[at..c.pos];
      assert (members + [member.value])[..i] == members;
      members := members + [member.value];
    }
    return Ok(members);
  }

  /** Decoding accepts exactly the encodings, and gives back the policy they encode. */
  method Decode(bytes: seq<Byte>) returns (r: Result<Policy, PolicyError>)
    ensures forall p: Policy :: r == Ok(p) <==> Encodable(p) && bytes == Encode(p)
    ensures bytes == [] ==> r == Err(MalformedEncoding)
    ensures bytes != [] && bytes[0] != ENCODING_VERSION ==> r == Err(UnknownVersion)
    ensures bytes != [] && bytes[0] == ENCODING_VERSION && r.Err? ==>
              if exists p: Policy :: Encodable(p) && EncodeNode(p) <= bytes[1..]
              then r.error == TrailingBytes else r.error == MalformedEncoding
  {
    hide EncodeNode, Encodable;
    var reader := new Cursor(bytes);
    var version := reader.ReadBytes(1);
    if version.None? {
      return Err(MalformedEncoding);
    }
    if version.value[0] != ENCODING_VERSION {
      return Err(UnknownVersion);
    }
    var policy := TakeNode(reader);
    forall p: Policy | bytes == Encode(p)
      ensures EncodeNode(p) == bytes[1..]
    {
    }
    if policy.Err? {
      return Err(policy.error);
    }
    assert EncodeNode(policy.value) <= bytes[1..] by {
      assert bytes[1..][..reader.pos - 1] == bytes[1..reader.pos];
    }
    forall p: Policy | Encodable(p) && bytes == Encode(p)
      ensures p == policy.value
    {
      PrefixFree(p, policy.value, bytes[1..]);
    }
    if reader.pos != |bytes| {
      return Err(TrailingBytes);
    }
    assert bytes == [ENCODING_VERSION] + bytes[1..];
    return Ok(policy.value);
  }
}
