/** Which way normalisation sorts, in terms of the bytes of encodings and the integers they denote,
    and normal forms described by it. */
module PolicyOrder {
  import opened BigEndian
  import opened Codec
  import opened Policies
  import opened PolicyEncoding
  import opened PolicyNormal
  import opened PolicyNormalLaws

  // ---- the order of byte strings -----------------------------------------------------------------------

  /** The strings agree up to position k; there the first ends, or has the smaller byte. */
  predicate SmallerFrom(a: seq<Byte>, b: seq<Byte>, k: nat) {
    k <= |a| && k < |b| && a[..k] == b[..k] && (k == |a| || a[k] < b[k])
  }

  lemma {:induction false} BeforeAt(a: seq<Byte>, b: seq<Byte>)
    ensures Before(a, b) <==> exists k: nat :: SmallerFrom(a, b, k)
  {
    if Before(a, b) {
      var k := FirstDifference(a, b);
    }
    if k: nat :| SmallerFrom(a, b, k) {
      DifferenceOrders(a, b, k);
    }
  }

  lemma {:induction false} FirstDifference(a: seq<Byte>, b: seq<Byte>) returns (k: nat)
    requires Before(a, b)
    ensures SmallerFrom(a, b, k)
  {
    if a == [] || a[0] < b[0] {
      k := 0;
    } else {
      k := FirstDifference(a[1..], b[1..]);
      assert a[..k + 1] == [a[0]] + a[1..][..k] && b[..k + 1] == [b[0]] + b[1..][..k];
      k := k + 1;
    }
  }

  lemma {:induction false} DifferenceOrders(a: seq<Byte>, b: seq<Byte>, k: nat)
    requires SmallerFrom(a, b, k)
    ensures Before(a, b)
  {
    if k > 0 {
      assert a[0] == a[..k][0] && b[0] == b[..k][0];
      assert a[1..][..k - 1] == a[..k][1..] && b[1..][..k - 1] == b[..k][1..];
      DifferenceOrders(a[1..], b[1..], k - 1);
    }
  }

  /** On byte strings of one length it is the order of the integers; a proper prefix comes first. */
  lemma {:induction false} BeforeIsLess(a: seq<Byte>, b: seq<Byte>)
    ensures |a| == |b| ==> (Before(a, b) <==> FromBytes(a) < FromBytes(b))
    ensures a < b ==> Before(a, b)
  {
    if |a| == |b| {
      LexLessIsLess(a, b);
      SameOrder(a, b);
    }
    if a < b {
      DifferenceOrders(a, b, |a|);
    }
  }

  lemma {:induction false} SameOrder(a: seq<Byte>, b: seq<Byte>)
    requires |a| == |b|
    ensures Before(a, b) <==> LexLess(a, b)
  {
    if a != [] {
      SameOrder(a[1..], b[1..]);
    }
  }

  // ---- the order of members ----------------------------------------------------------------------------

  /** Up to position k the encodings agree; there the first policy's byte is the smaller. */
  predicate SmallerByte(p: Policy, q: Policy, k: nat) {
    var (a, b) := (Encode(p), Encode(q));
    k < |a| && k < |b| && a[..k] == b[..k] && a[k] < b[k]
  }

  ghost predicate Ascend(p: Policy, q: Policy) {
    exists k: nat :: SmallerByte(p, q, k)
  }

  /** No encoding is the start of another, so encodings that are ordered differ in a byte. */
  lemma PrecedesByByte(p: Policy, q: Policy)
    requires Encodable(p) && Encodable(q)
    ensures Precedes(p, q) <==> Ascend(p, q)
  {
    hide Encode, Before, SmallerFrom, Encodable;
    BeforeAt(Encode(p), Encode(q));
    if k: nat :| SmallerFrom(Encode(p), Encode(q), k) {
      NoneIsPrefix(p, q, k);
    }
    if k: nat :| SmallerByte(p, q, k) {
      ByteIsDifference(p, q, k);
    }
  }

  lemma ByteIsDifference(p: Policy, q: Policy, k: nat)
    requires SmallerByte(p, q, k)
    ensures SmallerFrom(Encode(p), Encode(q), k)
  {
    hide Encode;
  }

  lemma NoneIsPrefix(p: Policy, q: Policy, k: nat)
    requires Encodable(p) && Encodable(q) && SmallerFrom(Encode(p), Encode(q), k)
    ensures SmallerByte(p, q, k)
  {
    hide EncodeNode, Encodable;
    if k == |Encode(p)| {
      var b := Encode(q)[1..];
      assert EncodeNode(q) == b && EncodeNode(p) == Encode(p)[1..] == Encode(q)[..k][1..] == b[..k - 1];
      PolicyEncoding.PrefixFree(p, q, b);
    }
  }

  /** In the normal form of a policy the encodings of the members of a conjunction or disjunction
      ascend: for an earlier and a later member there is a position up to which they agree and at
      which the earlier one's byte is smaller. Members of a threshold may also be the same. */
  lemma NormalOrder(p: Policy)
    requires CountsFit(p) && !Normalize(p).IsLeaf()
    ensures var ms := Normalize(p).members;
            forall i, j :: 0 <= i < j < |ms| ==>
              (Normalize(p).Threshold? && ms[i] == ms[j]) || Ascend(ms[i], ms[j])
  {
    hide Precedes, Ascend, SmallerByte, Normalize;
    NormalizeIsNormal(p);
    NormalEncodable(p);
    var n := Normalize(p);
    forall i, j | 0 <= i < j < |n.members|
      ensures (n.Threshold? && n.members[i] == n.members[j]) || Ascend(n.members[i], n.members[j])
    {
      hide Encodable;
      MembersOrdered(n, i, j);
      PrecedesByByte(n.members[i], n.members[j]);
    }
  }

  lemma MembersOrdered(n: Policy, i: nat, j: nat)
    requires NormalForm(n) && !n.IsLeaf() && i < j < |n.members| && Encodable(n)
    ensures Encodable(n.members[i]) && Encodable(n.members[j])
    ensures Precedes(n.members[i], n.members[j]) || (n.Threshold? && n.members[i] == n.members[j])
  {
    hide Precedes, Encode;
    if n.Threshold? {
      PrecedesTotal(n.members[i], n.members[j]);
      if Encode(n.members[i]) == Encode(n.members[j]) {
        EncodeInjective(n.members[i], n.members[j]);
      }
    }
  }

  /** A normal form, described by the bytes of encodings: ascending members, repeated in thresholds
      only; no combinator with one member, and none directly inside its own kind. */
  ghost predicate Canonical(p: Policy)
    decreases p
  {
    !p.IsLeaf() ==>
      && (forall i, j :: 0 <= i < j < |p.members| ==>
            (p.Threshold? && p.members[i] == p.members[j]) || Ascend(p.members[i], p.members[j]))
      && (!p.Threshold? ==> |p.members| != 1)
      && (forall i :: 0 <= i < |p.members| ==>
            && Canonical(p.members[i])
            && (p.And? ==> !p.members[i].And?) && (p.Or? ==> !p.members[i].Or?))
  }

  /** The policies that normalisation leaves alone are exactly these. */
  lemma CanonicalExactly(p: Policy)
    requires Encodable(p)
    ensures Canonical(p) <==> Normalize(p) == p
  {
    hide Canonical, Normalize, NormalForm, Encodable;
    CanonicalIsNormal(p);
    NormalizeIsNormal(p);
    if NormalForm(p) {
      NormalFormFixed(p);
    }
  }

  lemma {:induction false} CanonicalIsNormal(p: Policy)
    requires Encodable(p)
    ensures Canonical(p) <==> NormalForm(p)
    decreases p
  {
    hide SmallerByte, Precedes;
    if !p.IsLeaf() {
      forall i | 0 <= i < |p.members|
        ensures Canonical(p.members[i]) <==> NormalForm(p.members[i])
      {
        CanonicalIsNormal(p.members[i]);
      }
      forall i, j | 0 <= i < j < |p.members|
        ensures Precedes(p.members[i], p.members[j]) <==> Ascend(p.members[i], p.members[j])
        ensures !Precedes(p.members[j], p.members[i]) <==> p.members[i] == p.members[j] || Precedes(p.members[i], p.members[j])
      {
        MembersCompared(p.members[i], p.members[j]);
      }
    }
  }

  lemma MembersCompared(p: Policy, q: Policy)
    requires Encodable(p) && Encodable(q)
    ensures Precedes(p, q) <==> Ascend(p, q)
    ensures !Precedes(q, p) <==> p == q || Precedes(p, q)
  {
    hide Encode, Precedes, Ascend, SmallerByte, Encodable;
    PrecedesByByte(p, q);
    PrecedesTotal(p, q);
    if Encode(p) == Encode(q) {
      EncodeInjective(p, q);
    }
  }
}
