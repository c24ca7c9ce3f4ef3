/** Normalisation of policies: flattening, de-duplication, sorting by encoding, singleton collapse. */
module PolicyNormal {
  import opened BigEndian
  import opened Codec
  import opened Policies
  import opened PolicyEncoding

  // ---- the order of encodings --------------------------------------------------------------------------

  /** Strict lexicographic order of byte strings; a proper prefix comes first. */
  predicate Before(a: seq<Byte>, b: seq<Byte>) {
    b != [] && (a == [] || a[0] < b[0] || (a[0] == b[0] && Before(a[1..], b[1..])))
  }

  lemma {:induction false} BeforeTotal(a: seq<Byte>, b: seq<Byte>)
    ensures a == b || Before(a, b) || Before(b, a)
    ensures !(Before(a, b) && Before(b, a)) && !Before(a, a)
  {
    if a != [] {
      BeforeTotal(a[1..], if b == [] then [] else b[1..]);
      assert a == [a[0]] + a[1..];
      if b != [] {
        assert b == [b[0]] + b[1..];
      }
    }
  }

  lemma {:induction false} BeforeTransitive(a: seq<Byte>, b: seq<Byte>, c: seq<Byte>)
    requires Before(a, b) && Before(b, c)
    ensures Before(a, c)
  {
    if a != [] && a[0] == b[0] == c[0] {
      BeforeTransitive(a[1..], b[1..], c[1..]);
    }
  }

  predicate Precedes(p: Policy, q: Policy) {
    Before(Encode(p), Encode(q))
  }

  lemma PrecedesTotal(p: Policy, q: Policy)
    ensures Encode(p) == Encode(q) || Precedes(p, q) || Precedes(q, p)
    ensures !(Precedes(p, q) && Precedes(q, p)) && (Encode(p) == Encode(q) ==> !Precedes(p, q))
  {
    hide Before, Encode;
    BeforeTotal(Encode(p), Encode(q));
  }

  lemma PrecedesTransitive(p: Policy, q: Policy, r: Policy)
    requires Precedes(p, q) && Precedes(q, r)
    ensures Precedes(p, r)
  {
    hide Before, Encode;
    BeforeTransitive(Encode(p), Encode(q), Encode(r));
  }

  predicate Ordered(ms: seq<Policy>) {
    forall i, j :: 0 <= i < j < |ms| ==> !Precedes(ms[j], ms[i])
  }

  predicate StrictlyOrdered(ms: seq<Policy>) {
    forall i, j :: 0 <= i < j < |ms| ==> Precedes(ms[i], ms[j])
  }

  /** Stable insertion by encoding. */
  function Insert(s: seq<Policy>, x: Policy): (r: seq<Policy>)
    ensures |r| == |s| + 1 && multiset(r) == multiset(s) + multiset{x}
  {
    if s == [] || !Precedes(x, s[|s| - 1]) then s + [x]
    else
      var n := |s| - 1;
      assert s == s[..n] + [s[n]];
      Insert(s[..n], x) + [s[n]]
  }

  function SortByEncoding(ms: seq<Policy>): (r: seq<Policy>)
    ensures |r| == |ms| && multiset(r) == multiset(ms)
  {
    if ms == [] then []
    else
      var n := |ms| - 1;
      assert ms == ms[..n] + [ms[n]];
      Insert(SortByEncoding(ms[..n]), ms[n])
  }

  lemma SameElements(a: seq<Policy>, b: seq<Policy>)
    requires multiset(a) == multiset(b)
    ensures forall x :: x in a <==> x in b
  {
    forall x
      ensures x in a <==> x in b
    {
      assert x in a <==> x in multiset(a);
      assert x in b <==> x in multiset(b);
    }
  }

  lemma AppendOrders(s: seq<Policy>, x: Policy)
    requires Ordered(s) && s != [] && !Precedes(x, s[|s| - 1])
    ensures Ordered(s + [x])
    ensures StrictlyOrdered(s) && (forall y :: y in s ==> Encode(y) != Encode(x)) ==> StrictlyOrdered(s + [x])
  {
    hide Precedes, Encode;
    var n := |s| - 1;
    forall i | 0 <= i <= n
      ensures !Precedes(x, s[i]) && (Encode(s[i]) != Encode(x) ==> Precedes(s[i], x))
    {
      PrecedesTotal(s[i], s[n]);
      PrecedesTotal(s[i], x);
      if i < n && Precedes(x, s[i]) {
        PrecedesSame(s[i], s[n], x);
      }
    }
    if forall y :: y in s ==> Encode(y) != Encode(x) {
      forall i | 0 <= i <= n
        ensures Encode(s[i]) != Encode(x)
      {
        assert s[i] in s;
      }
    }
  }

  lemma {:induction false} InsertOrders(s: seq<Policy>, x: Policy)
    requires Ordered(s)
    ensures Ordered(Insert(s, x))
    ensures StrictlyOrdered(s) && (forall y :: y in s ==> Encode(y) != Encode(x)) ==> StrictlyOrdered(Insert(s, x))
  {
    hide Precedes, Encode;
    var n := |s| - 1;
    if s != [] && !Precedes(x, s[n]) {
      AppendOrders(s, x);
    } else if s != [] {
      InsertOrders(s[..n], x);
      var r := Insert(s[..n], x);
      SameElements(r, s[..n] + [x]);
      PrecedesTotal(x, s[n]);
      forall i | 0 <= i < |r|
        ensures !Precedes(s[n], r[i])
        ensures StrictlyOrdered(s) ==> Precedes(r[i], s[n])
      {
        assert r[i] in r;
        assert r[i] in s[..n] || r[i] == x;
      }
    }
  }

  /** Policies with one encoding stand in the same places of the order. */
  lemma PrecedesSame(p: Policy, q: Policy, x: Policy)
    requires !Precedes(q, p) && Precedes(x, p)
    ensures Precedes(x, q)
  {
    hide Encode, Before;
    PrecedesTotal(p, q);
    if Encode(p) != Encode(q) {
      PrecedesTransitive(x, p, q);
    }
  }

  predicate DistinctEncodings(ms: seq<Policy>) {
    forall i, j :: 0 <= i < j < |ms| ==> Encode(ms[i]) != Encode(ms[j])
  }

  lemma {:induction false} SortOrders(ms: seq<Policy>)
    ensures Ordered(SortByEncoding(ms))
    ensures DistinctEncodings(ms) ==> StrictlyOrdered(SortByEncoding(ms))
  {
    hide Precedes, Encode;
    if ms != [] {
      var n := |ms| - 1;
      SortOrders(ms[..n]);
      InsertOrders(SortByEncoding(ms[..n]), ms[n]);
      SameElements(SortByEncoding(ms[..n]), ms[..n]);
      if DistinctEncodings(ms) {
        forall y | y in ms[..n]
          ensures Encode(y) != Encode(ms[n])
        {
          var i :| 0 <= i < n && ms[..n][i] == y;
        }
      }
    }
  }

  lemma InsertLast(s: seq<Policy>, x: Policy)
    requires s == [] || !Precedes(x, s[|s| - 1])
    ensures Insert(s, x) == s + [x]
  {
  }

  lemma {:induction false} SortFixed(ms: seq<Policy>)
    requires Ordered(ms)
    ensures SortByEncoding(ms) == ms
  {
    hide Precedes, Insert;
    if ms != [] {
      var n := |ms| - 1;
      SortFixed(ms[..n]);
      InsertLast(ms[..n], ms[n]);
      assert ms == ms[..n] + [ms[n]];
    }
  }

  /** Two sorted lists over the same encodable policies end in the same policy. */
  lemma LastSame(a: seq<Policy>, b: seq<Policy>)
    requires Ordered(a) && Ordered(b) && AllEncodable(a) && a != [] && b != []
    requires forall x :: x in a <==> x in b
    ensures a[|a| - 1] == b[|b| - 1]
  {
    hide Precedes, Encode, Encodable;
    var n, m := |a| - 1, |b| - 1;
    var i :| 0 <= i <= n && a[i] == b[m] by { assert b[m] in a; }
    var j :| 0 <= j <= m && b[j] == a[n] by { assert a[n] in b; }
    PrecedesTotal(a[n], b[m]);
    if a[n] != b[m] {
      assert !Precedes(a[n], b[m]) && !Precedes(b[m], a[n]);
      EncodeInjective(a[n], b[m]);
    }
  }

  lemma WithoutLast(s: seq<Policy>)
    requires s != []
    ensures multiset(s[..|s| - 1]) == multiset(s) - multiset{s[|s| - 1]}
  {
    assert s == s[..|s| - 1] + [s[|s| - 1]];
  }

  /** Sorting by encoding gives one list per multiset of encodable policies. */
  lemma {:induction false} SortedSame(a: seq<Policy>, b: seq<Policy>)
    requires Ordered(a) && Ordered(b) && multiset(a) == multiset(b) && AllEncodable(a)
    ensures a == b
  {
    hide Precedes, Encodable;
    assert |a| == |multiset(a)| == |multiset(b)| == |b|;
    if a != [] {
      var n := |a| - 1;
      SameElements(a, b);
      LastSame(a, b);
      WithoutLast(a);
      WithoutLast(b);
      SortedSame(a[..n], b[..n]);
      assert a == a[..n] + [a[n]] && b == b[..n] + [b[n]];
    }
  }

  lemma StrictIsOrdered(a: seq<Policy>)
    requires StrictlyOrdered(a)
    ensures Ordered(a)
    ensures a != [] ==> a[|a| - 1] !in a[..|a| - 1]
  {
    hide Precedes, Encode;
    forall i, j | 0 <= i < j < |a|
      ensures !Precedes(a[j], a[i]) && a[i] != a[j]
    {
      PrecedesTotal(a[i], a[j]);
    }
  }

  /** A strictly sorted list is determined by its set of elements. */
  lemma {:induction false} StrictSame(a: seq<Policy>, b: seq<Policy>)
    requires StrictlyOrdered(a) && StrictlyOrdered(b) && AllEncodable(a)
    requires forall x :: x in a <==> x in b
    ensures a == b
  {
    hide Precedes, Encodable;
    assert a != [] ==> a[0] in a;
    assert b != [] ==> b[0] in b;
    if a != [] && b != [] {
      var n, m := |a| - 1, |b| - 1;
      StrictIsOrdered(a);
      StrictIsOrdered(b);
      LastSame(a, b);
      assert a == a[..n] + [a[n]] && b == b[..m] + [b[m]];
      forall x
        ensures x in a[..n] <==> x in b[..m]
      {
        assert x in a[..n] <==> x in a && x != a[n];
        assert x in b[..m] <==> x in b && x != b[m];
      }
      StrictSame(a[..n], b[..m]);
    }
  }

  // ---- the normal form ---------------------------------------------------------------------------------

  function Rebuild(conj: bool, ms: seq<Policy>): Policy {
    if conj then And(ms) else Or(ms)
  }

  predicate Is(conj: bool, p: Policy) {
    if conj then p.And? else p.Or?
  }

  /** What a member contributes to its parent: its own members if it is the same combinator. */
  function Pieces(conj: bool, p: Policy): seq<Policy> {
    if Is(conj, p) then p.members else [p]
  }

  function Flatten(conj: bool, ns: seq<Policy>): seq<Policy> {
    if ns == [] then [] else Flatten(conj, ns[..|ns| - 1]) + Pieces(conj, ns[|ns| - 1])
  }

  predicate Listed(e: seq<Byte>, ms: seq<Policy>) {
    exists i :: 0 <= i < |ms| && Encode(ms[i]) == e
  }

  /** Keeps the first policy of every encoding. */
  function Dedup(ms: seq<Policy>): (r: seq<Policy>)
    ensures |r| <= |ms|
  {
    if ms == [] then []
    else
      var (u, x) := (Dedup(ms[..|ms| - 1]), ms[|ms| - 1]);
      if Listed(Encode(x), u) then u else u + [x]
  }

  function Collapse(conj: bool, u: seq<Policy>): Policy {
    if |u| == 1 then u[0] else Rebuild(conj, u)
  }

  function Arrange(conj: bool, ns: seq<Policy>): seq<Policy> {
    SortByEncoding(Dedup(Flatten(conj, ns)))
  }

  function Normalize(p: Policy): Policy
    decreases p, 1
  {
    match p
    case Threshold(k, ms) => Threshold(k, SortByEncoding(NormalizeAll(ms)))
    case And(ms) => Collapse(true, Arrange(true, NormalizeAll(ms)))
    case Or(ms) => Collapse(false, Arrange(false, NormalizeAll(ms)))
    case _ => p
  }

  function NormalizeAll(ms: seq<Policy>): (ns: seq<Policy>)
    ensures |ns| == |ms|
    ensures forall i :: 0 <= i < |ms| ==> ns[i] == Normalize(ms[i])
    decreases ms, 0
  {
    if ms == [] then [] else NormalizeAll(ms[..|ms| - 1]) + [Normalize(ms[|ms| - 1])]
  }

  /** Every member list met while normalising can be counted in 32 bits. */
  predicate CountsFit(p: Policy)
    decreases p
  {
    match p
    case AmountAtMost(_) => true
    case Credential(_) => true
    case Threshold(_, ms) => |ms| < TWO_32 && forall i :: 0 <= i < |ms| ==> CountsFit(ms[i])
    case And(ms) => |Flatten(true, NormalizeAll(ms))| < TWO_32 && forall i :: 0 <= i < |ms| ==> CountsFit(ms[i])
    case Or(ms) => |Flatten(false, NormalizeAll(ms))| < TWO_32 && forall i :: 0 <= i < |ms| ==> CountsFit(ms[i])
  }

  // ---- normalising -------------------------------------------------------------------------------------

  method NormalizeNode(p: Policy) returns (r: Policy)
    ensures r == Normalize(p)
    decreases p, 2
  {
    match p {
      case Threshold(k, ms) =>
        var normalized: seq<Policy> := [];
        for i := 0 to |ms|
          invariant normalized == NormalizeAll(ms[..i])
        {
          var member := NormalizeNode(ms[i]);
          normalized := normalized + [member];
          assert ms[..i + 1][..i] == ms[..i];
        }
        assert ms[..|ms|] == ms;
        r := Threshold(k, SortByEncoding(normalized));
      case And(ms) =>
        r := NormalizeCombinator(p, true);
      case Or(ms) =>
        r := NormalizeCombinator(p, false);
      case _ =>
        r := p;
    }
  }

  method NormalizeCombinator(p: Policy, conj: bool) returns (r: Policy)
    requires Is(conj, p)
    ensures r == Normalize(p)
    decreases p, 1
  {
    hide SortByEncoding, Dedup, Flatten, NormalizeAll;
    var flat := FlattenMembers(p, conj);
    var unique := DedupByEncoding(flat);
    unique := SortByEncoding(unique);
    if |unique| == 1 {
      return unique[0];
    }
    return Rebuild(conj, unique);
  }

  lemma FlattenStep(conj: bool, ms: seq<Policy>, i: nat)
    requires i < |ms|
    ensures Flatten(conj, NormalizeAll(ms[..i + 1])) == Flatten(conj, NormalizeAll(ms[..i])) + Pieces(conj, Normalize(ms[i]))
  {
    hide Normalize, Pieces;
    assert ms[..i + 1][..i] == ms[..i];
    assert NormalizeAll(ms[..i + 1])[..i] == NormalizeAll(ms[..i]);
  }

  /** Normalises the members and splices those of the same kind. */
  method FlattenMembers(p: Policy, conj: bool) returns (flat: seq<Policy>)
    requires Is(conj, p)
    ensures flat == Flatten(conj, NormalizeAll(p.members))
    decreases p, 0
  {
    hide Normalize, Flatten, NormalizeAll;
    var ms := p.members;
    flat := [];
    NothingFlat(conj, ms);
    for i := 0 to |ms|
      invariant flat == Flatten(conj, NormalizeAll(ms[..i]))
    {
      var normalized := NormalizeNode(ms[i]);
      FlattenStep(conj, ms, i);
      flat := flat + Pieces(conj, normalized);
    }
    assert ms[..|ms|] == ms;
  }

  lemma NothingFlat(conj: bool, ms: seq<Policy>)
    ensures Flatten(conj, NormalizeAll(ms[..0])) == []
  {
  }

  method DedupByEncoding(flat: seq<Policy>) returns (unique: seq<Policy>)
    ensures unique == Dedup(flat)
  {
    hide Encode;
    unique := [];
    for i := 0 to |flat|
      invariant unique == Dedup(flat[..i])
    {
      assert flat[..i + 1][..i] == flat[..i];
      if !Listed(Encode(flat[i]), unique) {
        unique := unique + [flat[i]];
      }
    }
    assert flat[..|flat|] == flat;
  }
}
