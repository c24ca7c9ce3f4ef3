/** What normalising does to the validation limits: sizes and depth never grow, and a valid policy
    has a valid normal form exactly when two guards hold. */
module PolicyLimits {
  import opened NumberTheory
  import opened BigEndian
  import opened Codec
  import opened Policies
  import opened PolicyEncoding
  import opened PolicyValidation
  import opened PolicyNormal
  import opened PolicyNormalLaws
  import opened PolicyEdits

  // ---- sums over members -------------------------------------------------------------------------------

  function SumOver(f: Policy -> nat, ms: seq<Policy>): nat {
    if ms == [] then 0 else SumOver(f, ms[..|ms| - 1]) + f(ms[|ms| - 1])
  }

  /** A measure that adds a constant at every inner node. */
  ghost predicate Additive(f: Policy -> nat, own: nat) {
    forall p: Policy :: !p.IsLeaf() ==> f(p) == own + SumOver(f, p.members)
  }

  lemma {:induction false} SumOfConcat(f: Policy -> nat, a: seq<Policy>, b: seq<Policy>)
    ensures SumOver(f, a + b) == SumOver(f, a) + SumOver(f, b)
  {
    if b == [] {
      assert a + b == a;
    } else {
      var n := |b| - 1;
      SumOfConcat(f, a, b[..n]);
      assert (a + b)[..|a| + n] == a + b[..n];
    }
  }

  lemma SumOfOne(f: Policy -> nat, x: Policy)
    ensures SumOver(f, [x]) == f(x)
  {
    assert [x][..0] == [];
  }

  lemma {:induction false} SumOfInsert(f: Policy -> nat, s: seq<Policy>, x: Policy)
    ensures SumOver(f, Insert(s, x)) == SumOver(f, s) + f(x)
  {
    hide Precedes;
    assert (s + [x])[..|s|] == s;
    if s != [] && Precedes(x, s[|s| - 1]) {
      var n := |s| - 1;
      SumOfInsert(f, s[..n], x);
      assert (Insert(s[..n], x) + [s[n]])[..n + 1] == Insert(s[..n], x);
    }
  }

  lemma {:induction false} SumOfSort(f: Policy -> nat, ms: seq<Policy>)
    ensures SumOver(f, SortByEncoding(ms)) == SumOver(f, ms)
  {
    hide Insert;
    if ms != [] {
      SumOfSort(f, ms[..|ms| - 1]);
      SumOfInsert(f, SortByEncoding(ms[..|ms| - 1]), ms[|ms| - 1]);
    }
  }

  lemma {:induction false} SumOfDedup(f: Policy -> nat, ms: seq<Policy>)
    ensures SumOver(f, Dedup(ms)) <= SumOver(f, ms)
  {
    hide Encode, Listed;
    if ms != [] {
      var n := |ms| - 1;
      SumOfDedup(f, ms[..n]);
      assert (Dedup(ms[..n]) + [ms[n]])[..|Dedup(ms[..n])|] == Dedup(ms[..n]);
    }
  }

  lemma {:induction false} SumOfFlatten(f: Policy -> nat, own: nat, conj: bool, ns: seq<Policy>)
    requires Additive(f, own)
    ensures SumOver(f, Flatten(conj, ns)) <= SumOver(f, ns)
  {
    if ns != [] {
      var n := |ns| - 1;
      SumOfFlatten(f, own, conj, ns[..n]);
      SumOfConcat(f, Flatten(conj, ns[..n]), Pieces(conj, ns[n]));
      SumOfOne(f, ns[n]);
    }
  }

  /** Normalising never increases an additive measure. */
  lemma {:induction false} NormalizeShrinks(f: Policy -> nat, own: nat, p: Policy)
    requires Additive(f, own)
    ensures f(Normalize(p)) <= f(p)
    ensures p.IsLeaf() || SumOver(f, NormalizeAll(p.members)) <= SumOver(f, p.members)
    decreases p, 1
  {
    hide SortByEncoding, Flatten, Dedup, NormalizeAll;
    if !p.IsLeaf() {
      NormalizeAllShrinks(f, own, p, |p.members|);
      assert p.members[..|p.members|] == p.members;
      var ns := NormalizeAll(p.members);
      if p.Threshold? {
        SumOfSort(f, ns);
      } else {
        var flat := Flatten(p.And?, ns);
        SumOfFlatten(f, own, p.And?, ns);
        SumOfDedup(f, flat);
        SumOfSort(f, Dedup(flat));
        var u := Arrange(p.And?, ns);
        if |u| == 1 {
          SumOfOne(f, u[0]);
        }
      }
    }
  }

  lemma {:induction false} NormalizeAllShrinks(f: Policy -> nat, own: nat, p: Policy, i: nat)
    requires Additive(f, own) && !p.IsLeaf() && i <= |p.members|
    ensures SumOver(f, NormalizeAll(p.members[..i])) <= SumOver(f, p.members[..i])
    decreases p, 0, i
  {
    hide Normalize, Additive;
    if i > 0 {
      NormalizeAllShrinks(f, own, p, i - 1);
      NormalizeShrinks(f, own, p.members[i - 1]);
      assert p.members[..i][..i - 1] == p.members[..i - 1];
      assert NormalizeAll(p.members[..i])[..i - 1] == NormalizeAll(p.members[..i - 1]);
    }
  }

  lemma {:induction false} SumOfCounts(ms: seq<Policy>)
    ensures SumOver(Nodes, ms) == NodesOf(ms) && SumOver(Credentials, ms) == CredentialsOf(ms)
  {
    hide Nodes, Credentials;
    if ms != [] {
      SumOfCounts(ms[..|ms| - 1]);
    }
  }

  lemma CountsAdditive()
    ensures Additive(Nodes, 1) && Additive(Credentials, 0)
  {
    forall p: Policy | !p.IsLeaf()
      ensures Nodes(p) == 1 + SumOver(Nodes, p.members) && Credentials(p) == SumOver(Credentials, p.members)
    {
      SumOfCounts(p.members);
    }
  }

  /** Neither the nodes nor the credential leaves of a policy grow. */
  lemma CountsShrink(p: Policy)
    ensures Nodes(Normalize(p)) <= Nodes(p) && Credentials(Normalize(p)) <= Credentials(p)
  {
    hide Nodes, Credentials, Additive, Normalize;
    CountsAdditive();
    NormalizeShrinks(Nodes, 1, p);
    NormalizeShrinks(Credentials, 0, p);
  }

  // ---- depth -------------------------------------------------------------------------------------------

  lemma {:induction false} DeeperFits(p: Policy, a: int, b: int)
    requires FitsDepth(p, a) && a <= b
    ensures FitsDepth(p, b)
    decreases p
  {
    if !p.IsLeaf() {
      forall i | 0 <= i < |p.members|
        ensures FitsDepth(p.members[i], b - 1)
      {
        DeeperFits(p.members[i], a - 1, b - 1);
      }
    }
  }

  /** Every arranged member is a normal member, or a member of one of the same kind. */
  lemma ArrangedFrom(conj: bool, ns: seq<Policy>, x: Policy) returns (i: nat)
    requires x in Arrange(conj, ns)
    ensures i < |ns| && x in Pieces(conj, ns[i])
  {
    hide Flatten, Arrange, Pieces;
    ArrangeHas(conj, ns);
    FlattenHas(conj, ns, x);
    i :| 0 <= i < |ns| && x in Pieces(conj, ns[i]);
  }

  /** The depth of a policy does not grow. */
  lemma {:induction false} DepthShrinks(p: Policy, levels: int)
    requires FitsDepth(p, levels)
    ensures FitsDepth(Normalize(p), levels)
    decreases p
  {
    hide SortByEncoding, Arrange;
    if !p.IsLeaf() {
      var ns := NormalizeAll(p.members);
      forall i | 0 <= i < |ns|
        ensures FitsDepth(ns[i], levels - 1)
      {
        DepthShrinks(p.members[i], levels - 1);
      }
      if p.Threshold? {
        SameElements(SortByEncoding(ns), ns);
        forall i | 0 <= i < |ns|
          ensures FitsDepth(SortByEncoding(ns)[i], levels - 1)
        {
          assert SortByEncoding(ns)[i] in ns;
        }
      } else {
        ArrangedDepth(p.And?, ns, levels);
      }
    }
  }

  lemma ArrangedDepth(conj: bool, ns: seq<Policy>, levels: int)
    requires levels >= 0 && forall i :: 0 <= i < |ns| ==> FitsDepth(ns[i], levels - 1)
    ensures FitsDepth(Collapse(conj, Arrange(conj, ns)), levels)
  {
    hide Arrange;
    var u := Arrange(conj, ns);
    forall k | 0 <= k < |u|
      ensures FitsDepth(u[k], levels - 1)
    {
      var i := ArrangedFrom(conj, ns, u[k]);
      if Is(conj, ns[i]) {
        var j :| 0 <= j < |ns[i].members| && ns[i].members[j] == u[k];
        DeeperFits(u[k], levels - 2, levels - 1);
      }
    }
    if |u| == 1 {
      DeeperFits(u[0], levels - 1, levels);
    }
  }

  // ---- shape -------------------------------------------------------------------------------------------

  /** The two guards: the normal members of every threshold are different credentials, and no
      flattened combinator has too many members. */
  predicate KeepsLimits(p: Policy)
    decreases p
  {
    match p
    case Threshold(_, ms) => DistinctCredentials(NormalizeAll(ms)) && forall i :: 0 <= i < |ms| ==> KeepsLimits(ms[i])
    case And(ms) => |Arrange(true, NormalizeAll(ms))| <= MAX_COMBINATOR_CHILDREN && forall i :: 0 <= i < |ms| ==> KeepsLimits(ms[i])
    case Or(ms) => |Arrange(false, NormalizeAll(ms))| <= MAX_COMBINATOR_CHILDREN && forall i :: 0 <= i < |ms| ==> KeepsLimits(ms[i])
    case _ => true
  }

  lemma {:induction false} TwiceInMultiset(ms: seq<Policy>, x: Policy)
    ensures multiset(ms)[x] >= 2 <==> exists i, j :: 0 <= i < j < |ms| && ms[i] == ms[j] == x
  {
    if ms != [] {
      var n := |ms| - 1;
      TwiceInMultiset(ms[..n], x);
      assert ms == ms[..n] + [ms[n]];
      if ms[n] == x && multiset(ms[..n])[x] >= 1 {
        assert x in ms[..n];
        var i :| 0 <= i < n && ms[..n][i] == x;
        assert ms[i] == ms[n] == x;
      }
      if exists i, j :: 0 <= i < j < |ms| && ms[i] == ms[j] == x {
        var i, j :| 0 <= i < j < |ms| && ms[i] == ms[j] == x;
        assert ms[..n][i] == x;
        if j < n {
          assert ms[..n][j] == x;
        }
      }
    }
  }

  lemma DistinctByMultiset(a: seq<Policy>, b: seq<Policy>)
    requires multiset(a) == multiset(b) && DistinctCredentials(a)
    ensures DistinctCredentials(b)
  {
    forall i, j | 0 <= i < j < |b| && b[i].Credential?
      ensures b[j] != b[i]
    {
      TwiceInMultiset(a, b[i]);
      TwiceInMultiset(b, b[i]);
    }
  }

  /** Distinct entries that all occur in another list are no more than its entries. */
  lemma {:induction false} DistinctInto(a: seq<Policy>, b: seq<Policy>)
    requires forall i, j :: 0 <= i < j < |a| ==> a[i] != a[j]
    requires forall x :: x in a ==> x in b
    ensures |a| <= |b|
  {
    if a != [] {
      var n := |a| - 1;
      assert a[n] in b;
      var i :| 0 <= i < |b| && b[i] == a[n];
      forall x | x in a[..n]
        ensures x in Without(b, i)
      {
        assert x in b && x != b[i];
        var k :| 0 <= k < |b| && b[k] == x;
        assert k < i ==> Without(b, i)[k] == x;
        assert k > i ==> Without(b, i)[k - 1] == x;
      }
      DistinctInto(a[..n], Without(b, i));
    }
  }

  /** No combinator or threshold anywhere is empty. */
  predicate Inhabited(p: Policy)
    decreases p
  {
    p.IsLeaf() || (p.members != [] && forall i :: 0 <= i < |p.members| ==> Inhabited(p.members[i]))
  }

  lemma {:induction false} ShapedIsInhabited(p: Policy)
    requires WellShaped(p)
    ensures Inhabited(p)
    decreases p
  {
    if !p.IsLeaf() {
      forall i | 0 <= i < |p.members|
        ensures Inhabited(p.members[i])
      {
        ShapedIsInhabited(p.members[i]);
      }
    }
  }

  lemma ArrangeNotEmpty(conj: bool, ns: seq<Policy>)
    requires ns != [] && Pieces(conj, ns[|ns| - 1]) != []
    ensures Arrange(conj, ns) != []
  {
    hide Encode;
    var flat := Flatten(conj, ns);
    assert flat == Flatten(conj, ns[..|ns| - 1]) + Pieces(conj, ns[|ns| - 1]);
    assert |flat| > 0;
    assert |Dedup(flat)| > 0;
  }

  lemma {:induction false} NormalIsInhabited(p: Policy)
    requires Inhabited(p)
    ensures Inhabited(Normalize(p))
    decreases p
  {
    hide Arrange, SortByEncoding;
    if !p.IsLeaf() {
      var ns := NormalizeAll(p.members);
      forall i | 0 <= i < |ns|
        ensures Inhabited(ns[i])
      {
        NormalIsInhabited(p.members[i]);
      }
      if p.Threshold? {
        SameElements(SortByEncoding(ns), ns);
        forall i | 0 <= i < |ns|
          ensures Inhabited(SortByEncoding(ns)[i])
        {
          assert SortByEncoding(ns)[i] in ns;
        }
      } else {
        var u := Arrange(p.And?, ns);
        ArrangeNotEmpty(p.And?, ns);
        forall k | 0 <= k < |u|
          ensures Inhabited(u[k])
        {
          var i := ArrangedFrom(p.And?, ns, u[k]);
        }
      }
    }
  }

  /** The members a combinator is left with are well-shaped exactly when the normal members are,
      provided they are not too many. */
  lemma ArrangedShape(conj: bool, ns: seq<Policy>)
    requires AllEncodable(ns) && ns != [] && |Arrange(conj, ns)| <= MAX_COMBINATOR_CHILDREN
    requires forall i :: 0 <= i < |ns| ==> NormalForm(ns[i]) && Inhabited(ns[i])
    ensures (forall k :: 0 <= k < |Arrange(conj, ns)| ==> WellShaped(Arrange(conj, ns)[k])) <==>
            forall i :: 0 <= i < |ns| ==> WellShaped(ns[i])
  {
    hide Arrange, Encodable, NormalForm, Inhabited;
    var u := Arrange(conj, ns);
    if forall i :: 0 <= i < |ns| ==> WellShaped(ns[i]) {
      forall k | 0 <= k < |u|
        ensures WellShaped(u[k])
      {
        var i := ArrangedFrom(conj, ns, u[k]);
      }
    }
    if forall k :: 0 <= k < |u| ==> WellShaped(u[k]) {
      forall i | 0 <= i < |ns|
        ensures WellShaped(ns[i])
      {
        PiecesArranged(conj, ns, i);
        forall x | x in Pieces(conj, ns[i])
          ensures WellShaped(x)
        {
          assert x in u;
        }
        if Is(conj, ns[i]) {
          NestedShape(conj, ns[i], u);
        } else {
          assert ns[i] in Pieces(conj, ns[i]);
        }
      }
    }
  }

  lemma PiecesArranged(conj: bool, ns: seq<Policy>, i: nat)
    requires AllEncodable(ns) && i < |ns|
    ensures forall x :: x in Pieces(conj, ns[i]) ==> x in Arrange(conj, ns)
  {
    hide Arrange, Encodable, Flatten, Pieces;
    PiecesEncodable(conj, ns);
    ArrangeHas(conj, ns);
    forall x | x in Pieces(conj, ns[i])
      ensures x in Flatten(conj, ns)
    {
      FlattenHas(conj, ns, x);
    }
  }

  lemma NestedShape(conj: bool, n: Policy, u: seq<Policy>)
    requires Is(conj, n) && NormalForm(n) && Inhabited(n) && |u| <= MAX_COMBINATOR_CHILDREN
    requires forall x :: x in n.members ==> x in u && WellShaped(x)
    ensures WellShaped(n)
  {
    hide NormalForm, WellShaped, Precedes;
    MembersDiffer(conj, n);
    DistinctInto(n.members, u);
    CombinatorShape(conj, n);
    assert forall i :: 0 <= i < |n.members| ==> n.members[i] in n.members;
  }

  lemma MembersDiffer(conj: bool, n: Policy)
    requires Is(conj, n) && NormalForm(n)
    ensures forall i, j :: 0 <= i < j < |n.members| ==> n.members[i] != n.members[j]
  {
    hide Precedes, Encode;
    var ms := n.members;
    forall i, j | 0 <= i < j < |ms|
      ensures ms[i] != ms[j]
    {
      PrecedesTotal(ms[i], ms[j]);
    }
  }

  lemma CombinatorShape(conj: bool, n: Policy)
    requires Is(conj, n)
    ensures WellShaped(n) <==> 1 <= |n.members| <= MAX_COMBINATOR_CHILDREN && forall i :: 0 <= i < |n.members| ==> WellShaped(n.members[i])
    ensures Inhabited(n) ==> n.members != []
  {
  }

  lemma CollapsedShape(conj: bool, u: seq<Policy>)
    requires u != []
    ensures WellShaped(Collapse(conj, u)) ==> |u| <= MAX_COMBINATOR_CHILDREN
    ensures |u| <= MAX_COMBINATOR_CHILDREN ==>
              (WellShaped(Collapse(conj, u)) <==> forall k :: 0 <= k < |u| ==> WellShaped(u[k]))
  {
    hide WellShaped;
    if |u| > 1 {
      CombinatorShape(conj, Rebuild(conj, u));
    }
  }

  /** A well-shaped policy has a well-shaped normal form exactly when the guards hold. */
  lemma {:induction false} ShapeKept(p: Policy)
    requires WellShaped(p) && CountsFit(p)
    ensures WellShaped(Normalize(p)) <==> KeepsLimits(p)
    decreases p, 1
  {
    hide *;
    if p.AmountAtMost? || p.Credential? {
      LeafKept(p);
    } else {
      InnerMembers(p);
      NormalEncodable(p);
      MembersKept(p);
      if p.Threshold? {
        ThresholdKept(p, NormalizeAll(p.members));
      } else {
        CombinatorKept(p, NormalizeAll(p.members));
      }
    }
  }

  lemma LeafKept(p: Policy)
    requires p.AmountAtMost? || p.Credential?
    ensures Normalize(p) == p && KeepsLimits(p)
  {
  }

  lemma InnerMembers(p: Policy)
    requires WellShaped(p) && !p.AmountAtMost? && !p.Credential?
    ensures !p.IsLeaf() && p.members != []
  {
  }

  lemma ThresholdKept(p: Policy, ns: seq<Policy>)
    requires p.Threshold? && WellShaped(p) && ns == NormalizeAll(p.members)
    requires forall i :: 0 <= i < |ns| ==> (WellShaped(ns[i]) <==> KeepsLimits(p.members[i]))
    ensures WellShaped(Normalize(p)) <==> KeepsLimits(p)
  {
    hide SortByEncoding, DistinctCredentials;
    ThresholdShape(p.k, ns);
  }

  lemma {:induction false} MembersKept(p: Policy)
    requires WellShaped(p) && CountsFit(p) && !p.IsLeaf()
    ensures var ns := NormalizeAll(p.members);
            forall i :: 0 <= i < |ns| ==>
              NormalForm(ns[i]) && Inhabited(ns[i]) && (WellShaped(ns[i]) <==> KeepsLimits(p.members[i]))
    decreases p, 0
  {
    MembersFit(p);
    hide Normalize, Inhabited, NormalForm, KeepsLimits, CountsFit;
    forall i | 0 <= i < |p.members|
      ensures NormalForm(Normalize(p.members[i])) && Inhabited(Normalize(p.members[i]))
      ensures WellShaped(Normalize(p.members[i])) <==> KeepsLimits(p.members[i])
    {
      ShapedIsInhabited(p.members[i]);
      NormalIsInhabited(p.members[i]);
      NormalizeIsNormal(p.members[i]);
      ShapeKept(p.members[i]);
    }
  }

  lemma ThresholdShape(k: U16, ns: seq<Policy>)
    requires 1 <= k <= MAX_THRESHOLD_ARITY && k <= |ns| <= MAX_THRESHOLD_MEMBERS
    ensures WellShaped(Threshold(k, SortByEncoding(ns))) <==>
            DistinctCredentials(ns) && forall i :: 0 <= i < |ns| ==> WellShaped(ns[i])
  {
    hide SortByEncoding;
    var sorted := SortByEncoding(ns);
    SameElements(sorted, ns);
    assert (forall i :: 0 <= i < |ns| ==> WellShaped(ns[i])) <==> (forall x :: x in ns ==> WellShaped(x));
    assert (forall i :: 0 <= i < |sorted| ==> WellShaped(sorted[i])) <==> (forall x :: x in sorted ==> WellShaped(x));
    if DistinctCredentials(ns) {
      DistinctByMultiset(ns, sorted);
    } else if DistinctCredentials(sorted) {
      DistinctByMultiset(sorted, ns);
    }
  }

  lemma CombinatorKept(p: Policy, ns: seq<Policy>)
    requires (p.And? || p.Or?) && ns == NormalizeAll(p.members) && ns != [] && AllEncodable(ns)
    requires forall i :: 0 <= i < |ns| ==>
               NormalForm(ns[i]) && Inhabited(ns[i]) && (WellShaped(ns[i]) <==> KeepsLimits(p.members[i]))
    ensures WellShaped(Normalize(p)) <==> KeepsLimits(p)
  {
    hide Arrange, Encodable, NormalForm, WellShaped, Collapse;
    var u := Arrange(p.And?, ns);
    LastPieces(p.And?, ns);
    ArrangeNotEmpty(p.And?, ns);
    CollapsedShape(p.And?, u);
    if |u| <= MAX_COMBINATOR_CHILDREN {
      ArrangedShape(p.And?, ns);
    }
  }

  lemma LastPieces(conj: bool, ns: seq<Policy>)
    requires ns != [] && Inhabited(ns[|ns| - 1])
    ensures Pieces(conj, ns[|ns| - 1]) != []
  {
  }

  /** A policy with fewer than 2^32 nodes meets every count, before and after normalising. */
  lemma {:induction false} SmallFits(p: Policy)
    requires Nodes(p) < TWO_32
    ensures CountsFit(p)
    decreases p
  {
    hide Flatten, NormalizeAll, Nodes, NodesOf, Additive, SumOver;
    if !p.IsLeaf() {
      var ms := p.members;
      CountsAdditive();
      SumOfNodes(p);
      NormalizeShrinks(Nodes, 1, p);
      LengthBelowSum(ms);
      SumOfFlatten(Nodes, 1, p.And?, NormalizeAll(ms));
      LengthBelowSum(Flatten(p.And?, NormalizeAll(ms)));
      forall i | 0 <= i < |ms|
        ensures CountsFit(ms[i])
      {
        SumOfCounts(ms);
        PartCounts(ms, i);
        SmallFits(ms[i]);
      }
    }
  }

  lemma SumOfNodes(p: Policy)
    requires !p.IsLeaf()
    ensures SumOver(Nodes, p.members) < Nodes(p)
  {
    SumOfCounts(p.members);
  }

  lemma {:induction false} LengthBelowSum(ms: seq<Policy>)
    ensures |ms| <= SumOver(Nodes, ms)
  {
    hide Nodes;
    if ms != [] {
      LengthBelowSum(ms[..|ms| - 1]);
    }
  }

  lemma ValidPolicyFits(p: Policy)
    requires ValidPolicy(p)
    ensures CountsFit(p)
  {
    hide WellShaped, FitsDepth;
    SmallFits(p);
  }

  /** Normalising keeps a valid policy valid exactly when no threshold is left with two equal
      credentials and no flattened combinator is too long. */
  lemma NormalizingKeepsValidity(p: Policy)
    requires ValidPolicy(p)
    ensures ValidPolicy(Normalize(p)) <==> KeepsLimits(p)
  {
    hide WellShaped, FitsDepth, Nodes, Credentials, Normalize, KeepsLimits;
    ValidPolicyFits(p);
    ShapeKept(p);
    DepthShrinks(p, MAX_POLICY_DEPTH);
    CountsShrink(p);
  }

  // ---- both guards are needed --------------------------------------------------------------------------

  /** The first guard: unwrapping brings two equal credentials side by side under a threshold. */
  lemma NormalizingCanDuplicate(id: CredentialId)
    requires id != Zeros(32)
    ensures var p := Threshold(1, [Credential(id), And([Credential(id)])]);
            ValidPolicy(p) && !ValidPolicy(Normalize(p))
  {
    hide Arrange, Collapse, SortByEncoding, Nodes, Credentials, FitsDepth, WellShaped;
    var c := Credential(id);
    var p := Threshold(1, [c, And([c])]);
    PairValid(id);
    Unwrapping(true, c);
    assert NormalizeAll([c, And([c])])[0] == Normalize(c) == c;
    assert NormalizeAll([c, And([c])])[1] == c;
    NormalizingKeepsValidity(p);
  }

  lemma PairValid(id: CredentialId)
    requires id != Zeros(32)
    ensures ValidPolicy(Threshold(1, [Credential(id), And([Credential(id)])]))
  {
    hide Nodes, Credentials;
    CountsOfPair(id);
    var c := Credential(id);
    assert WellShaped(c) && WellShaped(And([c]));
    assert FitsDepth(c, 98) && FitsDepth(c, 99) && FitsDepth(And([c]), 99);
  }

  lemma CountsOfPair(id: CredentialId)
    ensures var c := Credential(id);
            Nodes(Threshold(1, [c, And([c])])) == 4 && Credentials(Threshold(1, [c, And([c])])) == 2
  {
    var c := Credential(id);
    var one, two := [c], [c, And([c])];
    assert one[..0] == [] && two[..1] == one;
    assert NodesOf(one) == 1 && CredentialsOf(one) == 1;
    assert Nodes(And(one)) == 2 && Credentials(And(one)) == 1;
    assert NodesOf(two) == 3 && CredentialsOf(two) == 2;
  }

  /** Caps on consecutive amounts. */
  function Caps(first: nat, n: nat): (ms: seq<Policy>)
    requires first + n <= 0x1_0000
    ensures |ms| == n && forall i :: 0 <= i < n ==> ms[i] == AmountAtMost(first + i)
  {
    seq(n, i requires 0 <= i < n && first + n <= 0x1_0000 => AmountAtMost(first + i))
  }

  /** The second guard: two conjunctions of 600 different caps each are valid inside a conjunction,
      but flatten to one of 1200. */
  lemma NormalizingCanOverflow()
    ensures var p := And([And(Caps(0, 600)), And(Caps(600, 600))]);
            ValidPolicy(p) && !ValidPolicy(Normalize(p))
  {
    hide Normalize, WellShaped, FitsDepth, Nodes, Credentials, Arrange, Caps;
    var (a, b) := (Caps(0, 600), Caps(600, 600));
    var p := And([And(a), And(b)]);
    CapsValid(a);
    CapsValid(b);
    PairOfValid(And(a), And(b));
    CapsArranged(a, b);
    NormalizingKeepsValidity(p);
  }

  lemma CapsValid(ms: seq<Policy>)
    requires 1 <= |ms| <= MAX_COMBINATOR_CHILDREN && forall i :: 0 <= i < |ms| ==> ms[i].AmountAtMost?
    ensures WellShaped(And(ms)) && FitsDepth(And(ms), 1)
    ensures Nodes(And(ms)) == |ms| + 1 && Credentials(And(ms)) == 0
  {
    CapsCounted(ms);
  }

  lemma {:induction false} CapsCounted(ms: seq<Policy>)
    requires forall i :: 0 <= i < |ms| ==> ms[i].AmountAtMost?
    ensures NodesOf(ms) == |ms| && CredentialsOf(ms) == 0
  {
    if ms != [] {
      CapsCounted(ms[..|ms| - 1]);
    }
  }

  lemma PairOfValid(x: Policy, y: Policy)
    requires WellShaped(x) && WellShaped(y) && FitsDepth(x, 1) && FitsDepth(y, 1)
    requires Nodes(x) + Nodes(y) < MAX_POLICY_NODES && Credentials(x) + Credentials(y) <= MAX_CREDENTIAL_COUNT
    ensures ValidPolicy(And([x, y]))
  {
    hide WellShaped, FitsDepth, Nodes, Credentials;
    DeeperFits(x, 1, 99);
    DeeperFits(y, 1, 99);
    CombinatorShape(true, And([x, y]));
    PairCounts(x, y);
  }

  lemma PairCounts(x: Policy, y: Policy)
    ensures Nodes(And([x, y])) == 1 + Nodes(x) + Nodes(y) && Credentials(And([x, y])) == Credentials(x) + Credentials(y)
    ensures FitsDepth(x, 99) && FitsDepth(y, 99) ==> FitsDepth(And([x, y]), 100)
  {
    assert [x, y] == [x] + [y];
    SumOfConcat(Nodes, [x], [y]);
    SumOfConcat(Credentials, [x], [y]);
    SumOfOne(Nodes, x);
    SumOfOne(Nodes, y);
    SumOfOne(Credentials, x);
    SumOfOne(Credentials, y);
    SumOfCounts([x, y]);
  }

  lemma CapsArranged(a: seq<Policy>, b: seq<Policy>)
    requires forall i :: 0 <= i < |a + b| ==> (a + b)[i].AmountAtMost?
    requires forall i, j :: 0 <= i < j < |a + b| ==> (a + b)[i] != (a + b)[j]
    requires |a| < TWO_32 && |b| < TWO_32
    ensures |Arrange(true, NormalizeAll([And(a), And(b)]))| >= |a + b|
  {
    hide Arrange, Normalize;
    var ns := NormalizeAll([And(a), And(b)]);
    assert forall i :: 0 <= i < |a| ==> (a + b)[i] == a[i];
    assert forall i :: 0 <= i < |b| ==> (a + b)[|a| + i] == b[i];
    CapsInNormal(a);
    CapsInNormal(b);
    assert ns[0] == Normalize(And(a)) && ns[1] == Normalize(And(b));
    assert AllEncodable(ns);
    PiecesArranged(true, ns, 0);
    PiecesArranged(true, ns, 1);
    DistinctInto(a + b, Arrange(true, ns));
  }

  lemma CapsInNormal(ms: seq<Policy>)
    requires (forall i :: 0 <= i < |ms| ==> ms[i].AmountAtMost?) && |ms| < TWO_32
    ensures Encodable(Normalize(And(ms)))
    ensures forall x :: x in ms ==> x in Pieces(true, Normalize(And(ms)))
  {
    hide Arrange, Collapse;
    assert NormalizeAll(ms) == ms;
    FlattenFixed(true, ms);
    ArrangeHas(true, ms);
    PiecesOfNormal(true, ms);
    NormalEncodable(And(ms));
  }
}
