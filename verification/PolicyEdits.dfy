/** The edits that normalisation forgets: two policies share a normal form exactly when such edits
    turn one into the other. */
module PolicyEdits {
  import opened NumberTheory
  import opened Codec
  import opened Policies
  import opened PolicyEncoding
  import opened PolicyNormal
  import opened PolicyNormalLaws

  // ---- edits that normalisation forgets ----------------------------------------------------------------

  /** A member of a list contributes x to the flattened normal members. */
  ghost predicate Contributes(conj: bool, ms: seq<Policy>, x: Policy) {
    exists m :: m in ms && x in Pieces(conj, Normalize(m))
  }

  lemma FlattenContributes(conj: bool, ms: seq<Policy>, x: Policy)
    ensures x in Flatten(conj, NormalizeAll(ms)) <==> Contributes(conj, ms, x)
  {
    hide Flatten, Pieces;
    FlattenHas(conj, NormalizeAll(ms), x);
    assert forall i :: 0 <= i < |ms| ==> ms[i] in ms;
  }

  /** Order and repetition of members do not matter. */
  lemma Rearranging(conj: bool, ms: seq<Policy>, ns: seq<Policy>)
    requires CountsFit(Rebuild(conj, ms)) && CountsFit(Rebuild(conj, ns))
    requires forall x :: x in ms <==> x in ns
    ensures Normalize(Rebuild(conj, ms)) == Normalize(Rebuild(conj, ns))
  {
    hide Flatten, Normalize, CountsFit, Pieces;
    SameCombinator(conj, ms, ns);
    forall x
      ensures x in Flatten(conj, NormalizeAll(ms)) <==> x in Flatten(conj, NormalizeAll(ns))
    {
      FlattenContributes(conj, ms, x);
      FlattenContributes(conj, ns, x);
    }
  }

  /** A nested combinator of the same kind may be spliced into its parent. */
  lemma Splicing(conj: bool, before: seq<Policy>, inner: seq<Policy>, after: seq<Policy>)
    requires CountsFit(Rebuild(conj, before + [Rebuild(conj, inner)] + after))
    requires CountsFit(Rebuild(conj, inner)) && CountsFit(Rebuild(conj, before + inner + after))
    ensures Normalize(Rebuild(conj, before + [Rebuild(conj, inner)] + after))
         == Normalize(Rebuild(conj, before + inner + after))
  {
    hide Flatten, Normalize, NormalizeAll, CountsFit, Pieces, Arrange, Encodable;
    var nested := Rebuild(conj, inner);
    var ms, ns := before + [nested] + after, before + inner + after;
    SameCombinator(conj, ms, ns);
    NormalEncodable(nested);
    PiecesEncodable(conj, NormalizeAll(inner));
    ArrangeHas(conj, NormalizeAll(inner));
    PiecesOfNormal(conj, inner);
    forall x
      ensures x in Flatten(conj, NormalizeAll(ms)) <==> x in Flatten(conj, NormalizeAll(ns))
    {
      FlattenContributes(conj, ms, x);
      FlattenContributes(conj, ns, x);
      FlattenContributes(conj, inner, x);
      assert Contributes(conj, ms, x) <==>
             Contributes(conj, before, x) || x in Pieces(conj, Normalize(nested)) || Contributes(conj, after, x);
      assert Contributes(conj, ns, x) <==>
             Contributes(conj, before, x) || Contributes(conj, inner, x) || Contributes(conj, after, x);
    }
  }

  lemma FlattenOne(conj: bool, n: Policy)
    ensures Flatten(conj, [n]) == Pieces(conj, n)
  {
    assert [n][..0] == [];
    assert Flatten(conj, []) == [];
  }

  lemma ArrangeOne(conj: bool, n: Policy)
    requires NormalForm(n)
    ensures Arrange(conj, [n]) == if Is(conj, n) then n.members else [n]
  {
    hide SortByEncoding, Dedup, Flatten, Precedes;
    FlattenOne(conj, n);
    if Is(conj, n) {
      ArrangeFixed(conj, n.members);
      FlattenFixed(conj, n.members);
    } else {
      ArrangeFixed(conj, [n]);
    }
  }

  /** A combinator around a single policy disappears. */
  lemma Unwrapping(conj: bool, m: Policy)
    ensures Normalize(Rebuild(conj, [m])) == Normalize(m)
  {
    hide Arrange, StrictlyOrdered;
    NormalizeIsNormal(m);
    ArrangeOne(conj, Normalize(m));
    assert NormalizeAll([m]) == [Normalize(m)];
  }

  /** How one policy is edited into another. */
  datatype Edit =
    | Nothing
    | Then(first: Edit, between: Policy, second: Edit)
    | Undo(edit: Edit)
    | Inside(edits: seq<Edit>)
    | Rearrange
    | Splice(at: nat)
    | Unwrap

  ghost predicate Edits(e: Edit, p: Policy, q: Policy)
    decreases e
  {
    match e
    case Nothing => p == q
    case Then(first, between, second) => CountsFit(between) && Edits(first, p, between) && Edits(second, between, q)
    case Undo(edit) => Edits(edit, q, p)
    case Inside(edits) =>
      && !p.IsLeaf() && !q.IsLeaf() && Tag(p) == Tag(q) && (p.Threshold? ==> p.k == q.k)
      && |p.members| == |q.members| == |edits|
      && forall i :: 0 <= i < |edits| ==> Edits(edits[i], p.members[i], q.members[i])
    case Rearrange =>
      && !p.IsLeaf() && !q.IsLeaf() && Tag(p) == Tag(q)
      && if p.Threshold? then p.k == q.k && multiset(p.members) == multiset(q.members)
         else forall x :: x in p.members <==> x in q.members
    case Splice(at) =>
      && (p.And? || p.Or?) && at < |p.members| && Tag(p.members[at]) == Tag(p)
      && q == Rebuild(p.And?, p.members[..at] + p.members[at].members + p.members[at + 1..])
    case Unwrap => (p.And? || p.Or?) && p.members == [q]
  }

  /** Normalising commutes with removing a member. */
  lemma NormalizeWithout(ms: seq<Policy>, i: nat)
    requires i < |ms|
    ensures Normalize(ms[i]) in multiset(NormalizeAll(ms))
    ensures multiset(NormalizeAll(Without(ms, i))) == multiset(NormalizeAll(ms)) - multiset{Normalize(ms[i])}
  {
    hide Normalize, NormalizeAll, Without;
    WithoutMultiset(NormalizeAll(ms), i);
    NormalizeAllWithout(ms, i);
  }

  lemma WithoutIndex(s: seq<Policy>, i: nat)
    requires i < |s|
    ensures |Without(s, i)| == |s| - 1
    ensures forall k :: 0 <= k < |s| - 1 ==> Without(s, i)[k] == s[if k < i then k else k + 1]
  {
  }

  lemma NormalizeAllWithout(ms: seq<Policy>, i: nat)
    requires i < |ms|
    ensures NormalizeAll(Without(ms, i)) == Without(NormalizeAll(ms), i)
  {
    hide Normalize, NormalizeAll, Without;
    WithoutIndex(ms, i);
    WithoutIndex(NormalizeAll(ms), i);
    assert |NormalizeAll(Without(ms, i))| == |Without(NormalizeAll(ms), i)|;
    forall k | 0 <= k < |ms| - 1
      ensures NormalizeAll(Without(ms, i))[k] == Without(NormalizeAll(ms), i)[k]
    {
      var j := if k < i then k else k + 1;
      assert Without(ms, i)[k] == ms[j] && Without(NormalizeAll(ms), i)[k] == NormalizeAll(ms)[j];
    }
  }

  lemma {:induction false} NormalizeAllMultiset(ms: seq<Policy>, ns: seq<Policy>)
    requires multiset(ms) == multiset(ns)
    ensures multiset(NormalizeAll(ms)) == multiset(NormalizeAll(ns))
    decreases |ms|
  {
    hide Normalize, NormalizeAll, Without;
    assert |ms| == |multiset(ms)| == |multiset(ns)| == |ns|;
    if ms == [] {
      assert ns == [];
    } else {
      var n := |ms| - 1;
      var i := FindIn(ms, ns);
      WithoutMultiset(ms, n);
      WithoutMultiset(ns, i);
      WithoutIndex(ms, n);
      NormalizeAllMultiset(Without(ms, n), Without(ns, i));
      NormalizeWithout(ms, n);
      NormalizeWithout(ns, i);
      SameAfterRemoval(multiset(NormalizeAll(ms)), multiset(NormalizeAll(ns)), Normalize(ms[n]));
    }
  }

  lemma FindIn(ms: seq<Policy>, ns: seq<Policy>) returns (i: nat)
    requires multiset(ms) == multiset(ns) && ms != []
    ensures i < |ns| && ns[i] == ms[|ms| - 1]
  {
    SameElements(ms, ns);
    assert ms[|ms| - 1] in ns;
    i :| 0 <= i < |ns| && ns[i] == ms[|ms| - 1];
  }

  lemma InsideKeeps(p: Policy, q: Policy)
    requires !p.IsLeaf() && !q.IsLeaf() && Tag(p) == Tag(q) && (p.Threshold? ==> p.k == q.k)
    requires NormalizeAll(p.members) == NormalizeAll(q.members)
    ensures Normalize(p) == Normalize(q)
  {
    hide NormalizeAll, SortByEncoding, Arrange, Collapse;
  }

  lemma MembersFit(p: Policy)
    requires CountsFit(p) && !p.IsLeaf()
    ensures forall i :: 0 <= i < |p.members| ==> CountsFit(p.members[i])
  {
    hide NormalizeAll, Flatten;
  }

  lemma RearrangeKeeps(p: Policy, q: Policy)
    requires Edits(Rearrange, p, q) && CountsFit(p) && CountsFit(q)
    ensures Normalize(p) == Normalize(q)
  {
    hide Normalize, NormalizeAll, CountsFit;
    if p.Threshold? {
      NormalizeAllMultiset(p.members, q.members);
      SameThreshold(p.k, p.members, q.k, q.members);
    } else {
      Rearranging(p.And?, p.members, q.members);
    }
  }

  lemma SpliceKeeps(at: nat, p: Policy, q: Policy)
    requires Edits(Splice(at), p, q) && CountsFit(p) && CountsFit(q)
    ensures Normalize(p) == Normalize(q)
  {
    hide Normalize, NormalizeAll, CountsFit;
    var ms := p.members;
    MembersFit(p);
    assert ms == ms[..at] + [ms[at]] + ms[at + 1..];
    Splicing(p.And?, ms[..at], ms[at].members, ms[at + 1..]);
  }

  /** Any sequence of such edits, at any depth, leaves the normal form alone. */
  lemma {:induction false} EditsKeepNormalForm(e: Edit, p: Policy, q: Policy)
    requires Edits(e, p, q) && CountsFit(p) && CountsFit(q)
    ensures Normalize(p) == Normalize(q)
    decreases e
  {
    hide Normalize, NormalizeAll, CountsFit;
    match e {
      case Nothing =>
      case Then(first, between, second) =>
        EditsKeepNormalForm(first, p, between);
        EditsKeepNormalForm(second, between, q);
      case Undo(edit) =>
        EditsKeepNormalForm(edit, q, p);
      case Inside(edits) =>
        MembersFit(p);
        MembersFit(q);
        forall i | 0 <= i < |edits|
          ensures Normalize(p.members[i]) == Normalize(q.members[i])
        {
          EditsKeepNormalForm(edits[i], p.members[i], q.members[i]);
        }
        InsideKeeps(p, q);
      case Rearrange =>
        RearrangeKeeps(p, q);
      case Splice(at) =>
        SpliceKeeps(at, p, q);
      case Unwrap =>
        Unwrapping(p.And?, q);
    }
  }

  // ---- every policy is edited into its normal form -----------------------------------------------------

  lemma {:induction false} FlattenConcat(conj: bool, a: seq<Policy>, b: seq<Policy>)
    ensures Flatten(conj, a + b) == Flatten(conj, a) + Flatten(conj, b)
  {
    hide Pieces;
    if b == [] {
      assert a + b == a;
    } else {
      var n := |b| - 1;
      FlattenConcat(conj, a, b[..n]);
      assert (a + b)[..|a| + n] == a + b[..n];
    }
  }

  predicate AllNormal(ns: seq<Policy>) {
    forall i :: 0 <= i < |ns| ==> NormalForm(ns[i]) && CountsFit(ns[i])
  }

  lemma NormalAll(ns: seq<Policy>)
    requires AllNormal(ns)
    ensures NormalizeAll(ns) == ns
  {
    hide NormalForm, Normalize, CountsFit;
    forall i | 0 <= i < |ns|
      ensures Normalize(ns[i]) == ns[i]
    {
      NormalFormFixed(ns[i]);
    }
  }

  lemma RebuiltFits(conj: bool, ns: seq<Policy>)
    requires AllNormal(ns) && |Flatten(conj, ns)| < TWO_32
    ensures CountsFit(Rebuild(conj, ns))
  {
    hide NormalForm, Flatten, NormalizeAll;
    NormalAll(ns);
  }

  lemma PiecesNormal(conj: bool, n: Policy, x: Policy)
    requires NormalForm(n) && CountsFit(n) && x in Pieces(conj, n)
    ensures NormalForm(x) && CountsFit(x) && !Is(conj, x)
  {
    hide StrictlyOrdered;
    if Is(conj, n) {
      MembersFit(n);
      var i :| 0 <= i < |n.members| && n.members[i] == x;
    }
  }

  /** Flattening once is enough. */
  lemma FlatIsFlat(conj: bool, ns: seq<Policy>)
    requires AllNormal(ns)
    ensures AllNormal(Flatten(conj, ns)) && Flatten(conj, Flatten(conj, ns)) == Flatten(conj, ns)
  {
    hide NormalForm, CountsFit, Pieces;
    var flat := Flatten(conj, ns);
    forall i | 0 <= i < |flat|
      ensures NormalForm(flat[i]) && CountsFit(flat[i]) && !Is(conj, flat[i])
    {
      FlattenHas(conj, ns, flat[i]);
      var j :| 0 <= j < |ns| && flat[i] in Pieces(conj, ns[j]);
      PiecesNormal(conj, ns[j], flat[i]);
    }
    FlattenFixed(conj, flat);
  }

  /** The first i members spliced, the others still in place. */
  function PartlySpliced(conj: bool, ns: seq<Policy>, i: nat): seq<Policy>
    requires i <= |ns|
  {
    Flatten(conj, ns[..i]) + ns[i..]
  }

  lemma PartlySplicedFits(conj: bool, ns: seq<Policy>, i: nat)
    requires AllNormal(ns) && |Flatten(conj, ns)| < TWO_32 && i <= |ns|
    ensures CountsFit(Rebuild(conj, PartlySpliced(conj, ns, i)))
  {
    hide NormalForm, CountsFit, Flatten;
    FlatIsFlat(conj, ns[..i]);
    FlattenConcat(conj, Flatten(conj, ns[..i]), ns[i..]);
    FlattenConcat(conj, ns[..i], ns[i..]);
    assert ns[..i] + ns[i..] == ns;
    RebuiltFits(conj, PartlySpliced(conj, ns, i));
  }

  lemma SpliceStep(conj: bool, ns: seq<Policy>, i: nat)
    requires 0 < i <= |ns|
    ensures PartlySpliced(conj, ns, i) == Flatten(conj, ns[..i - 1]) + Pieces(conj, ns[i - 1]) + ns[i..]
    ensures PartlySpliced(conj, ns, i - 1) == Flatten(conj, ns[..i - 1]) + [ns[i - 1]] + ns[i..]
  {
    assert ns[..i][..i - 1] == ns[..i - 1];
  }

  lemma {:induction false} SpliceMembers(conj: bool, ns: seq<Policy>, i: nat) returns (e: Edit)
    requires AllNormal(ns) && |Flatten(conj, ns)| < TWO_32 && i <= |ns|
    ensures Edits(e, Rebuild(conj, ns), Rebuild(conj, PartlySpliced(conj, ns, i)))
  {
    hide NormalForm, CountsFit, Flatten, AllNormal;
    if i == 0 {
      NothingSpliced(conj, ns);
      e := Nothing;
    } else {
      var first := SpliceMembers(conj, ns, i - 1);
      var mid := Rebuild(conj, PartlySpliced(conj, ns, i - 1));
      SpliceStep(conj, ns, i);
      if Is(conj, ns[i - 1]) {
        PartlySplicedFits(conj, ns, i - 1);
        SplicedOnce(conj, Flatten(conj, ns[..i - 1]), ns[i - 1], ns[i..]);
        e := Then(first, mid, Splice(|Flatten(conj, ns[..i - 1])|));
      } else {
        e := first;
      }
    }
  }

  lemma NothingSpliced(conj: bool, ns: seq<Policy>)
    ensures PartlySpliced(conj, ns, 0) == ns
  {
    assert ns[..0] == [] && Flatten(conj, []) == [];
  }

  lemma SplicedOnce(conj: bool, before: seq<Policy>, n: Policy, after: seq<Policy>)
    requires Is(conj, n)
    ensures Edits(Splice(|before|), Rebuild(conj, before + [n] + after), Rebuild(conj, before + n.members + after))
  {
    var ms := before + [n] + after;
    assert ms[..|before|] == before && ms[|before|] == n && ms[|before| + 1..] == after;
  }

  /** The normal form has counts that fit, too. */
  lemma {:induction false} NormalFits(p: Policy)
    requires CountsFit(p)
    ensures CountsFit(Normalize(p))
    ensures !p.IsLeaf() ==> AllNormal(NormalizeAll(p.members))
    decreases p
  {
    hide Arrange, Flatten, SortByEncoding, NormalForm;
    if !p.IsLeaf() {
      MembersFit(p);
      var ns := NormalizeAll(p.members);
      forall i | 0 <= i < |ns|
        ensures NormalForm(ns[i]) && CountsFit(ns[i])
      {
        NormalFits(p.members[i]);
        NormalizeIsNormal(p.members[i]);
      }
      if p.Threshold? {
        SameElements(SortByEncoding(ns), ns);
        forall i | 0 <= i < |ns|
          ensures CountsFit(SortByEncoding(ns)[i])
        {
          assert SortByEncoding(ns)[i] in ns;
        }
      } else {
        ArrangedFits(p.And?, ns);
      }
    }
  }

  lemma ArrangedFits(conj: bool, ns: seq<Policy>)
    requires AllNormal(ns) && |Flatten(conj, ns)| < TWO_32
    ensures AllNormal(Arrange(conj, ns)) && CountsFit(Rebuild(conj, Arrange(conj, ns)))
  {
    hide NormalForm, CountsFit, Flatten, Arrange;
    var u := Arrange(conj, ns);
    FlatIsFlat(conj, ns);
    ArrangeHas(conj, ns);
    forall k | 0 <= k < |u|
      ensures NormalForm(u[k]) && CountsFit(u[k]) && !Is(conj, u[k])
    {
      assert u[k] in Flatten(conj, ns);
      FlattenHas(conj, ns, u[k]);
      var j :| 0 <= j < |ns| && u[k] in Pieces(conj, ns[j]);
      PiecesNormal(conj, ns[j], u[k]);
    }
    FlattenFixed(conj, u);
    ArrangeShortens(conj, ns);
    RebuiltFits(conj, u);
  }

  lemma ArrangeShortens(conj: bool, ns: seq<Policy>)
    ensures |Arrange(conj, ns)| <= |Flatten(conj, ns)|
  {
    hide Flatten, Dedup, SortByEncoding;
  }

  lemma ArrangedSame(conj: bool, ns: seq<Policy>)
    requires AllEncodable(ns)
    ensures Edits(Rearrange, Rebuild(conj, Flatten(conj, ns)), Rebuild(conj, Arrange(conj, ns)))
  {
    hide Flatten, Arrange, Encodable;
    PiecesEncodable(conj, ns);
    ArrangeHas(conj, ns);
  }

  /** Edits from a policy to its normal form. */
  lemma {:induction false} EditsToNormal(p: Policy) returns (e: Edit)
    requires CountsFit(p)
    ensures Edits(e, p, Normalize(p))
    decreases p, 1
  {
    hide *;
    if p.AmountAtMost? || p.Credential? {
      e := LeafToNormal(p);
    } else {
      InnerNode(p);
      var es := MembersToNormal(p, |p.members|);
      NormalFits(p);
      NormalEncodable(p);
      if p.Threshold? {
        e := ThresholdToNormal(p, NormalizeAll(p.members), es);
      } else {
        e := CombinatorToNormal(p, NormalizeAll(p.members), es);
      }
    }
  }

  lemma InnerNode(p: Policy)
    ensures p.IsLeaf() <==> p.AmountAtMost? || p.Credential?
  {
  }

  lemma LeafToNormal(p: Policy) returns (e: Edit)
    requires p.AmountAtMost? || p.Credential?
    ensures Edits(e, p, Normalize(p))
  {
    e := Nothing;
  }

  lemma {:induction false} MembersToNormal(p: Policy, i: nat) returns (es: seq<Edit>)
    requires CountsFit(p) && !p.IsLeaf() && i <= |p.members|
    ensures |es| == i && forall j :: 0 <= j < i ==> Edits(es[j], p.members[j], NormalizeAll(p.members)[j])
    decreases p, 0, i
  {
    hide Edits, CountsFit, Normalize;
    es := [];
    if i > 0 {
      MembersFit(p);
      var front := MembersToNormal(p, i - 1);
      var e := EditsToNormal(p.members[i - 1]);
      es := front + [e];
    }
  }

  lemma Joined(p: Policy, first: Edit, mid: Policy, second: Edit, q: Policy)
    requires Edits(first, p, mid) && CountsFit(mid) && Edits(second, mid, q)
    ensures Edits(Then(first, mid, second), p, q)
  {
    hide CountsFit;
  }

  lemma InsideThreshold(p: Policy, ns: seq<Policy>, es: seq<Edit>)
    requires p.Threshold? && |es| == |ns| == |p.members| && forall j :: 0 <= j < |es| ==> Edits(es[j], p.members[j], ns[j])
    ensures Edits(Inside(es), p, Threshold(p.k, ns))
  {
  }

  lemma InsideCombinator(p: Policy, ns: seq<Policy>, es: seq<Edit>)
    requires p.And? || p.Or?
    requires |es| == |ns| == |p.members| && forall j :: 0 <= j < |es| ==> Edits(es[j], p.members[j], ns[j])
    ensures Edits(Inside(es), p, Rebuild(p.And?, ns))
  {
  }

  lemma SortedThreshold(p: Policy, ns: seq<Policy>)
    requires p.Threshold? && ns == NormalizeAll(p.members) && CountsFit(p) && AllNormal(ns)
    ensures CountsFit(Threshold(p.k, ns)) && Edits(Rearrange, Threshold(p.k, ns), Normalize(p))
  {
    hide NormalForm, SortByEncoding, CountsFit, NormalizeAll, Normalize;
    NormalizedThreshold(p);
    ThresholdFits(p, ns);
  }

  lemma NormalizedThreshold(p: Policy)
    requires p.Threshold?
    ensures Normalize(p) == Threshold(p.k, SortByEncoding(NormalizeAll(p.members)))
  {
    hide SortByEncoding, NormalizeAll;
  }

  lemma ThresholdFits(p: Policy, ns: seq<Policy>)
    requires p.Threshold? && CountsFit(p) && |ns| == |p.members| && AllNormal(ns)
    ensures CountsFit(Threshold(p.k, ns))
  {
    hide NormalForm, Flatten, NormalizeAll;
  }

  lemma ThresholdToNormal(p: Policy, ns: seq<Policy>, es: seq<Edit>) returns (e: Edit)
    requires p.Threshold? && ns == NormalizeAll(p.members) && CountsFit(p) && AllNormal(ns)
    requires |es| == |ns| && forall j :: 0 <= j < |es| ==> Edits(es[j], p.members[j], ns[j])
    ensures Edits(e, p, Normalize(p))
  {
    hide *;
    InsideThreshold(p, ns, es);
    SortedThreshold(p, ns);
    Joined(p, Inside(es), Threshold(p.k, ns), Rearrange, Normalize(p));
    e := Then(Inside(es), Threshold(p.k, ns), Rearrange);
  }

  lemma CombinatorToNormal(p: Policy, ns: seq<Policy>, es: seq<Edit>) returns (e: Edit)
    requires (p.And? || p.Or?) && ns == NormalizeAll(p.members) && CountsFit(p) && AllNormal(ns) && AllEncodable(ns)
    requires |es| == |ns| && forall j :: 0 <= j < |es| ==> Edits(es[j], p.members[j], ns[j])
    ensures Edits(e, p, Normalize(p))
  {
    hide *;
    var conj := p.And?;
    var inner, flat, arranged := Rebuild(conj, ns), Rebuild(conj, Flatten(conj, ns)), Rebuild(conj, Arrange(conj, ns));
    InsideCombinator(p, ns, es);
    FlatCounted(p);
    var splices := SpliceMembers(conj, ns, |ns|);
    AllSpliced(conj, ns);
    RebuiltFits(conj, ns);
    PartlySplicedFits(conj, ns, |ns|);
    ArrangedSame(conj, ns);
    Joined(inner, splices, flat, Rearrange, arranged);
    Joined(p, Inside(es), inner, Then(splices, flat, Rearrange), arranged);
    e := Then(Inside(es), inner, Then(splices, flat, Rearrange));
    ArrangedFits(conj, ns);
    CollapsedBy(p, ns);
    if |Arrange(conj, ns)| == 1 {
      Joined(p, e, arranged, Unwrap, Normalize(p));
      e := Then(e, arranged, Unwrap);
    }
  }

  lemma CollapsedBy(p: Policy, ns: seq<Policy>)
    requires (p.And? || p.Or?) && ns == NormalizeAll(p.members)
    ensures var u := Arrange(p.And?, ns);
            if |u| == 1 then Edits(Unwrap, Rebuild(p.And?, u), Normalize(p)) else Normalize(p) == Rebuild(p.And?, u)
  {
    hide Arrange;
    var u := Arrange(p.And?, ns);
    assert |u| == 1 ==> u == [u[0]];
  }

  lemma FlatCounted(p: Policy)
    requires (p.And? || p.Or?) && CountsFit(p)
    ensures |Flatten(p.And?, NormalizeAll(p.members))| < TWO_32
  {
  }

  lemma AllSpliced(conj: bool, ns: seq<Policy>)
    ensures PartlySpliced(conj, ns, |ns|) == Flatten(conj, ns)
  {
    assert ns[..|ns|] == ns;
  }

  /** Some edits lead from one policy to the other. */
  ghost predicate Connected(p: Policy, q: Policy) {
    exists e :: Edits(e, p, q)
  }

  /** What a normal form, and so the encoding that the policy id hashes, decides: two policies share
      one exactly when reordering, nesting, duplicating and singleton wrapping, at any depth and in
      any sequence, turn one into the other. */
  lemma SameFormByEdits(p: Policy, q: Policy)
    requires CountsFit(p) && CountsFit(q)
    ensures Normalize(p) == Normalize(q) <==> Connected(p, q)
    ensures Encode(Normalize(p)) == Encode(Normalize(q)) <==> Connected(p, q)
  {
    hide Edits, Normalize, Encode, CountsFit;
    NormalEncodable(p);
    NormalEncodable(q);
    if Encode(Normalize(p)) == Encode(Normalize(q)) {
      EncodeInjective(Normalize(p), Normalize(q));
    }
    if Normalize(p) == Normalize(q) {
      var e := EditsThroughNormal(p, q);
    }
    forall e | Edits(e, p, q)
      ensures Normalize(p) == Normalize(q)
    {
      EditsKeepNormalForm(e, p, q);
    }
  }

  lemma EditsThroughNormal(p: Policy, q: Policy) returns (e: Edit)
    requires CountsFit(p) && CountsFit(q) && Normalize(p) == Normalize(q)
    ensures Edits(e, p, q)
  {
    hide *;
    var there := EditsToNormal(p);
    var back := EditsToNormal(q);
    NormalFits(p);
    UndoneEdit(back, q, Normalize(p));
    Joined(p, there, Normalize(p), Undo(back), q);
    e := Then(there, Normalize(p), Undo(back));
  }

  lemma UndoneEdit(e: Edit, p: Policy, q: Policy)
    requires Edits(e, p, q)
    ensures Edits(Undo(e), q, p)
  {
  }

  /** Policies with one normal form mean the same to every witness. */
  lemma SameFormAgrees(p: Policy, q: Policy, w: Witness)
    requires CountsFit(p) && CountsFit(q) && Normalize(p) == Normalize(q)
    ensures Agree(p, q, w)
  {
    hide Satisfied, Covers, Normalize, CountsFit;
    NormalizeKeepsMeaning(p, w);
    NormalizeKeepsMeaning(q, w);
  }
}
