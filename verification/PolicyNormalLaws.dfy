/** What normalisation keeps and identifies: meaning, idempotence, and the edits it forgets. */
module PolicyNormalLaws {
  import opened NumberTheory
  import opened BigEndian
  import opened Codec
  import opened Policies
  import opened PolicyEncoding
  import opened PolicyNormal

  // ---- normal forms ------------------------------------------------------------------------------------

  predicate NormalForm(p: Policy)
    decreases p
  {
    match p
    case Threshold(_, ms) => Ordered(ms) && forall i :: 0 <= i < |ms| ==> NormalForm(ms[i])
    case And(ms) => |ms| != 1 && StrictlyOrdered(ms) && forall i :: 0 <= i < |ms| ==> NormalForm(ms[i]) && !ms[i].And?
    case Or(ms) => |ms| != 1 && StrictlyOrdered(ms) && forall i :: 0 <= i < |ms| ==> NormalForm(ms[i]) && !ms[i].Or?
    case _ => true
  }

  /** Members of one normalised combinator. */
  predicate NormalParts(conj: bool, ms: seq<Policy>) {
    StrictlyOrdered(ms) && forall i :: 0 <= i < |ms| ==> NormalForm(ms[i]) && !Is(conj, ms[i])
  }

  lemma {:induction false} DedupKeeps(ms: seq<Policy>)
    ensures DistinctEncodings(Dedup(ms))
    ensures forall x :: x in Dedup(ms) ==> x in ms
    ensures AllEncodable(ms) ==> forall x :: x in ms ==> x in Dedup(ms)
  {
    hide Encode, Encodable;
    if ms != [] {
      var n := |ms| - 1;
      DedupKeeps(ms[..n]);
      assert ms == ms[..n] + [ms[n]];
      var u := Dedup(ms[..n]);
      if AllEncodable(ms) && Listed(Encode(ms[n]), u) {
        var i :| 0 <= i < |u| && Encode(u[i]) == Encode(ms[n]);
        assert u[i] in ms[..n];
        EncodeInjective(u[i], ms[n]);
      }
    }
  }

  lemma {:induction false} DedupFixed(ms: seq<Policy>)
    requires DistinctEncodings(ms)
    ensures Dedup(ms) == ms
  {
    hide Encode;
    if ms != [] {
      var n := |ms| - 1;
      DedupFixed(ms[..n]);
      assert ms == ms[..n] + [ms[n]];
    }
  }

  lemma {:induction false} FlattenHas(conj: bool, ns: seq<Policy>, x: Policy)
    ensures x in Flatten(conj, ns) <==> exists i :: 0 <= i < |ns| && x in Pieces(conj, ns[i])
  {
    hide Pieces;
    if ns != [] {
      var n := |ns| - 1;
      FlattenHas(conj, ns[..n], x);
      assert forall i :: 0 <= i < n ==> ns[..n][i] == ns[i];
    }
  }

  lemma {:induction false} FlattenFixed(conj: bool, ns: seq<Policy>)
    requires forall i :: 0 <= i < |ns| ==> !Is(conj, ns[i])
    ensures Flatten(conj, ns) == ns
  {
    if ns != [] {
      var n := |ns| - 1;
      FlattenFixed(conj, ns[..n]);
      assert ns == ns[..n] + [ns[n]];
    }
  }

  lemma ArrangeHas(conj: bool, ns: seq<Policy>)
    ensures DistinctEncodings(Dedup(Flatten(conj, ns)))
    ensures forall x :: x in Arrange(conj, ns) ==> x in Flatten(conj, ns)
    ensures AllEncodable(Flatten(conj, ns)) ==> forall x :: x in Flatten(conj, ns) ==> x in Arrange(conj, ns)
  {
    hide Encode, Encodable, Flatten;
    var flat := Flatten(conj, ns);
    DedupKeeps(flat);
    SameElements(Arrange(conj, ns), Dedup(flat));
  }

  lemma ArrangeIsNormal(conj: bool, ns: seq<Policy>)
    requires forall i :: 0 <= i < |ns| ==> NormalForm(ns[i])
    ensures NormalParts(conj, Arrange(conj, ns))
  {
    hide Flatten, Dedup, SortByEncoding, Precedes, Encode, Encodable;
    ArrangeHas(conj, ns);
    SortOrders(Dedup(Flatten(conj, ns)));
    var u := Arrange(conj, ns);
    forall k | 0 <= k < |u|
      ensures NormalForm(u[k]) && !Is(conj, u[k])
    {
      assert u[k] in Flatten(conj, ns);
      FlattenHas(conj, ns, u[k]);
      var i :| 0 <= i < |ns| && u[k] in Pieces(conj, ns[i]);
    }
  }

  lemma ArrangeFixed(conj: bool, ms: seq<Policy>)
    requires NormalParts(conj, ms)
    ensures Arrange(conj, ms) == ms
  {
    hide Precedes, Encode, NormalForm;
    FlattenFixed(conj, ms);
    forall i, j | 0 <= i < j < |ms|
      ensures Encode(ms[i]) != Encode(ms[j]) && !Precedes(ms[j], ms[i])
    {
      PrecedesTotal(ms[i], ms[j]);
    }
    DedupFixed(ms);
    SortFixed(ms);
  }

  lemma {:induction false} NormalizeIsNormal(p: Policy)
    ensures NormalForm(Normalize(p))
    decreases p
  {
    hide Arrange, SortByEncoding, Precedes;
    if !p.IsLeaf() {
      var ns := NormalizeAll(p.members);
      forall i | 0 <= i < |ns|
        ensures NormalForm(ns[i])
      {
        NormalizeIsNormal(p.members[i]);
      }
      if p.Threshold? {
        SortOrders(ns);
        SameElements(SortByEncoding(ns), ns);
        forall i | 0 <= i < |ns|
          ensures NormalForm(SortByEncoding(ns)[i])
        {
          assert SortByEncoding(ns)[i] in ns;
        }
      } else {
        ArrangeIsNormal(p.And?, ns);
      }
    }
  }

  lemma {:induction false} NormalFormFixed(p: Policy)
    requires NormalForm(p)
    ensures Normalize(p) == p
    decreases p
  {
    hide Arrange, SortByEncoding, Precedes;
    if !p.IsLeaf() {
      var ms := p.members;
      forall i | 0 <= i < |ms|
        ensures Normalize(ms[i]) == ms[i]
      {
        NormalFormFixed(ms[i]);
      }
      assert NormalizeAll(ms) == ms;
      if p.Threshold? {
        SortFixed(ms);
      } else {
        ArrangeFixed(p.And?, ms);
      }
    }
  }

  /** Normalising twice changes nothing more. */
  lemma Idempotent(p: Policy)
    ensures Normalize(Normalize(p)) == Normalize(p)
  {
    NormalizeIsNormal(p);
    NormalFormFixed(Normalize(p));
  }

  /** A normalised combinator still shows its arranged members. */
  lemma PiecesOfNormal(conj: bool, ms: seq<Policy>)
    ensures Pieces(conj, Normalize(Rebuild(conj, ms))) == Arrange(conj, NormalizeAll(ms))
  {
    hide Arrange, NormalForm, NormalizeAll;
    forall i | 0 <= i < |ms|
      ensures NormalForm(NormalizeAll(ms)[i])
    {
      NormalizeIsNormal(ms[i]);
    }
    ArrangeIsNormal(conj, NormalizeAll(ms));
  }

  // ---- counts ------------------------------------------------------------------------------------------

  lemma PiecesEncodable(conj: bool, ns: seq<Policy>)
    requires AllEncodable(ns)
    ensures AllEncodable(Flatten(conj, ns)) && AllEncodable(Arrange(conj, ns))
  {
    hide Flatten, Arrange;
    ArrangeHas(conj, ns);
    forall x | x in Flatten(conj, ns)
      ensures Encodable(x)
    {
      FlattenHas(conj, ns, x);
      var i :| 0 <= i < |ns| && x in Pieces(conj, ns[i]);
    }
    forall i | 0 <= i < |Arrange(conj, ns)|
      ensures Encodable(Arrange(conj, ns)[i])
    {
      assert Arrange(conj, ns)[i] in Flatten(conj, ns);
    }
  }

  lemma {:induction false} NormalEncodable(p: Policy)
    requires CountsFit(p)
    ensures Encodable(Normalize(p))
    ensures !p.IsLeaf() ==> AllEncodable(NormalizeAll(p.members))
    decreases p
  {
    hide SortByEncoding, Flatten, Dedup;
    if !p.IsLeaf() {
      var ns := NormalizeAll(p.members);
      forall i | 0 <= i < |ns|
        ensures Encodable(ns[i])
      {
        NormalEncodable(p.members[i]);
      }
      if p.Threshold? {
        SameElements(SortByEncoding(ns), ns);
        forall i | 0 <= i < |ns|
          ensures Encodable(SortByEncoding(ns)[i])
        {
          assert SortByEncoding(ns)[i] in ns;
        }
      } else {
        PiecesEncodable(p.And?, ns);
      }
    }
  }

  // ---- which policies share a normal form --------------------------------------------------------------

  lemma ArrangeSame(conj: bool, ms: seq<Policy>, ns: seq<Policy>)
    requires AllEncodable(ms) && AllEncodable(ns)
    requires forall x :: x in Flatten(conj, ms) <==> x in Flatten(conj, ns)
    ensures Arrange(conj, ms) == Arrange(conj, ns)
  {
    hide Flatten, Dedup, SortByEncoding, Precedes, Encode, Encodable;
    ArrangeHas(conj, ms);
    ArrangeHas(conj, ns);
    PiecesEncodable(conj, ms);
    PiecesEncodable(conj, ns);
    SortOrders(Dedup(Flatten(conj, ms)));
    SortOrders(Dedup(Flatten(conj, ns)));
    StrictSame(Arrange(conj, ms), Arrange(conj, ns));
  }

  /** Two conjunctions (or two disjunctions) share a normal form exactly when their flattened
      normal members are the same set. */
  lemma SameCombinator(conj: bool, ms: seq<Policy>, ns: seq<Policy>)
    requires CountsFit(Rebuild(conj, ms)) && CountsFit(Rebuild(conj, ns))
    ensures Normalize(Rebuild(conj, ms)) == Normalize(Rebuild(conj, ns)) <==>
            forall x :: x in Flatten(conj, NormalizeAll(ms)) <==> x in Flatten(conj, NormalizeAll(ns))
  {
    NormalEncodable(Rebuild(conj, ms));
    NormalEncodable(Rebuild(conj, ns));
    hide Flatten, Arrange, Encodable, NormalizeAll;
    var a, b := NormalizeAll(ms), NormalizeAll(ns);
    ArrangeHas(conj, a);
    ArrangeHas(conj, b);
    PiecesEncodable(conj, a);
    PiecesEncodable(conj, b);
    PiecesOfNormal(conj, ms);
    PiecesOfNormal(conj, ns);
    if forall x :: x in Flatten(conj, a) <==> x in Flatten(conj, b) {
      ArrangeSame(conj, a, b);
    }
  }

  lemma SortEncodable(ms: seq<Policy>)
    requires AllEncodable(ms)
    ensures AllEncodable(SortByEncoding(ms))
  {
    hide SortByEncoding, Encodable;
    SameElements(SortByEncoding(ms), ms);
    assert forall i :: 0 <= i < |ms| ==> SortByEncoding(ms)[i] in ms;
  }

  lemma SortSame(ms: seq<Policy>, ns: seq<Policy>)
    requires AllEncodable(ms)
    ensures SortByEncoding(ms) == SortByEncoding(ns) <==> multiset(ms) == multiset(ns)
  {
    hide SortByEncoding, Encodable, Precedes;
    SortEncodable(ms);
    SortOrders(ms);
    SortOrders(ns);
    if multiset(ms) == multiset(ns) {
      SortedSame(SortByEncoding(ms), SortByEncoding(ns));
    }
  }

  /** Two thresholds share a normal form exactly when they agree on k and on the multiset of normal
      members: duplicates count. */
  lemma SameThreshold(j: U16, ms: seq<Policy>, k: U16, ns: seq<Policy>)
    requires CountsFit(Threshold(j, ms)) && CountsFit(Threshold(k, ns))
    ensures Normalize(Threshold(j, ms)) == Normalize(Threshold(k, ns)) <==>
            j == k && multiset(NormalizeAll(ms)) == multiset(NormalizeAll(ns))
  {
    hide SortByEncoding, NormalizeAll;
    NormalEncodable(Threshold(j, ms));
    SortSame(NormalizeAll(ms), NormalizeAll(ns));
  }

  // ---- meaning -----------------------------------------------------------------------------------------

  predicate Agree(p: Policy, q: Policy, w: Witness) {
    Satisfied(p, w) == Satisfied(q, w) && Covers(w, p) == Covers(w, q)
  }

  lemma CombinatorMeaning(conj: bool, ms: seq<Policy>, w: Witness)
    ensures conj ==> (Satisfied(Rebuild(conj, ms), w) <==> forall x :: x in ms ==> Satisfied(x, w))
    ensures !conj ==> (Satisfied(Rebuild(conj, ms), w) <==> exists x :: x in ms && Satisfied(x, w))
    ensures Covers(w, Rebuild(conj, ms)) <==> forall x :: x in ms ==> Covers(w, x)
  {
    hide Unlocks, Witness.SecretFor;
    assert forall i :: 0 <= i < |ms| ==> ms[i] in ms;
  }

  lemma SameMembersAgree(conj: bool, ms: seq<Policy>, ns: seq<Policy>, w: Witness)
    requires forall x :: x in ms <==> x in ns
    ensures Agree(Rebuild(conj, ms), Rebuild(conj, ns), w)
  {
    hide Satisfied, Covers;
    CombinatorMeaning(conj, ms, w);
    CombinatorMeaning(conj, ns, w);
  }

  lemma PiecesAgree(conj: bool, n: Policy, w: Witness)
    ensures Agree(Rebuild(conj, Pieces(conj, n)), n, w)
  {
    hide Satisfied, Covers;
    CombinatorMeaning(conj, Pieces(conj, n), w);
    if Is(conj, n) {
      assert Rebuild(conj, n.members) == n;
    } else {
      assert n in [n];
    }
  }

  lemma FlattenAgrees(conj: bool, ns: seq<Policy>, w: Witness)
    ensures Agree(Rebuild(conj, Flatten(conj, ns)), Rebuild(conj, ns), w)
  {
    hide Satisfied, Covers, Flatten, Pieces, Rebuild;
    CombinatorMeaning(conj, ns, w);
    CombinatorMeaning(conj, Flatten(conj, ns), w);
    forall i | 0 <= i < |ns|
      ensures ns[i] in ns && Agree(Rebuild(conj, Pieces(conj, ns[i])), ns[i], w)
      ensures forall x :: x in Pieces(conj, ns[i]) ==> x in Flatten(conj, ns)
    {
      PiecesAgree(conj, ns[i], w);
      forall x | x in Pieces(conj, ns[i])
        ensures x in Flatten(conj, ns)
      {
        FlattenHas(conj, ns, x);
      }
    }
    forall i | 0 <= i < |ns|
      ensures conj ==> (Satisfied(ns[i], w) <==> forall x :: x in Pieces(conj, ns[i]) ==> Satisfied(x, w))
      ensures !conj ==> (Satisfied(ns[i], w) <==> exists x :: x in Pieces(conj, ns[i]) && Satisfied(x, w))
      ensures Covers(w, ns[i]) <==> forall x :: x in Pieces(conj, ns[i]) ==> Covers(w, x)
    {
      CombinatorMeaning(conj, Pieces(conj, ns[i]), w);
    }
    forall x | x in Flatten(conj, ns)
      ensures exists i :: 0 <= i < |ns| && x in Pieces(conj, ns[i])
    {
      FlattenHas(conj, ns, x);
    }
  }

  lemma CollapseAgrees(conj: bool, u: seq<Policy>, w: Witness)
    ensures Agree(Collapse(conj, u), Rebuild(conj, u), w)
  {
    hide Satisfied, Covers;
    CombinatorMeaning(conj, u, w);
    if |u| == 1 {
      assert u[0] in u;
    }
  }

  lemma PointwiseAgrees(conj: bool, ms: seq<Policy>, ns: seq<Policy>, w: Witness)
    requires |ms| == |ns| && forall i :: 0 <= i < |ms| ==> Agree(ms[i], ns[i], w)
    ensures Agree(Rebuild(conj, ms), Rebuild(conj, ns), w)
  {
    hide Unlocks, Witness.SecretFor;
  }

  lemma {:induction false} CountPointwise(ms: seq<Policy>, ns: seq<Policy>, w: Witness)
    requires |ms| == |ns| && forall i :: 0 <= i < |ms| ==> Agree(ms[i], ns[i], w)
    ensures SatisfiedCount(ms, w) == SatisfiedCount(ns, w)
  {
    hide Satisfied, Covers;
    if ms != [] {
      CountPointwise(ms[..|ms| - 1], ns[..|ns| - 1], w);
    }
  }

  lemma CountSnoc(ms: seq<Policy>, x: Policy, w: Witness)
    ensures SatisfiedCount(ms + [x], w) == SatisfiedCount(ms, w) + if Satisfied(x, w) then 1 else 0
  {
    assert (ms + [x])[..|ms|] == ms;
  }

  lemma {:induction false} CountInsert(s: seq<Policy>, x: Policy, w: Witness)
    ensures SatisfiedCount(Insert(s, x), w) == SatisfiedCount(s, w) + if Satisfied(x, w) then 1 else 0
  {
    hide Satisfied, SatisfiedCount, Precedes;
    if s == [] || !Precedes(x, s[|s| - 1]) {
      CountSnoc(s, x, w);
    } else {
      var n := |s| - 1;
      CountInsert(s[..n], x, w);
      CountSnoc(Insert(s[..n], x), s[n], w);
      CountSnoc(s[..n], s[n], w);
      assert s == s[..n] + [s[n]];
    }
  }

  lemma {:induction false} CountSort(ms: seq<Policy>, w: Witness)
    ensures SatisfiedCount(SortByEncoding(ms), w) == SatisfiedCount(ms, w)
  {
    hide Satisfied, Insert;
    if ms != [] {
      CountSort(ms[..|ms| - 1], w);
      CountInsert(SortByEncoding(ms[..|ms| - 1]), ms[|ms| - 1], w);
    }
  }

  lemma CoversThreshold(k: U16, ms: seq<Policy>, w: Witness)
    ensures Covers(w, Threshold(k, ms)) <==> forall x :: x in ms ==> Covers(w, x)
  {
    hide Witness.SecretFor;
    assert forall i :: 0 <= i < |ms| ==> ms[i] in ms;
  }

  lemma SatisfiedThreshold(k: U16, ms: seq<Policy>, w: Witness)
    ensures Satisfied(Threshold(k, ms), w) <==> SatisfiedCount(ms, w) >= k
  {
    hide Unlocks, SatisfiedCount;
  }

  lemma ThresholdAgrees(k: U16, ms: seq<Policy>, ns: seq<Policy>, w: Witness)
    requires |ms| == |ns| && forall i :: 0 <= i < |ms| ==> Agree(ms[i], ns[i], w)
    ensures Agree(Threshold(k, ms), Threshold(k, SortByEncoding(ns)), w)
  {
    hide Satisfied, Covers, SortByEncoding, SatisfiedCount;
    CountPointwise(ms, ns, w);
    CountSort(ns, w);
    SameElements(ns, SortByEncoding(ns));
    SatisfiedThreshold(k, ms, w);
    SatisfiedThreshold(k, SortByEncoding(ns), w);
    CoversThreshold(k, ms, w);
    CoversThreshold(k, SortByEncoding(ns), w);
    assert forall i :: 0 <= i < |ms| ==> ms[i] in ms && ns[i] in ns;
  }

  lemma CombinatorAgrees(conj: bool, ms: seq<Policy>, ns: seq<Policy>, w: Witness)
    requires |ms| == |ns| && AllEncodable(ns) && forall i :: 0 <= i < |ms| ==> Agree(ms[i], ns[i], w)
    ensures Agree(Rebuild(conj, ms), Collapse(conj, Arrange(conj, ns)), w)
  {
    hide Satisfied, Covers, Arrange, Flatten, Encodable, Collapse, Rebuild;
    PointwiseAgrees(conj, ms, ns, w);
    FlattenAgrees(conj, ns, w);
    PiecesEncodable(conj, ns);
    ArrangeHas(conj, ns);
    SameMembersAgree(conj, Flatten(conj, ns), Arrange(conj, ns), w);
    CollapseAgrees(conj, Arrange(conj, ns), w);
  }

  /** Normalising changes neither the decision nor which witnesses cover the policy. */
  lemma {:induction false} NormalizeKeepsMeaning(p: Policy, w: Witness)
    requires CountsFit(p)
    ensures Satisfied(Normalize(p), w) == Satisfied(p, w)
    ensures Covers(w, Normalize(p)) == Covers(w, p)
    decreases p
  {
    NormalEncodable(p);
    hide Satisfied, Covers, Arrange, SortByEncoding, Encodable, Collapse;
    if !p.IsLeaf() {
      var ms := p.members;
      forall i | 0 <= i < |ms|
        ensures Agree(ms[i], NormalizeAll(ms)[i], w)
      {
        NormalizeKeepsMeaning(ms[i], w);
      }
      if p.Threshold? {
        ThresholdAgrees(p.k, ms, NormalizeAll(ms), w);
      } else {
        CombinatorAgrees(p.And?, ms, NormalizeAll(ms), w);
        assert p == Rebuild(p.And?, ms);
      }
    }
  }

  // ---- what normalisation does not do ------------------------------------------------------------------

  /** Equal meaning does not imply an equal normal form: an implied bound is not removed. */
  lemma EqualMeaningDistinctNormalForm()
    ensures var p, q := And([AmountAtMost(1), AmountAtMost(2)]), AmountAtMost(1);
            && (forall w :: Agree(p, q, w))
            && Normalize(p) != Normalize(q)
  {
    hide Agree, Normalize;
    forall w
      ensures Agree(And([AmountAtMost(1), AmountAtMost(2)]), AmountAtMost(1), w)
    {
      TighterBound(w);
    }
    BothBoundsStay();
  }

  lemma TighterBound(w: Witness)
    ensures Agree(And([AmountAtMost(1), AmountAtMost(2)]), AmountAtMost(1), w)
  {
    var ms := [AmountAtMost(1), AmountAtMost(2)];
    CombinatorMeaning(true, ms, w);
    assert ms[0] in ms && ms[1] in ms;
  }

  lemma BothBoundsStay()
    ensures Normalize(And([AmountAtMost(1), AmountAtMost(2)])) != Normalize(AmountAtMost(1))
  {
    TwoLeavesStay(AmountAtMost(1), AmountAtMost(2));
  }

  /** A conjunction of two different leaves does not collapse. */
  lemma TwoLeavesStay(p: Policy, q: Policy)
    requires p.IsLeaf() && q.IsLeaf() && p != q
    ensures Normalize(And([p, q])) != Normalize(p)
  {
    hide *;
    LeavesArranged(p, q);
    PiecesOfNormal(true, [p, q]);
    LeafPieces(p, q);
    assert q in Pieces(true, Normalize(Rebuild(true, [p, q])));
  }

  lemma LeafPieces(p: Policy, q: Policy)
    requires p.IsLeaf()
    ensures Pieces(true, Normalize(p)) == [p] && Rebuild(true, [p, q]) == And([p, q])
  {
  }

  lemma LeavesArranged(p: Policy, q: Policy)
    requires p.IsLeaf() && q.IsLeaf()
    ensures q in Arrange(true, NormalizeAll([p, q]))
  {
    hide *;
    var ms := [p, q];
    LeavesNormal(ms);
    FlattenFixed(true, ms);
    ArrangeHas(true, ms);
    assert ms[1] in Flatten(true, ms);
  }

  lemma LeavesNormal(ms: seq<Policy>)
    requires forall i :: 0 <= i < |ms| ==> ms[i].IsLeaf()
    ensures NormalizeAll(ms) == ms && AllEncodable(ms) && forall i :: 0 <= i < |ms| ==> !Is(true, ms[i])
  {
    hide NormalizeAll;
  }
}
