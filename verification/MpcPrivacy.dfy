/** Additive sharing hides: all parties but one see the same whatever the secret inputs are. */
module MpcPrivacy {
  import opened NumberTheory
  import opened PrimeField
  import opened RandomTape
  import opened Circuits
  import opened Mpc

  // ---- one sharing -------------------------------------------------------------------------------------

  lemma {:induction false} SumUpdate(xs: seq<Elem>, k: nat, v: Elem)
    requires k < |xs|
    ensures Sum(xs[k := v]) == Add(Sum(xs), Sub(v, xs[k]))
  {
    hide Add, Sub;
    var n := |xs| - 1;
    if k == n {
      assert xs[k := v][..n] == xs[..n];
      MoveLast(Sum(xs[..n]), xs[n], v);
    } else {
      SumUpdate(xs[..n], k, v);
      assert xs[k := v][..n] == xs[..n][k := v];
      AddLaws(Sum(xs[..n]), Sub(v, xs[k]), xs[n]);
      AddLaws(Sum(xs[..n]), xs[n], Sub(v, xs[k]));
      AddLaws(Sub(v, xs[k]), xs[n], 0);
    }
  }

  lemma MoveLast(s: Elem, x: Elem, v: Elem)
    ensures Add(s, v) == Add(Add(s, x), Sub(v, x))
  {
    FeOf(s); FeOf(x); FeOf(v);
    hide Fe, Add, Sub;
    Representatives();
  }

  /** The random elements with which another secret's sharing gives all parties but one the same
      shares: the hidden party's element, if it has one, moves by the difference. */
  function Moved(randoms: seq<Elem>, hidden: nat, secret: Elem, other: Elem): (moved: seq<Elem>)
    ensures |moved| == |randoms|
  {
    if hidden < |randoms| then randoms[hidden := Add(randoms[hidden], Sub(other, secret))] else randoms
  }

  /** One party short of all learn nothing: with exactly one choice of the random elements another
      secret gives all other parties the shares they have. */
  lemma AllButOneFitEverySecret(secret: Elem, randoms: seq<Elem>, other: Elem, randoms': seq<Elem>, hidden: nat)
    requires hidden <= |randoms| == |randoms'|
    ensures (forall q :: 0 <= q <= |randoms| && q != hidden ==> SharesOf(other, randoms')[q] == SharesOf(secret, randoms)[q]) <==>
            randoms' == Moved(randoms, hidden, secret, other)
  {
    hide Sub, Add, Sum;
    var n := |randoms|;
    if hidden < n {
      var r := randoms'[hidden];
      SumUpdate(randoms, hidden, r);
      LastShareMoves(secret, other, Sum(randoms), randoms[hidden], r);
      if forall q :: 0 <= q <= n && q != hidden ==> SharesOf(other, randoms')[q] == SharesOf(secret, randoms)[q] {
        forall q | 0 <= q < n && q != hidden
          ensures randoms'[q] == randoms[q]
        {
          assert SharesOf(other, randoms')[q] == SharesOf(secret, randoms)[q];
        }
        assert randoms' == randoms[hidden := r];
        assert SharesOf(other, randoms')[n] == SharesOf(secret, randoms)[n];
      }
      if randoms' == Moved(randoms, hidden, secret, other) {
        assert randoms' == randoms[hidden := r];
      }
    } else {
      assert randoms' == randoms <==> forall q :: 0 <= q < n ==> randoms'[q] == randoms[q];
      assert forall q :: 0 <= q < n ==> SharesOf(other, randoms')[q] == randoms'[q] && SharesOf(secret, randoms)[q] == randoms[q];
    }
  }

  /** The last share stays the same exactly when the changed element moves by the difference. */
  lemma LastShareMoves(secret: Elem, other: Elem, total: Elem, x: Elem, v: Elem)
    ensures Sub(other, Add(total, Sub(v, x))) == Sub(secret, total) <==> v == Add(x, Sub(other, secret))
  {
    var (d, w) := (Sub(v, x), Sub(other, secret));
    hide Fe, Add, Sub;
    SameDifference(secret, other, total, d);
    AddLaws(x, w, 0);
    AddLaws(v, x, 0);
    AddLaws(w, x, 0);
    AddLaws(d, x, 0);
  }

  lemma SameDifference(secret: Elem, other: Elem, total: Elem, d: Elem)
    ensures Sub(other, Add(total, d)) == Sub(secret, total) <==> d == Sub(other, secret)
  {
    FeOf(secret); FeOf(other); FeOf(total); FeOf(d);
    var u := Sub(Sub(other, Add(total, d)), Sub(secret, total));
    var w := Sub(Sub(other, secret), d);
    assert u == w by {
      hide Fe, Add, Sub;
      Representatives();
    }
    hide Fe, Add, Sub;
    SubZero(Sub(other, Add(total, d)), Sub(secret, total));
    SubZero(Sub(other, secret), d);
  }

  // ---- a whole evaluation ------------------------------------------------------------------------------

  /** Which block of a width a position falls into, and where in it. */
  function Block(x: nat, width: nat): nat
    requires width > 0
  {
    x / width
  }

  function Offset(x: nat, width: nat): (j: nat)
    requires width > 0
    ensures j < width
  {
    x % width
  }

  lemma BlockOf(start: nat, width: nat, k: nat, j: nat)
    requires j < width
    ensures start + width * k + j - start >= 0
    ensures Block(start + width * k + j - start, width) == k && Offset(start + width * k + j - start, width) == j
  {
    var x := width * k + j;
    var (q, r) := (x / width, x % width);
    assert x == q * width + r;
    assert (q - k) * width == j - r;
    ScaledBounds(q - k, width);
  }

  lemma BlockAt(x: nat, width: nat)
    requires width > 0
    ensures width * Block(x, width) + Offset(x, width) == x
  {
  }

  /** The k-th leaf and the k-th multiplication among the first n nodes. */
  function NthLeaf(nodes: seq<Node>, n: nat, k: nat): (i: NodeId)
    requires n <= |nodes| && k < LeavesBefore(nodes, n)
    ensures i < n && !nodes[i].IsGate() && LeavesBefore(nodes, i) == k
  {
    if LeavesBefore(nodes, n - 1) == k then n - 1 else NthLeaf(nodes, n - 1, k)
  }

  function NthMul(nodes: seq<Node>, n: nat, k: nat): (i: NodeId)
    requires n <= |nodes| && k < MulGates(nodes, n)
    ensures i < n && nodes[i].MulGate? && MulGates(nodes, i) == k
  {
    if MulGates(nodes, n - 1) == k then n - 1 else NthMul(nodes, n - 1, k)
  }

  lemma {:induction false} LeavesMonotone(nodes: seq<Node>, i: nat, j: nat)
    requires i <= j <= |nodes|
    ensures LeavesBefore(nodes, i) <= LeavesBefore(nodes, j)
  {
    if i < j {
      LeavesMonotone(nodes, i, j - 1);
    }
  }

  lemma LeafCounts(nodes: seq<Node>, i: NodeId, j: nat)
    requires i < j <= |nodes| && !nodes[i].IsGate()
    ensures LeavesBefore(nodes, i) < LeavesBefore(nodes, j)
  {
    LeavesMonotone(nodes, i + 1, j);
  }

  lemma MulCounts(nodes: seq<Node>, i: NodeId, j: nat)
    requires i < j <= |nodes| && nodes[i].MulGate?
    ensures MulGates(nodes, i) < MulGates(nodes, j)
  {
    MulGatesMonotone(nodes, i + 1, j);
  }

  lemma NthLeafOf(nodes: seq<Node>, i: NodeId)
    requires i < |nodes| && !nodes[i].IsGate()
    ensures LeavesBefore(nodes, i) < LeavesBefore(nodes, |nodes|) && NthLeaf(nodes, |nodes|, LeavesBefore(nodes, i)) == i
  {
    hide LeavesBefore, NthLeaf;
    LeafCounts(nodes, i, |nodes|);
    var j := NthLeaf(nodes, |nodes|, LeavesBefore(nodes, i));
    if j < i {
      LeafCounts(nodes, j, i);
    } else if i < j {
      LeafCounts(nodes, i, j);
    }
  }

  lemma NthMulOf(nodes: seq<Node>, i: NodeId)
    requires i < |nodes| && nodes[i].MulGate?
    ensures MulGates(nodes, i) < MulGates(nodes, |nodes|) && NthMul(nodes, |nodes|, MulGates(nodes, i)) == i
  {
    hide MulGates, NthMul;
    MulCounts(nodes, i, |nodes|);
    var j := NthMul(nodes, |nodes|, MulGates(nodes, i));
    if j < i {
      MulCounts(nodes, j, i);
    } else if i < j {
      MulCounts(nodes, i, j);
    }
  }

  function Plain(run: SharedRun, secrets: seq<Elem>, i: NodeId): Elem
    requires i < |run.nodes|
  {
    Value(run.nodes, secrets, run.publics, i)
  }

  /** The draw belongs to some leaf, or to the triple of some multiplication. */
  predicate InLeaves(run: SharedRun, t: nat)
    requires run.partyCount > 1
  {
    t >= run.at && Block(t - run.at, run.partyCount - 1) < LeavesBefore(run.nodes, |run.nodes|)
  }

  predicate InTriples(run: SharedRun, t: nat)
    requires run.partyCount > 1
  {
    t >= run.tripleAt && Block(t - run.tripleAt, 3 * run.partyCount - 1) < MulGates(run.nodes, |run.nodes|)
  }

  /** The draw at t of the shifted leaf tape. */
  function ShiftedDraw(run: SharedRun, other: seq<Elem>, hidden: nat, t: nat): Elem
    requires run.partyCount > 1
  {
    if !InLeaves(run, t) || Offset(t - run.at, run.partyCount - 1) != hidden then run.draws(t)
    else
      var i := NthLeaf(run.nodes, |run.nodes|, Block(t - run.at, run.partyCount - 1));
      Add(run.draws(t), Sub(Plain(run, other, i), Plain(run, run.secrets, i)))
  }

  /** The values a, b and a b of the k-th triple, before and after the shift: a and b move with the
      plaintext operands they mask. */
  function TripleValue(run: SharedRun, k: nat, which: nat): Elem
    requires run.partyCount > 1
  {
    var (a, b) := (run.tripleDraws(run.TripleStart(k)), run.tripleDraws(run.TripleStart(k) + 1));
    if which == 0 then a else if which == 1 then b else Mul(a, b)
  }

  function MovedValue(run: SharedRun, other: seq<Elem>, k: nat, which: nat): Elem
    requires run.Valid() && k < MulGates(run.nodes, |run.nodes|)
  {
    var i := NthMul(run.nodes, |run.nodes|, k);
    assert OperandsBefore(run.nodes[i], i);
    var (x, y) := (run.nodes[i].a, run.nodes[i].b);
    var a := Add(TripleValue(run, k, 0), Sub(Plain(run, other, x), Plain(run, run.secrets, x)));
    var b := Add(TripleValue(run, k, 1), Sub(Plain(run, other, y), Plain(run, run.secrets, y)));
    if which == 0 then a else if which == 1 then b else Mul(a, b)
  }

  /** The draw at t of the shifted triple tape: first the two values, then three sharings. */
  function ShiftedTripleDraw(run: SharedRun, other: seq<Elem>, hidden: nat, t: nat): Elem
    requires run.Valid()
  {
    if !InTriples(run, t) then run.tripleDraws(t)
    else
      var width := 3 * run.partyCount - 1;
      InTriple(run, other, hidden, t, Block(t - run.tripleAt, width), Offset(t - run.tripleAt, width))
  }

  /** The draw at t if it is the r-th of the k-th triple. */
  function InTriple(run: SharedRun, other: seq<Elem>, hidden: nat, t: nat, k: nat, r: nat): Elem
    requires run.Valid() && k < MulGates(run.nodes, |run.nodes|)
  {
    var w := run.partyCount - 1;
    if r < 2 then MovedValue(run, other, k, r)
    else if Offset(r - 2, w) != hidden then run.tripleDraws(t)
    else Add(run.tripleDraws(t), Sub(MovedValue(run, other, k, Block(r - 2, w)), TripleValue(run, k, Block(r - 2, w))))
  }

  /** The evaluation of other secrets on the shifted tapes. */
  ghost function ShiftedRun(run: SharedRun, other: seq<Elem>, hidden: nat): SharedRun
    requires run.Valid()
  {
    SharedRun(run.nodes, run.partyCount, other, run.publics,
              (t: nat) => if run.Valid() then ShiftedDraw(run, other, hidden, t) else 0, run.at,
              (t: nat) => if run.Valid() then ShiftedTripleDraw(run, other, hidden, t) else 0, run.tripleAt)
  }

  lemma ShiftedData(run: SharedRun, other: seq<Elem>, hidden: nat)
    requires run.Valid()
    ensures var run' := ShiftedRun(run, other, hidden);
            && run'.nodes == run.nodes && run'.partyCount == run.partyCount && run'.secrets == other && run'.publics == run.publics
            && run'.at == run.at && run'.tripleAt == run.tripleAt && run'.Valid()
            && (forall k :: run'.LeafStart(k) == run.LeafStart(k) && run'.TripleStart(k) == run.TripleStart(k))
            && (forall t: nat :: run'.draws(t) == ShiftedDraw(run, other, hidden, t))
            && (forall t: nat :: run'.tripleDraws(t) == ShiftedTripleDraw(run, other, hidden, t))
  {
    hide ShiftedDraw, ShiftedTripleDraw;
  }

  /** A leaf's draws on the shifted tape. */
  lemma LeafDraws(run: SharedRun, other: seq<Elem>, hidden: nat, i: NodeId)
    requires run.Valid() && i < |run.nodes| && !run.nodes[i].IsGate()
    ensures var (at, w) := (run.LeafStart(LeavesBefore(run.nodes, i)), run.partyCount - 1);
            Drawn(ShiftedRun(run, other, hidden).draws, at, w) ==
              Moved(Drawn(run.draws, at, w), hidden, Plain(run, run.secrets, i), Plain(run, other, i))
  {
    hide Plain, Add, Sub, NthLeaf, LeavesBefore, Block, Offset, ShiftedRun;
    ShiftedData(run, other, hidden);
    NthLeafOf(run.nodes, i);
    var (k, w) := (LeavesBefore(run.nodes, i), run.partyCount - 1);
    forall j | 0 <= j < w
      ensures ShiftedDraw(run, other, hidden, run.LeafStart(k) + j) ==
              Moved(Drawn(run.draws, run.LeafStart(k), w), hidden, Plain(run, run.secrets, i), Plain(run, other, i))[j]
    {
      BlockOf(run.at, w, k, j);
    }
  }

  /** One sharing of a triple on the shifted tape. */
  lemma SharingDraws(run: SharedRun, other: seq<Elem>, hidden: nat, k: nat, which: nat)
    requires run.Valid() && k < MulGates(run.nodes, |run.nodes|) && which < 3
    ensures var (at, w) := (run.TripleStart(k) + 2 + which * (run.partyCount - 1), run.partyCount - 1);
            Drawn(ShiftedRun(run, other, hidden).tripleDraws, at, w) ==
              Moved(Drawn(run.tripleDraws, at, w), hidden, TripleValue(run, k, which), MovedValue(run, other, k, which))
  {
    hide TripleValue, MovedValue, Add, Sub, NthMul, MulGates, ShiftedTripleDraw, SharedRun.TripleStart, ShiftedRun;
    ShiftedData(run, other, hidden);
    var (at, w, d) := (run.TripleStart(k) + 2 + which * (run.partyCount - 1), run.partyCount - 1, ShiftedRun(run, other, hidden).tripleDraws);
    var before := Drawn(run.tripleDraws, at, w);
    forall j | 0 <= j < w
      ensures Drawn(d, at, w)[j] == Moved(before, hidden, TripleValue(run, k, which), MovedValue(run, other, k, which))[j]
    {
      SharingDraw(run, other, hidden, k, which, j);
    }
  }

  lemma ValueDraws(run: SharedRun, other: seq<Elem>, hidden: nat, k: nat)
    requires run.Valid() && k < MulGates(run.nodes, |run.nodes|)
    ensures var (t, d) := (run.TripleStart(k), ShiftedRun(run, other, hidden).tripleDraws);
            d(t) == MovedValue(run, other, k, 0) && d(t + 1) == MovedValue(run, other, k, 1)
  {
    hide TripleValue, MovedValue, Add, Sub, NthMul, MulGates, ShiftedTripleDraw, SharedRun.TripleStart, ShiftedRun;
    ShiftedData(run, other, hidden);
    TripleDraw(run, other, hidden, k, 0);
    TripleDraw(run, other, hidden, k, 1);
  }

  lemma TripleDraw(run: SharedRun, other: seq<Elem>, hidden: nat, k: nat, r: nat)
    requires run.Valid() && k < MulGates(run.nodes, |run.nodes|) && r < 3 * run.partyCount - 1
    ensures var t := run.TripleStart(k) + r;
            InTriples(run, t) && ShiftedTripleDraw(run, other, hidden, t) == InTriple(run, other, hidden, t, k, r)
  {
    hide InTriple, MulGates, Block, Offset;
    BlockOf(run.tripleAt, 3 * run.partyCount - 1, k, r);
  }

  lemma SharingDraw(run: SharedRun, other: seq<Elem>, hidden: nat, k: nat, which: nat, j: nat)
    requires run.Valid() && k < MulGates(run.nodes, |run.nodes|) && which < 3 && j < run.partyCount - 1
    ensures var t := run.TripleStart(k) + 2 + which * (run.partyCount - 1) + j;
            ShiftedTripleDraw(run, other, hidden, t) ==
              if j == hidden then Add(run.tripleDraws(t), Sub(MovedValue(run, other, k, which), TripleValue(run, k, which)))
              else run.tripleDraws(t)
  {
    hide TripleValue, MovedValue, Add, Sub, MulGates, ShiftedTripleDraw, SharedRun.TripleStart, Block, Offset;
    var w := run.partyCount - 1;
    var r := 2 + which * w + j;
    assert which * w <= 2 * w;
    BlockOf(0, w, which, j);
    TripleDraw(run, other, hidden, k, r);
    assert r - 2 == 0 + w * which + j - 0;
  }

  /** All parties but the hidden one hold the same. */
  predicate SameButOne(x: SharedValue, y: SharedValue, hidden: nat) {
    |x| == |y| && forall q :: 0 <= q < |x| && q != hidden ==> x[q] == y[q]
  }

  lemma SharingUnmoved(secret: Elem, other: Elem, randoms: seq<Elem>, hidden: nat)
    requires hidden <= |randoms|
    ensures SameButOne(SharesOf(secret, randoms), SharesOf(other, Moved(randoms, hidden, secret, other)), hidden)
  {
    hide SharesOf, Moved;
    AllButOneFitEverySecret(secret, randoms, other, Moved(randoms, hidden, secret, other), hidden);
    assert forall rs: seq<Elem> :: |SharesOf(secret, rs)| == |rs| + 1 by { SharesLength(secret); }
    SharesLength(other);
  }

  lemma SharesLength(secret: Elem)
    ensures forall rs: seq<Elem> :: |SharesOf(secret, rs)| == |rs| + 1
  {
  }

  lemma LeafUnmoved(run: SharedRun, other: seq<Elem>, hidden: nat, i: NodeId)
    requires run.Valid() && hidden < run.partyCount && i < |run.nodes| && !run.nodes[i].IsGate()
    ensures ShiftedRun(run, other, hidden).nodes == run.nodes && ShiftedRun(run, other, hidden).Valid()
    ensures SameButOne(run.Held(i), ShiftedRun(run, other, hidden).Held(i), hidden)
  {
    hide SharesOf, Moved, ShiftedRun, SameButOne, Sub, Add, LeavesBefore, SharedRun.LeafStart;
    ShiftedData(run, other, hidden);
    LeafDraws(run, other, hidden, i);
    var randoms := Drawn(run.draws, run.LeafStart(LeavesBefore(run.nodes, i)), run.partyCount - 1);
    SharingUnmoved(Plain(run, run.secrets, i), Plain(run, other, i), randoms, hidden);
  }

  /** The triple of a multiplication: the open parties' shares stay, and the values a and b move with
      the operands they mask. */
  lemma TripleUnmoved(run: SharedRun, other: seq<Elem>, hidden: nat, i: NodeId)
    requires run.Valid() && hidden < run.partyCount && i < |run.nodes| && run.nodes[i].MulGate?
    ensures ShiftedRun(run, other, hidden).nodes == run.nodes && ShiftedRun(run, other, hidden).Valid()
    ensures var (t, t') := (run.TripleAt(i), ShiftedRun(run, other, hidden).TripleAt(i));
            && SameButOne(t.a, t'.a, hidden) && SameButOne(t.b, t'.b, hidden) && SameButOne(t.c, t'.c, hidden)
            && Sum(t'.a) == Add(Sum(t.a), Sub(Plain(run, other, run.nodes[i].a), Plain(run, run.secrets, run.nodes[i].a)))
            && Sum(t'.b) == Add(Sum(t.b), Sub(Plain(run, other, run.nodes[i].b), Plain(run, run.secrets, run.nodes[i].b)))
  {
    hide SharesOf, Moved, ShiftedRun, SameButOne, Sub, Add, Mul, Sum, Plain, MulGates, SharedRun.TripleStart, NthMul;
    ShiftedData(run, other, hidden);
    NthMulOf(run.nodes, i);
    var (k, w) := (MulGates(run.nodes, i), run.partyCount - 1);
    var at := run.TripleStart(k);
    ValueDraws(run, other, hidden, k);
    SharingDraws(run, other, hidden, k, 0);
    SharingDraws(run, other, hidden, k, 1);
    SharingDraws(run, other, hidden, k, 2);
    var (ra, rb, rc) := (Drawn(run.tripleDraws, at + 2, w), Drawn(run.tripleDraws, at + 2 + w, w), Drawn(run.tripleDraws, at + 2 + 2 * w, w));
    SharingUnmoved(TripleValue(run, k, 0), MovedValue(run, other, k, 0), ra, hidden);
    SharingUnmoved(TripleValue(run, k, 1), MovedValue(run, other, k, 1), rb, hidden);
    SharingUnmoved(TripleValue(run, k, 2), MovedValue(run, other, k, 2), rc, hidden);
    hide Drawn;
    SharesOfSum(TripleValue(run, k, 0), ra);
    SharesOfSum(TripleValue(run, k, 1), rb);
    SharesOfSum(MovedValue(run, other, k, 0), Moved(ra, hidden, TripleValue(run, k, 0), MovedValue(run, other, k, 0)));
    SharesOfSum(MovedValue(run, other, k, 1), Moved(rb, hidden, TripleValue(run, k, 1), MovedValue(run, other, k, 1)));
  }

  lemma MaskKept(v: Elem, v': Elem, a: Elem)
    ensures Sub(v', Add(a, Sub(v', v))) == Sub(v, a)
  {
    FeOf(v); FeOf(v'); FeOf(a);
    hide Fe, Add, Sub;
    Representatives();
  }

  /** The masks a multiplication opens. */
  function Masks(run: SharedRun, i: NodeId): (Elem, Elem)
    requires run.Valid() && i < |run.nodes| && run.nodes[i].MulGate?
  {
    assert OperandsBefore(run.nodes[i], i);
    (Sum(SubShares(run.Held(run.nodes[i].a), run.TripleAt(i).a)), Sum(SubShares(run.Held(run.nodes[i].b), run.TripleAt(i).b)))
  }

  /** Opening a mask shows the operand minus a value that the tape supplies. */
  lemma MasksOpen(run: SharedRun, i: NodeId)
    requires run.Valid() && i < |run.nodes| && run.nodes[i].MulGate?
    ensures run.nodes[i].a < i && run.nodes[i].b < i
    ensures Masks(run, i) == (Sub(Plain(run, run.secrets, run.nodes[i].a), Sum(run.TripleAt(i).a)),
                              Sub(Plain(run, run.secrets, run.nodes[i].b), Sum(run.TripleAt(i).b)))
  {
    hide Sum, Sub, SubShares, DealtTriple, SharedRun.Held;
    assert OperandsBefore(run.nodes[i], i);
    run.HeldSum(run.nodes[i].a);
    run.HeldSum(run.nodes[i].b);
    SumOfSubShares(run.Held(run.nodes[i].a), run.TripleAt(i).a);
    SumOfSubShares(run.Held(run.nodes[i].b), run.TripleAt(i).b);
  }

  lemma MasksUnmoved(run: SharedRun, other: seq<Elem>, hidden: nat, i: NodeId)
    requires run.Valid() && hidden < run.partyCount && i < |run.nodes| && run.nodes[i].MulGate?
    ensures ShiftedRun(run, other, hidden).nodes == run.nodes && ShiftedRun(run, other, hidden).Valid()
    ensures Masks(ShiftedRun(run, other, hidden), i) == Masks(run, i)
  {
    hide Sum, Sub, Add, Masks, SharedRun.TripleAt, ShiftedRun;
    ShiftedData(run, other, hidden);
    MasksOpen(run, i);
    MasksOpen(ShiftedRun(run, other, hidden), i);
    TripleUnmoved(run, other, hidden, i);
    var (x, y) := (run.nodes[i].a, run.nodes[i].b);
    MaskKept(Plain(run, run.secrets, x), Plain(run, other, x), Sum(run.TripleAt(i).a));
    MaskKept(Plain(run, run.secrets, y), Plain(run, other, y), Sum(run.TripleAt(i).b));
  }

  /** A party's share of a product is computed from its own shares and the opened masks alone. */
  lemma ProductIsLocal(x: SharedValue, y: SharedValue, t: BeaverTriple, x': SharedValue, y': SharedValue, t': BeaverTriple, q: nat)
    requires |x| == |y| == |t.a| == |t.b| == |t.c| == |x'| == |y'| == |t'.a| == |t'.b| == |t'.c| && q < |x|
    requires t.a[q] == t'.a[q] && t.b[q] == t'.b[q] && t.c[q] == t'.c[q]
    requires Sum(SubShares(x, t.a)) == Sum(SubShares(x', t'.a)) && Sum(SubShares(y, t.b)) == Sum(SubShares(y', t'.b))
    ensures BeaverProduct(x, y, t)[q] == BeaverProduct(x', y', t')[q]
  {
    hide Sum, SubShares, Add, Mul;
  }

  lemma ProductUnmoved(run: SharedRun, other: seq<Elem>, hidden: nat, i: NodeId)
    requires run.Valid() && hidden < run.partyCount && i < |run.nodes| && run.nodes[i].MulGate?
    ensures ShiftedRun(run, other, hidden).nodes == run.nodes && ShiftedRun(run, other, hidden).Valid()
    ensures SameButOne(run.Held(i), ShiftedRun(run, other, hidden).Held(i), hidden)
  {
    hide ShiftedRun, Sum, DealtTriple, BeaverProduct, SubShares;
    ShiftedData(run, other, hidden);
    var run' := ShiftedRun(run, other, hidden);
    assert OperandsBefore(run.nodes[i], i);
    var (a, b) := (run.nodes[i].a, run.nodes[i].b);
    MasksUnmoved(run, other, hidden, i);
    TripleUnmoved(run, other, hidden, i);
    var (x, y, t, x', y', t') := (run.Held(a), run.Held(b), run.TripleAt(i), run'.Held(a), run'.Held(b), run'.TripleAt(i));
    assert run.Held(i) == BeaverProduct(x, y, t) && run'.Held(i) == BeaverProduct(x', y', t');
    hide SharedRun.Held, SharedRun.TripleAt;
    forall q | 0 <= q < run.partyCount && q != hidden
      ensures BeaverProduct(x, y, t)[q] == BeaverProduct(x', y', t')[q]
    {
      ProductIsLocal(x, y, t, x', y', t', q);
    }
  }

  lemma SumUnmoved(run: SharedRun, run': SharedRun, hidden: nat, i: NodeId, a: NodeId, b: NodeId)
    requires run.Valid() && run'.Valid() && run'.nodes == run.nodes && run'.partyCount == run.partyCount
    requires i < |run.nodes| && run.nodes[i] == AddGate(a, b) && a < i && b < i
    requires SameButOne(run.Held(a), run'.Held(a), hidden) && SameButOne(run.Held(b), run'.Held(b), hidden)
    ensures SameButOne(run.Held(i), run'.Held(i), hidden)
  {
    hide Add;
    assert run.Held(i) == AddShares(run.Held(a), run.Held(b)) && run'.Held(i) == AddShares(run'.Held(a), run'.Held(b));
  }

  lemma {:induction false} OpenPartiesUnmoved(run: SharedRun, other: seq<Elem>, hidden: nat, i: NodeId)
    requires run.Valid() && hidden < run.partyCount && i < |run.nodes|
    ensures ShiftedRun(run, other, hidden).nodes == run.nodes && ShiftedRun(run, other, hidden).Valid()
    ensures SameButOne(run.Held(i), ShiftedRun(run, other, hidden).Held(i), hidden)
    decreases i
  {
    hide ShiftedRun, SharedRun.Held, SameButOne;
    ShiftedData(run, other, hidden);
    assert OperandsBefore(run.nodes[i], i);
    match run.nodes[i] {
      case AddGate(a, b) =>
        OpenPartiesUnmoved(run, other, hidden, a);
        OpenPartiesUnmoved(run, other, hidden, b);
        SumUnmoved(run, ShiftedRun(run, other, hidden), hidden, i, a, b);
      case MulGate(a, b) =>
        ProductUnmoved(run, other, hidden, i);
      case _ =>
        LeafUnmoved(run, other, hidden, i);
    }
  }

  /** Privacy against all parties but one: on the shifted tapes other secret inputs give every open
      party the same share of every node and of every triple, and open the same masks; and a node
      whose value does not change is shared exactly the same, so revealing it shows no more than the
      value. */
  lemma AllButOneLearnNothing(run: SharedRun, other: seq<Elem>, hidden: nat, i: NodeId)
    requires run.Valid() && hidden < run.partyCount && i < |run.nodes|
    ensures ShiftedRun(run, other, hidden).nodes == run.nodes && ShiftedRun(run, other, hidden).Valid()
    ensures ShiftedRun(run, other, hidden).secrets == other && ShiftedRun(run, other, hidden).publics == run.publics
    ensures var run' := ShiftedRun(run, other, hidden);
            && SameButOne(run.Held(i), run'.Held(i), hidden)
            && (run.nodes[i].MulGate? ==>
                  && Masks(run', i) == Masks(run, i) && SameButOne(run.TripleAt(i).a, run'.TripleAt(i).a, hidden)
                  && SameButOne(run.TripleAt(i).b, run'.TripleAt(i).b, hidden)
                  && SameButOne(run.TripleAt(i).c, run'.TripleAt(i).c, hidden))
            && (Value(run.nodes, other, run.publics, i) == Value(run.nodes, run.secrets, run.publics, i) ==> run'.Held(i) == run.Held(i))
  {
    hide ShiftedRun, Sum, SharedRun.TripleAt, SharedRun.Held, Value, Masks;
    ShiftedData(run, other, hidden);
    OpenPartiesUnmoved(run, other, hidden, i);
    if run.nodes[i].MulGate? {
      MasksUnmoved(run, other, hidden, i);
      TripleUnmoved(run, other, hidden, i);
    }
    var run' := ShiftedRun(run, other, hidden);
    run.HeldSum(i);
    run'.HeldSum(i);
    if Value(run.nodes, other, run.publics, i) == Value(run.nodes, run.secrets, run.publics, i) {
      LastIsForced(run.Held(i), run'.Held(i), hidden);
    }
  }

  /** Shares that agree for all parties but one and have one sum agree for that party too. */
  lemma LastIsForced(x: SharedValue, y: SharedValue, hidden: nat)
    requires SameButOne(x, y, hidden) && hidden < |x| && Sum(x) == Sum(y)
    ensures x == y
  {
    hide Sum, Add, Sub;
    assert y == x[hidden := y[hidden]];
    SumUpdate(x, hidden, y[hidden]);
    AddLaws(Sum(x), Sub(y[hidden], x[hidden]), 0);
    AddLaws(Sub(y[hidden], x[hidden]), Sum(x), 0);
    AddLaws(0, Sum(x), 0);
    SubZero(y[hidden], x[hidden]);
  }

  lemma MovedBack(draw: Elem, before: Elem, after: Elem)
    ensures Add(Add(draw, Sub(after, before)), Sub(before, after)) == draw
  {
    FeOf(draw); FeOf(before); FeOf(after);
    hide Fe, Add, Sub;
    Representatives();
  }

  lemma ValuesBack(run: SharedRun, other: seq<Elem>, hidden: nat, k: nat, which: nat)
    requires run.Valid() && k < MulGates(run.nodes, |run.nodes|)
    ensures ShiftedRun(run, other, hidden).nodes == run.nodes && ShiftedRun(run, other, hidden).Valid()
    ensures TripleValue(ShiftedRun(run, other, hidden), k, which) == MovedValue(run, other, k, which)
    ensures MovedValue(ShiftedRun(run, other, hidden), run.secrets, k, which) == TripleValue(run, k, which)
  {
    hide ShiftedRun, Add, Sub, Mul, MulGates, NthMul, Value, SharedRun.TripleStart;
    ShiftedData(run, other, hidden);
    ValueDraws(run, other, hidden, k);
    var i := NthMul(run.nodes, |run.nodes|, k);
    assert OperandsBefore(run.nodes[i], i);
    var (x, y) := (run.nodes[i].a, run.nodes[i].b);
    MovedBack(TripleValue(run, k, 0), Plain(run, run.secrets, x), Plain(run, other, x));
    MovedBack(TripleValue(run, k, 1), Plain(run, run.secrets, y), Plain(run, other, y));
  }

  /** The shift is a bijection of both tapes: shifting back restores every draw. */
  lemma ShiftIsInvertible(run: SharedRun, other: seq<Elem>, hidden: nat, t: nat)
    requires run.Valid()
    ensures ShiftedRun(run, other, hidden).Valid()
    ensures ShiftedDraw(ShiftedRun(run, other, hidden), run.secrets, hidden, t) == run.draws(t)
    ensures ShiftedTripleDraw(ShiftedRun(run, other, hidden), run.secrets, hidden, t) == run.tripleDraws(t)
  {
    hide *;
    ShiftedData(run, other, hidden);
    LeafDrawBack(run, other, hidden, t);
    TripleTapeBack(run, other, hidden, t);
  }

  lemma LeafDrawBack(run: SharedRun, other: seq<Elem>, hidden: nat, t: nat)
    requires run.Valid()
    ensures ShiftedRun(run, other, hidden).Valid()
    ensures ShiftedDraw(ShiftedRun(run, other, hidden), run.secrets, hidden, t) == run.draws(t)
  {
    hide ShiftedRun, Add, Sub, LeavesBefore, NthLeaf, Value, Block, Offset;
    ShiftedData(run, other, hidden);
    if InLeaves(run, t) {
      var i := NthLeaf(run.nodes, |run.nodes|, Block(t - run.at, run.partyCount - 1));
      MovedBack(run.draws(t), Plain(run, run.secrets, i), Plain(run, other, i));
    }
  }

  lemma TripleTapeBack(run: SharedRun, other: seq<Elem>, hidden: nat, t: nat)
    requires run.Valid()
    ensures ShiftedRun(run, other, hidden).Valid()
    ensures ShiftedTripleDraw(ShiftedRun(run, other, hidden), run.secrets, hidden, t) == run.tripleDraws(t)
  {
    hide ShiftedRun, MulGates, ShiftedTripleDraw, Block, Offset;
    ShiftedData(run, other, hidden);
    if InTriples(run, t) {
      var width := 3 * run.partyCount - 1;
      BlockAt(t - run.tripleAt, width);
      TripleDrawBack(run, other, hidden, Block(t - run.tripleAt, width), Offset(t - run.tripleAt, width));
    } else {
      OutsideTriples(run, other, hidden, t);
      OutsideTriples(ShiftedRun(run, other, hidden), run.secrets, hidden, t);
    }
  }

  lemma OutsideTriples(run: SharedRun, other: seq<Elem>, hidden: nat, t: nat)
    requires run.Valid() && !InTriples(run, t)
    ensures ShiftedTripleDraw(run, other, hidden, t) == run.tripleDraws(t)
  {
    hide MulGates, InTriple, Block;
  }

  lemma TripleDrawBack(run: SharedRun, other: seq<Elem>, hidden: nat, k: nat, r: nat)
    requires run.Valid() && k < MulGates(run.nodes, |run.nodes|) && r < 3 * run.partyCount - 1
    ensures ShiftedRun(run, other, hidden).Valid()
    ensures ShiftedTripleDraw(ShiftedRun(run, other, hidden), run.secrets, hidden, run.TripleStart(k) + r) == run.tripleDraws(run.TripleStart(k) + r)
  {
    hide ShiftedRun, Add, Sub, MulGates, TripleValue, MovedValue, SharedRun.TripleStart, ShiftedTripleDraw, Block, Offset;
    ShiftedData(run, other, hidden);
    var (run', w) := (ShiftedRun(run, other, hidden), run.partyCount - 1);
    TripleDraw(run, other, hidden, k, r);
    TripleDraw(run', run.secrets, hidden, k, r);
    if r < 2 {
      ValuesBack(run, other, hidden, k, r);
      StartValues(run, k);
    } else {
      var which := Block(r - 2, w);
      ValuesBack(run, other, hidden, k, which);
      MovedBack(run.tripleDraws(run.TripleStart(k) + r), TripleValue(run, k, which), MovedValue(run, other, k, which));
    }
  }

  lemma StartValues(run: SharedRun, k: nat)
    requires run.partyCount > 1
    ensures TripleValue(run, k, 0) == run.tripleDraws(run.TripleStart(k)) && TripleValue(run, k, 1) == run.tripleDraws(run.TripleStart(k) + 1)
  {
    hide SharedRun.TripleStart;
  }
}
