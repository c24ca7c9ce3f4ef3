/** What a compiled policy computes, as functions of the circuit inputs: the boolean wire of every
    sub-policy, the discriminants of its thresholds, and the meaning those wires stand for. */
module PolicyWires {
  import opened PrimeField
  import opened Circuits
  import opened CircuitGates
  import opened Policies
  import opened PolicyValidation
  import opened RangeCheck

  // ---- input layout ------------------------------------------------------------------------------------

  datatype SecretSlot =
    | CredentialSlot(index: nat)
    | AmountSlot
    | AmountBit(index: nat)
    | DifferenceBit(index: nat)
    | Auxiliary

  datatype PublicSlot =
    | CredentialCommitmentSlot(index: nat)
    | AmountLimitSlot

  /** The digit slots of the amount, or of the difference to the limit. */
  function BitSlots(ofAmount: bool, n: nat): (slots: seq<SecretSlot>)
    ensures |slots| == n
  {
    seq(n, i requires 0 <= i < n => if ofAmount then AmountBit(i) else DifferenceBit(i))
  }

  /** Secret inputs of a policy, in declaration order, when c credentials came before. */
  function SecretSlots(p: Policy, c: nat): seq<SecretSlot>
    decreases p, 1
  {
    match p
    case Credential(_) => [CredentialSlot(c)]
    case AmountAtMost(_) => [AmountSlot] + BitSlots(true, 64) + BitSlots(false, 64)
    case Threshold(_, ms) => SecretSlotsOf(ms, c) + [Auxiliary]
    case And(ms) => SecretSlotsOf(ms, c)
    case Or(ms) => SecretSlotsOf(ms, c)
  }

  function SecretSlotsOf(ms: seq<Policy>, c: nat): seq<SecretSlot>
    decreases ms, 0
  {
    if ms == [] then []
    else
      var (front, last) := (ms[..|ms| - 1], ms[|ms| - 1]);
      SecretSlotsOf(front, c) + SecretSlots(last, c + CredentialsOf(front))
  }

  function PublicSlots(p: Policy, c: nat): seq<PublicSlot>
    decreases p, 1
  {
    match p
    case Credential(_) => [CredentialCommitmentSlot(c)]
    case AmountAtMost(_) => [AmountLimitSlot]
    case _ => PublicSlotsOf(p.members, c)
  }

  function PublicSlotsOf(ms: seq<Policy>, c: nat): seq<PublicSlot>
    decreases ms, 0
  {
    if ms == [] then []
    else
      var (front, last) := (ms[..|ms| - 1], ms[|ms| - 1]);
      PublicSlotsOf(front, c) + PublicSlots(last, c + CredentialsOf(front))
  }

  /** How many secret and public inputs a policy reads. */
  function Secrets(p: Policy): nat
    decreases p, 1
  {
    match p
    case Credential(_) => 1
    case AmountAtMost(_) => 129
    case Threshold(_, ms) => SecretsOf(ms) + 1
    case And(ms) => SecretsOf(ms)
    case Or(ms) => SecretsOf(ms)
  }

  function SecretsOf(ms: seq<Policy>): nat
    decreases ms, 0
  {
    if ms == [] then 0 else SecretsOf(ms[..|ms| - 1]) + Secrets(ms[|ms| - 1])
  }

  function Publics(p: Policy): nat
    decreases p, 1
  {
    if p.IsLeaf() then 1 else PublicsOf(p.members)
  }

  function PublicsOf(ms: seq<Policy>): nat
    decreases ms, 0
  {
    if ms == [] then 0 else PublicsOf(ms[..|ms| - 1]) + Publics(ms[|ms| - 1])
  }

  // ---- wires -------------------------------------------------------------------------------------------

  datatype FoldKind = Conjunction | Disjunction | Total

  function Unit(kind: FoldKind): Elem {
    if kind.Conjunction? then 1 else 0
  }

  function Step(kind: FoldKind, a: Elem, b: Elem): Elem {
    match kind
    case Conjunction => Mul(a, b)
    case Disjunction => Sub(Add(a, b), Mul(a, b))
    case Total => Add(a, b)
  }

  function Fold(kind: FoldKind, xs: seq<Elem>): Elem {
    if xs == [] then Unit(kind) else Step(kind, Fold(kind, xs[..|xs| - 1]), xs[|xs| - 1])
  }

  /** The product of sum - t over all t below k: zero exactly while the sum is below k. */
  function Discriminant(k: nat, sum: Elem): Elem {
    if k == 0 then 1 else Mul(Discriminant(k - 1, sum), Add(sum, Neg(Fe(k - 1))))
  }

  function IsZero(x: Elem): Elem {
    Sub(1, if x == 0 then 0 else 1)
  }

  /** The product of the zero tests of the four range-check wires. */
  function AllZero(cs: seq<Elem>): Elem {
    if cs == [] then 1 else Mul(AllZero(cs[..|cs| - 1]), IsZero(cs[|cs| - 1]))
  }

  function SecretBlock(x: Inputs, s: nat, n: nat): (ds: seq<Elem>)
    ensures |ds| == n
  {
    seq<Elem>(n, i requires 0 <= i < n => x.Secret(s + i))
  }

  /** The boolean wire of a policy whose inputs start at secret s and public q. */
  function Wire(p: Policy, x: Inputs, s: nat, q: nat): Elem
    decreases p, 1
  {
    match p
    case Credential(_) => IsZero(Sub(x.Secret(s), x.Public(q)))
    case AmountAtMost(_) =>
      AllZero(Constraints(x.Secret(s), x.Public(q), SecretBlock(x, s + 1, 64), SecretBlock(x, s + 65, 64)))
    case Threshold(k, ms) =>
      Mul(Discriminant(k, Fold(Total, Wires(ms, x, s, q))), x.Secret(s + SecretsOf(ms)))
    case And(ms) => Fold(Conjunction, Wires(ms, x, s, q))
    case Or(ms) => Fold(Disjunction, Wires(ms, x, s, q))
  }

  function Wires(ms: seq<Policy>, x: Inputs, s: nat, q: nat): (ws: seq<Elem>)
    ensures |ws| == |ms|
    decreases ms, 0
  {
    if ms == [] then []
    else
      var (front, last) := (ms[..|ms| - 1], ms[|ms| - 1]);
      Wires(front, x, s, q) + [Wire(last, x, s + SecretsOf(front), q + PublicsOf(front))]
  }

  /** The discriminants of all thresholds, in the order in which they are emitted. */
  function Discriminants(p: Policy, x: Inputs, s: nat, q: nat): seq<Elem>
    decreases p, 1
  {
    match p
    case Threshold(k, ms) => DiscriminantsOf(ms, x, s, q) + [Discriminant(k, Fold(Total, Wires(ms, x, s, q)))]
    case And(ms) => DiscriminantsOf(ms, x, s, q)
    case Or(ms) => DiscriminantsOf(ms, x, s, q)
    case _ => []
  }

  function DiscriminantsOf(ms: seq<Policy>, x: Inputs, s: nat, q: nat): seq<Elem>
    decreases ms, 0
  {
    if ms == [] then []
    else
      var (front, last) := (ms[..|ms| - 1], ms[|ms| - 1]);
      DiscriminantsOf(front, x, s, q) + Discriminants(last, x, s + SecretsOf(front), q + PublicsOf(front))
  }

  /** The positions of the auxiliary inputs, one for every threshold, in the same order. */
  function AuxPositions(p: Policy, s: nat): seq<nat>
    decreases p, 1
  {
    match p
    case Threshold(_, ms) => AuxPositionsOf(ms, s) + [s + SecretsOf(ms)]
    case And(ms) => AuxPositionsOf(ms, s)
    case Or(ms) => AuxPositionsOf(ms, s)
    case _ => []
  }

  function AuxPositionsOf(ms: seq<Policy>, s: nat): seq<nat>
    decreases ms, 0
  {
    if ms == [] then []
    else
      var (front, last) := (ms[..|ms| - 1], ms[|ms| - 1]);
      AuxPositionsOf(front, s) + AuxPositions(last, s + SecretsOf(front))
  }

  lemma {:induction false} LayoutSizes(p: Policy, x: Inputs, s: nat, q: nat, c: nat)
    ensures |SecretSlots(p, c)| == Secrets(p) && |PublicSlots(p, c)| == Publics(p)
    ensures |Discriminants(p, x, s, q)| == |AuxPositions(p, s)|
    decreases p, 1
  {
    hide Wires, Fold;
    if !p.IsLeaf() {
      LayoutSizesOf(p.members, x, s, q, c);
    }
  }

  lemma {:induction false} LayoutSizesOf(ms: seq<Policy>, x: Inputs, s: nat, q: nat, c: nat)
    ensures |SecretSlotsOf(ms, c)| == SecretsOf(ms) && |PublicSlotsOf(ms, c)| == PublicsOf(ms)
    ensures |DiscriminantsOf(ms, x, s, q)| == |AuxPositionsOf(ms, s)|
    decreases ms, 0
  {
    hide Secrets, Publics, SecretSlots, PublicSlots, Discriminants, AuxPositions, Credentials, CredentialsOf;
    if ms != [] {
      var (front, last) := (ms[..|ms| - 1], ms[|ms| - 1]);
      LayoutSizesOf(front, x, s, q, c);
      LayoutSizes(last, x, s + SecretsOf(front), q + PublicsOf(front), c + CredentialsOf(front));
    }
  }

  predicate Increasing(a: seq<nat>, lo: nat, hi: nat) {
    && (forall i, j :: 0 <= i < j < |a| ==> a[i] < a[j])
    && (forall i :: 0 <= i < |a| ==> lo <= a[i] < hi)
  }

  lemma IncreasingSum(a: seq<nat>, b: seq<nat>, lo: nat, mid: nat, hi: nat)
    requires lo <= mid <= hi && Increasing(a, lo, mid) && Increasing(b, mid, hi)
    ensures Increasing(a + b, lo, hi)
  {
  }

  /** Auxiliary positions increase, and lie within the policy's own inputs. */
  lemma {:induction false} AuxOrdered(p: Policy, s: nat)
    ensures Increasing(AuxPositions(p, s), s, s + Secrets(p))
    decreases p, 1
  {
    hide Increasing;
    if p.IsLeaf() {
      EmptyIncreasing(s, s + Secrets(p));
    } else {
      AuxOrderedOf(p.members, s);
      var at := s + SecretsOf(p.members);
      if p.Threshold? {
        SingleIncreasing(at);
        IncreasingSum(AuxPositionsOf(p.members, s), [at], s, at, at + 1);
      }
    }
  }

  lemma EmptyIncreasing(lo: nat, hi: nat)
    ensures Increasing([], lo, hi)
  {
  }

  lemma SingleIncreasing(at: nat)
    ensures Increasing([at], at, at + 1)
  {
  }

  lemma {:induction false} AuxOrderedOf(ms: seq<Policy>, s: nat)
    ensures Increasing(AuxPositionsOf(ms, s), s, s + SecretsOf(ms))
    decreases ms, 0
  {
    hide Secrets, AuxPositions, Increasing;
    if ms == [] {
      EmptyIncreasing(s, s);
    } else {
      var (front, last) := (ms[..|ms| - 1], ms[|ms| - 1]);
      AuxOrderedOf(front, s);
      AuxOrdered(last, s + SecretsOf(front));
      IncreasingSum(AuxPositionsOf(front, s), AuxPositions(last, s + SecretsOf(front)),
                    s, s + SecretsOf(front), s + SecretsOf(ms));
    }
  }

  // ---- meaning on the inputs ---------------------------------------------------------------------------

  /** The policy read off the inputs: a credential leaf asks that its secret slot equals its public
      slot, an amount leaf that its amount slot is at most its limit slot. */
  predicate Holds(p: Policy, x: Inputs, s: nat, q: nat)
    decreases p, 1
  {
    match p
    case Credential(_) => x.Secret(s) == x.Public(q)
    case AmountAtMost(_) => x.Secret(s) <= x.Public(q)
    case Threshold(k, ms) => Trues(HoldsOf(ms, x, s, q)) >= k
    case And(ms) => forall i :: 0 <= i < |ms| ==> HoldsOf(ms, x, s, q)[i]
    case Or(ms) => exists i :: 0 <= i < |ms| && HoldsOf(ms, x, s, q)[i]
  }

  function HoldsOf(ms: seq<Policy>, x: Inputs, s: nat, q: nat): (hs: seq<bool>)
    ensures |hs| == |ms|
    decreases ms, 0
  {
    if ms == [] then []
    else
      var (front, last) := (ms[..|ms| - 1], ms[|ms| - 1]);
      HoldsOf(front, x, s, q) + [Holds(last, x, s + SecretsOf(front), q + PublicsOf(front))]
  }

  function Trues(hs: seq<bool>): (n: nat)
    ensures n <= |hs|
  {
    if hs == [] then 0 else Trues(hs[..|hs| - 1]) + if hs[|hs| - 1] then 1 else 0
  }

  /** Every combinator has members, every threshold asks for at least one of fewer than p members:
      what the emitter and its field arithmetic rely on. */
  predicate Emittable(p: Policy)
    decreases p
  {
    && (p.IsLeaf() || (p.members != [] && forall i :: 0 <= i < |p.members| ==> Emittable(p.members[i])))
    && (p.Threshold? ==> p.k > 0)
  }

  predicate Countable(p: Policy)
    decreases p
  {
    p.IsLeaf() || (|p.members| < P && forall i :: 0 <= i < |p.members| ==> Countable(p.members[i]))
  }

  /** The limits are 64-bit integers. */
  predicate LimitsFit(p: Policy, x: Inputs, q: nat)
    decreases p, 1
  {
    match p
    case Credential(_) => true
    case AmountAtMost(_) => x.Public(q) < TWO_64
    case _ => LimitsFitOf(p.members, x, q)
  }

  predicate LimitsFitOf(ms: seq<Policy>, x: Inputs, q: nat)
    decreases ms, 0
  {
    ms != [] ==>
      var (front, last) := (ms[..|ms| - 1], ms[|ms| - 1]);
      LimitsFitOf(front, x, q) && LimitsFit(last, x, q + PublicsOf(front))
  }

  /** The digit slots hold zeros and ones. */
  predicate DigitsBinary(p: Policy, x: Inputs, s: nat)
    decreases p, 1
  {
    match p
    case Credential(_) => true
    case AmountAtMost(_) => Binary(SecretBlock(x, s + 1, 64)) && Binary(SecretBlock(x, s + 65, 64))
    case _ => DigitsBinaryOf(p.members, x, s)
  }

  predicate DigitsBinaryOf(ms: seq<Policy>, x: Inputs, s: nat)
    decreases ms, 0
  {
    ms != [] ==>
      var (front, last) := (ms[..|ms| - 1], ms[|ms| - 1]);
      DigitsBinaryOf(front, x, s) && DigitsBinary(last, x, s + SecretsOf(front))
  }

  /** The amount is a 64-bit integer and the digit slots hold the digits the builder supplies. */
  predicate DigitsHonest(p: Policy, x: Inputs, s: nat, q: nat)
    decreases p, 1
  {
    match p
    case Credential(_) => true
    case AmountAtMost(_) =>
      && x.Secret(s) < TWO_64 && x.Public(q) < TWO_64
      && SecretBlock(x, s + 1, 64) == Digits(x.Secret(s), 64)
      && SecretBlock(x, s + 65, 64) == Digits(WrappingSub(x.Public(q), x.Secret(s)), 64)
    case _ => DigitsHonestOf(p.members, x, s, q)
  }

  predicate DigitsHonestOf(ms: seq<Policy>, x: Inputs, s: nat, q: nat)
    decreases ms, 0
  {
    ms != [] ==>
      var (front, last) := (ms[..|ms| - 1], ms[|ms| - 1]);
      DigitsHonestOf(front, x, s, q) && DigitsHonest(last, x, s + SecretsOf(front), q + PublicsOf(front))
  }

  /** The published constraints: every threshold wire is zero or one. */
  predicate ConstraintsZero(ds: seq<Elem>, aux: seq<nat>, x: Inputs) {
    |ds| == |aux| && forall j :: 0 <= j < |ds| ==> Booleanity(Mul(ds[j], x.Secret(aux[j]))) == 0
  }

  /** Every auxiliary input inverts its discriminant, or is zero with it. */
  predicate Solved(ds: seq<Elem>, aux: seq<nat>, x: Inputs) {
    |ds| == |aux| && forall j :: 0 <= j < |ds| ==> x.Secret(aux[j]) == Inv(ds[j])
  }

  // ---- arithmetic of boolean wires ---------------------------------------------------------------------

  function Indicator(b: bool): Elem {
    if b then 1 else 0
  }

  function OnesOf(xs: seq<Elem>): (hs: seq<bool>)
    ensures |hs| == |xs|
  {
    seq(|xs|, i requires 0 <= i < |xs| => xs[i] == 1)
  }

  lemma UnitStep(kind: FoldKind, v: Elem)
    ensures Step(kind, Unit(kind), v) == v
  {
    hide Fe, Add, Mul, Sub;
    FeOf(1);
    AddLaws(v, 0, 0);
    MulLaws(v, 0, 0);
    SubZeroRight(v);
  }

  lemma SubZeroRight(v: Elem)
    ensures Sub(v, 0) == v && Sub(v, v) == 0
  {
    hide Add, Sub;
    AddLaws(v, 0, 0);
    SubZero(v, v);
  }

  lemma BooleanTables()
    ensures Mul(0, 0) == 0 && Mul(0, 1) == 0 && Mul(1, 0) == 0 && Mul(1, 1) == 1
    ensures Add(0, 0) == 0 && Add(0, 1) == 1 && Add(1, 0) == 1 && Sub(0, 0) == 0 && Sub(1, 0) == 1 && Sub(1, 1) == 0
    ensures Sub(Add(1, 1), 1) == 1
  {
    hide Fe, Add, Mul, Sub;
    FeOf(1);
    MulLaws(0, 0, 0);
    MulLaws(1, 0, 0);
    AddLaws(1, 1, 0);
    AddLaws(0, 0, 0);
    SubZeroRight(1);
    SubZeroRight(0);
  }

  lemma {:induction false} FoldBoolean(xs: seq<Elem>)
    requires Binary(xs)
    ensures Fold(Conjunction, xs) == Indicator(forall i :: 0 <= i < |xs| ==> xs[i] == 1)
    ensures Fold(Disjunction, xs) == Indicator(exists i :: 0 <= i < |xs| && xs[i] == 1)
  {
    hide Fe, Add, Mul, Sub;
    if xs != [] {
      var n := |xs| - 1;
      FoldBoolean(xs[..n]);
      BooleanTables();
    }
  }

  lemma {:induction false} FoldTotal(xs: seq<Elem>)
    requires Binary(xs)
    ensures Fold(Total, xs) == Fe(Trues(OnesOf(xs)))
  {
    hide Fe, Add, Mul, Sub;
    if xs == [] {
      FeOf(0);
    } else {
      var n := |xs| - 1;
      FoldTotal(xs[..n]);
      assert OnesOf(xs)[..n] == OnesOf(xs[..n]);
      FeOf(xs[n]);
      FeAdd(Trues(OnesOf(xs[..n])), xs[n]);
    }
  }

  /** The discriminant of a count vanishes exactly below k. */
  lemma {:induction false} DiscriminantZero(k: nat, n: nat)
    requires n < P && k <= P
    ensures Discriminant(k, Fe(n)) == 0 <==> n < k
  {
    hide Fe, Add, Mul, Sub, Neg;
    if k > 0 {
      DiscriminantZero(k - 1, n);
      ZeroProduct(Discriminant(k - 1, Fe(n)), Add(Fe(n), Neg(Fe(k - 1))));
      AddLaws(Fe(n), Fe(k - 1), 0);
      SubZero(Fe(n), Fe(k - 1));
      FeOfSmall(n);
      FeOfSmall(k - 1);
    }
  }

  lemma ThresholdWire(k: nat, xs: seq<Elem>, aux: Elem)
    requires Binary(xs) && |xs| < P && k <= P
    ensures var (d, n) := (Discriminant(k, Fold(Total, xs)), Trues(OnesOf(xs)));
            && (Booleanity(Mul(d, aux)) == 0 ==> Mul(d, aux) == 0 || Mul(d, aux) == 1)
            && (Mul(d, aux) == 1 ==> n >= k)
            && (aux == Inv(d) ==> Mul(d, aux) == Indicator(n >= k) && Booleanity(Mul(d, aux)) == 0)
  {
    hide Fe, Mul, Inv, Booleanity, Discriminant, Fold;
    var (d, n) := (Discriminant(k, Fold(Total, xs)), Trues(OnesOf(xs)));
    FoldTotal(xs);
    DiscriminantZero(k, n);
    BooleanityZero(Mul(d, aux));
    ZeroProduct(d, aux);
    if d != 0 {
      InverseLaw(d);
    }
  }

  lemma {:induction false} AllZeroBoolean(cs: seq<Elem>)
    ensures AllZero(cs) == Indicator(forall i :: 0 <= i < |cs| ==> cs[i] == 0)
  {
    hide Fe, Add, Mul, Sub;
    BooleanTables();
    if cs != [] {
      AllZeroBoolean(cs[..|cs| - 1]);
    }
  }

  lemma {:induction false} FewerOnes(xs: seq<Elem>, hs: seq<bool>)
    requires |xs| == |hs| && forall i :: 0 <= i < |xs| ==> xs[i] == 1 ==> hs[i]
    ensures Trues(OnesOf(xs)) <= Trues(hs)
  {
    if xs != [] {
      FewerOnes(xs[..|xs| - 1], hs[..|hs| - 1]);
      assert OnesOf(xs)[..|xs| - 1] == OnesOf(xs[..|xs| - 1]);
    }
  }

  // ---- the leaves --------------------------------------------------------------------------------------

  lemma CredentialWire(v: Elem, c: Elem)
    ensures IsZero(Sub(v, c)) == Indicator(v == c)
  {
    hide Fe, Sub, Mul, Add;
    SubZero(v, c);
    BooleanTables();
  }

  lemma AmountWire(value: Elem, limit: U64, ds: seq<Elem>, es: seq<Elem>)
    requires Wide() && |ds| == |es| == 64
    ensures limit < P
    ensures Binary(ds) && Binary(es) ==>
              var w := AllZero(Constraints(value, limit, ds, es));
              (w == 0 || w == 1) && (w == 1 ==> value <= limit)
    ensures value < TWO_64 && ds == Digits(value, 64) && es == Digits(WrappingSub(limit, value), 64) ==>
              AllZero(Constraints(value, limit, ds, es)) == Indicator(value <= limit)
  {
    hide Constraints, Digits;
    AllZeroBoolean(Constraints(value, limit, ds, es));
    if Binary(ds) && Binary(es) {
      RangeCheckExact(value, limit, ds, es);
    }
    if value < TWO_64 && ds == Digits(value, 64) && es == Digits(WrappingSub(limit, value), 64) {
      SuppliedDigits(value, limit);
      var cs := Constraints(value, limit, ds, es);
      assert (forall i :: 0 <= i < 4 ==> cs[i] == 0) <==> cs[0] == 0 && cs[1] == 0 && cs[2] == 0 && cs[3] == 0;
    }
  }
}
