/** Additive secret sharing among n parties, Beaver multiplication with a triple provider, and
    the evaluation of circuits over shares. Randomness is an explicit tape of field elements. */
module Mpc {
  import opened Wrappers
  import opened PrimeField
  import opened RandomTape
  import opened Circuits

  datatype MpcError =
    | InvalidPartyCount | InsufficientShares | InvalidOperation | ContextMismatch
    | TripleExhaustion | TripleReuse | RevealMisuse | InvalidInputCount

  /** One share per party, in party order. */
  type SharedValue = seq<Elem>

  datatype BeaverTriple = BeaverTriple(a: SharedValue, b: SharedValue, c: SharedValue)

  // ---- sharing -------------------------------------------------------------------------------------

  /** The sharing of a secret whose first shares are the given random elements. */
  function SharesOf(secret: Elem, randoms: seq<Elem>): SharedValue {
    randoms + [Sub(secret, Sum(randoms))]
  }

  lemma SharesOfSum(secret: Elem, randoms: seq<Elem>)
    ensures Sum(SharesOf(secret, randoms)) == secret
  {
    hide Add, Sub;
    SumSnoc(randoms, Sub(secret, Sum(randoms)));
    AddLaws(Sum(randoms), Sub(secret, Sum(randoms)), 0);
    AddLaws(secret, Sum(randoms), 0);
  }

  method ShareInput(partyCount: nat, secret: Elem, rng: Tape) returns (r: Result<SharedValue, MpcError>)
    modifies rng
    ensures partyCount <= 1 ==> r == Err(InvalidPartyCount) && rng.pos == old(rng.pos)
    ensures partyCount > 1 ==>
              && r == Ok(SharesOf(secret, Drawn(rng.draws, old(rng.pos), partyCount - 1)))
              && rng.pos == old(rng.pos) + partyCount - 1
              && |r.value| == partyCount && Sum(r.value) == secret
  {
    if partyCount <= 1 {
      return Err(InvalidPartyCount);
    }
    var randomSum: Elem := 0;
    var shares: seq<Elem> := [];
    for i := 1 to partyCount
      invariant rng.pos == old(rng.pos) + i - 1
      invariant shares == Drawn(rng.draws, old(rng.pos), i - 1)
      invariant randomSum == Sum(shares)
    {
      var x := rng.Rand();
      randomSum := Add(randomSum, x);
      SumSnoc(shares, x);
      shares := shares + [x];
    }
    SharesOfSum(secret, shares);
    return Ok(shares + [Sub(secret, randomSum)]);
  }

  method Reconstruct(partyCount: nat, shares: SharedValue) returns (r: Result<Elem, MpcError>)
    ensures |shares| < partyCount ==> r == Err(InsufficientShares)
    ensures |shares| > partyCount ==> r == Err(InvalidOperation)
    ensures |shares| == partyCount ==> r == Ok(Sum(shares))
  {
    if |shares| < partyCount {
      return Err(InsufficientShares);
    }
    if |shares| > partyCount {
      return Err(InvalidOperation);
    }
    var secret: Elem := 0;
    for i := 0 to |shares|
      invariant secret == Sum(shares[..i])
    {
      secret := Add(secret, shares[i]);
      assert shares[..i + 1] == shares[..i] + [shares[i]];
      SumSnoc(shares[..i], shares[i]);
    }
    assert shares[..|shares|] == shares;
    return Ok(secret);
  }

  // ---- arithmetic on shares ------------------------------------------------------------------------

  function AddShares(x: SharedValue, y: SharedValue): (z: SharedValue)
    requires |x| == |y|
    ensures |z| == |x|
  {
    seq(|x|, i requires 0 <= i < |x| => Add(x[i], y[i]))
  }

  function SubShares(x: SharedValue, y: SharedValue): (z: SharedValue)
    requires |x| == |y|
    ensures |z| == |x|
  {
    seq(|x|, i requires 0 <= i < |x| => Sub(x[i], y[i]))
  }

  /** Adds a public value to the first share only. */
  function AddPublic(x: SharedValue, v: Elem): (z: SharedValue)
    ensures |z| == |x|
  {
    if x == [] then x else x[0 := Add(x[0], v)]
  }

  function MulPublic(x: SharedValue, v: Elem): (z: SharedValue)
    ensures |z| == |x|
  {
    seq(|x|, i requires 0 <= i < |x| => Mul(x[i], v))
  }

  /** Party i's share of a Beaver product under the opened masks d and e. */
  function BeaverShare(t: BeaverTriple, d: Elem, e: Elem, i: nat): Elem
    requires i < |t.a| == |t.b| == |t.c|
  {
    var z := Add(Add(t.c[i], Mul(d, t.b[i])), Mul(e, t.a[i]));
    if i == 0 then Add(z, Mul(d, e)) else z
  }

  function BeaverProduct(x: SharedValue, y: SharedValue, t: BeaverTriple): (z: SharedValue)
    requires |x| == |y| == |t.a| == |t.b| == |t.c|
    ensures |z| == |x|
  {
    var d, e := Sum(SubShares(x, t.a)), Sum(SubShares(y, t.b));
    seq(|x|, i requires 0 <= i < |x| => BeaverShare(t, d, e, i))
  }

  lemma {:induction false} SumOfAddShares(x: SharedValue, y: SharedValue)
    requires |x| == |y|
    ensures Sum(AddShares(x, y)) == Add(Sum(x), Sum(y))
  {
    hide Add;
    if x == [] {
      AddLaws(0, 0, 0);
    } else {
      var n := |x| - 1;
      SumOfAddShares(x[..n], y[..n]);
      assert AddShares(x, y)[..n] == AddShares(x[..n], y[..n]);
      AddExchange(Sum(x[..n]), Sum(y[..n]), x[n], y[n]);
    }
  }

  lemma AddExchange(a: Elem, b: Elem, c: Elem, d: Elem)
    ensures Add(Add(a, b), Add(c, d)) == Add(Add(a, c), Add(b, d))
  {
    FeOf(a); FeOf(b); FeOf(c); FeOf(d);
    hide Fe, Add;
    Representatives();
  }

  lemma {:induction false} SumOfSubShares(x: SharedValue, y: SharedValue)
    requires |x| == |y|
    ensures Sum(SubShares(x, y)) == Sub(Sum(x), Sum(y))
  {
    hide Add, Sub;
    if x == [] {
      SubZero(0, 0);
    } else {
      var n := |x| - 1;
      SumOfSubShares(x[..n], y[..n]);
      assert SubShares(x, y)[..n] == SubShares(x[..n], y[..n]);
      SubExchange(Sum(x[..n]), Sum(y[..n]), x[n], y[n]);
    }
  }

  lemma SubExchange(a: Elem, b: Elem, c: Elem, d: Elem)
    ensures Add(Sub(a, b), Sub(c, d)) == Sub(Add(a, c), Add(b, d))
  {
    FeOf(a); FeOf(b); FeOf(c); FeOf(d);
    hide Fe, Add, Sub;
    Representatives();
  }

  lemma {:induction false} SumOfMulPublic(x: SharedValue, v: Elem)
    ensures Sum(MulPublic(x, v)) == Mul(Sum(x), v)
  {
    hide Add, Mul;
    if x == [] {
      MulLaws(v, 0, 0);
    } else {
      var n := |x| - 1;
      SumOfMulPublic(x[..n], v);
      assert MulPublic(x, v)[..n] == MulPublic(x[..n], v);
      MulLaws(Sum(x[..n]), x[n], v);
    }
  }

  /** Changing the first share only shifts the sum by the same amount. */
  lemma {:induction false} SumOfAddPublic(x: SharedValue, v: Elem)
    requires x != []
    ensures Sum(AddPublic(x, v)) == Add(Sum(x), v)
  {
    hide Add;
    var n := |x| - 1;
    if n == 0 {
      AddLaws(0, x[0], v);
      assert x[..0] == [] && AddPublic(x, v)[..0] == [];
      AddLaws(x[0], 0, 0);
      AddLaws(Add(x[0], v), 0, 0);
    } else {
      SumOfAddPublic(x[..n], v);
      assert AddPublic(x, v)[..n] == AddPublic(x[..n], v);
      AddLaws(Sum(x[..n]), v, x[n]);
      AddLaws(v, x[n], 0);
      AddLaws(Sum(x[..n]), x[n], v);
    }
  }

  /** Beaver multiplication: the shares of the product sum to the product. */
  lemma BeaverProductSum(x: SharedValue, y: SharedValue, t: BeaverTriple)
    requires |x| == |y| == |t.a| == |t.b| == |t.c| > 0
    requires Sum(t.c) == Mul(Sum(t.a), Sum(t.b))
    ensures Sum(BeaverProduct(x, y, t)) == Mul(Sum(x), Sum(y))
  {
    hide Add, Sub, Mul, Sum;
    var d, e := Sum(SubShares(x, t.a)), Sum(SubShares(y, t.b));
    SumOfSubShares(x, t.a);
    SumOfSubShares(y, t.b);
    var bd, ae := MulPublic(t.b, d), MulPublic(t.a, e);
    forall i | 0 <= i < |x|
      ensures Mul(d, t.b[i]) == bd[i] && Mul(e, t.a[i]) == ae[i]
    {
      MulLaws(d, t.b[i], 0);
      MulLaws(e, t.a[i], 0);
    }
    var plain := AddShares(AddShares(t.c, bd), ae);
    assert BeaverProduct(x, y, t) == AddPublic(plain, Mul(d, e));
    SumOfAddPublic(plain, Mul(d, e));
    SumOfAddShares(AddShares(t.c, bd), ae);
    SumOfAddShares(t.c, bd);
    SumOfMulPublic(t.b, d);
    SumOfMulPublic(t.a, e);
    MulLaws(d, Sum(t.b), 0);
    MulLaws(e, Sum(t.a), 0);
    BeaverIdentity(Sum(x), Sum(y), Sum(t.a), Sum(t.b));
  }

  // ---- triples -------------------------------------------------------------------------------------

  /** The triple dealt from the tape at a position: values a and b, then the three sharings. */
  function DealtTriple(draws: nat -> Elem, at: nat, partyCount: nat): (t: BeaverTriple)
    requires partyCount > 1
    ensures |t.a| == |t.b| == |t.c| == partyCount
  {
    var k := partyCount - 1;
    var a, b := draws(at), draws(at + 1);
    BeaverTriple(SharesOf(a, Drawn(draws, at + 2, k)),
                 SharesOf(b, Drawn(draws, at + 2 + k, k)),
                 SharesOf(Mul(a, b), Drawn(draws, at + 2 + 2 * k, k)))
  }

  lemma DealtTripleMultiplies(draws: nat -> Elem, at: nat, partyCount: nat)
    requires partyCount > 1
    ensures var t := DealtTriple(draws, at, partyCount);
            Sum(t.c) == Mul(Sum(t.a), Sum(t.b)) && |t.a| == |t.b| == |t.c| == partyCount
  {
    hide Mul, Sub, Sum;
    var k := partyCount - 1;
    var a, b := draws(at), draws(at + 1);
    SharesOfSum(a, Drawn(draws, at + 2, k));
    SharesOfSum(b, Drawn(draws, at + 2 + k, k));
    SharesOfSum(Mul(a, b), Drawn(draws, at + 2 + 2 * k, k));
  }

  class TripleProvider {
    const partyCount: nat
    const rng: Tape
    var nextId: U64
    var issuedIds: set<int>

    /** The issued ids are always exactly 0, 1, ..., nextId - 1. */
    ghost predicate Valid()
      reads this
    {
      partyCount > 1 && forall id :: id in issuedIds <==> 0 <= id < nextId
    }

    constructor (partyCount: nat, rng: Tape)
      requires partyCount > 1
      ensures Valid() && nextId == 0 && this.partyCount == partyCount && this.rng == rng
    {
      this.partyCount, this.rng := partyCount, rng;
      nextId, issuedIds := 0, {};
    }

    /** Re-issuing an id is impossible: the only failure is running out of 64-bit ids. */
    method IssueId() returns (r: Result<U64, MpcError>)
      requires Valid()
      modifies this
      ensures Valid()
      ensures r == if old(nextId) == TWO_64 - 1 then Err(TripleExhaustion) else Ok(old(nextId))
      ensures nextId == if r.Ok? then old(nextId) + 1 else old(nextId)
    {
      if nextId + 1 >= TWO_64 {
        return Err(TripleExhaustion);
      }
      var id := nextId + 1;
      if id - 1 in issuedIds {
        return Err(TripleReuse);
      }
      issuedIds := issuedIds + {id - 1};
      nextId := id;
      return Ok(id - 1);
    }

    method NextTriple() returns (r: Result<BeaverTriple, MpcError>)
      requires Valid()
      modifies this, rng
      ensures Valid()
      ensures old(nextId) == TWO_64 - 1 ==> r == Err(TripleExhaustion) && nextId == old(nextId)
      ensures old(nextId) < TWO_64 - 1 ==>
                && r == Ok(DealtTriple(rng.draws, old(rng.pos), partyCount)) && nextId == old(nextId) + 1
                && rng.pos == old(rng.pos) + 3 * partyCount - 1
    {
      var issued := IssueId();
      if issued.Err? {
        return Err(issued.error);
      }
      var aValue := rng.Rand();
      var bValue := rng.Rand();
      var cValue := Mul(aValue, bValue);
      var a := ShareInput(partyCount, aValue, rng);
      var b := ShareInput(partyCount, bValue, rng);
      var c := ShareInput(partyCount, cValue, rng);
      return Ok(BeaverTriple(a.value, b.value, c.value));
    }
  }

  method MulSecret(x: SharedValue, y: SharedValue, provider: TripleProvider)
    returns (r: Result<SharedValue, MpcError>)
    requires provider.Valid()
    modifies provider, provider.rng
    ensures provider.Valid()
    ensures |x| != |y| ==> r == Err(ContextMismatch) && provider.nextId == old(provider.nextId)
    ensures |x| == |y| && old(provider.nextId) == TWO_64 - 1 ==> r == Err(TripleExhaustion)
    ensures |x| == |y| && old(provider.nextId) < TWO_64 - 1 ==>
              && provider.nextId == old(provider.nextId) + 1
              && (|x| != provider.partyCount ==> r == Err(ContextMismatch))
              && provider.rng.pos == old(provider.rng.pos) + 3 * provider.partyCount - 1
              && (|x| == provider.partyCount ==>
                    && r == Ok(BeaverProduct(x, y, DealtTriple(provider.rng.draws, old(provider.rng.pos), provider.partyCount)))
                    && |r.value| == |x| && Sum(r.value) == Mul(Sum(x), Sum(y)))
  {
    if |x| != |y| {
      return Err(ContextMismatch);
    }
    var t := provider.NextTriple();
    if t.Err? {
      return Err(t.error);
    }
    DealtTripleMultiplies(provider.rng.draws, old(provider.rng.pos), provider.partyCount);
    var triple := t.value;
    if |triple.a| != |x| || |triple.b| != |x| || |triple.c| != |x| {
      return Err(ContextMismatch);
    }
    BeaverProductSum(x, y, triple);
    return Ok(BeaverProduct(x, y, triple));
  }

  method AddSecret(x: SharedValue, y: SharedValue) returns (r: Result<SharedValue, MpcError>)
    ensures |x| != |y| ==> r == Err(ContextMismatch)
    ensures |x| == |y| ==> r == Ok(AddShares(x, y)) && Sum(r.value) == Add(Sum(x), Sum(y))
  {
    if |x| != |y| {
      return Err(ContextMismatch);
    }
    SumOfAddShares(x, y);
    return Ok(AddShares(x, y));
  }

  // ---- circuit evaluation --------------------------------------------------------------------------

  function MulGates(nodes: seq<Node>, i: nat): nat
    requires i <= |nodes|
  {
    if i == 0 then 0 else MulGates(nodes, i - 1) + if nodes[i - 1].MulGate? then 1 else 0
  }

  function LeavesBefore(nodes: seq<Node>, i: nat): nat
    requires i <= |nodes|
  {
    if i == 0 then 0 else LeavesBefore(nodes, i - 1) + if nodes[i - 1].IsGate() then 0 else 1
  }

  /** One evaluation over shares: the inputs, the tape of the leaves and the tape of the triples. */
  datatype SharedRun = SharedRun(
    nodes: seq<Node>,
    partyCount: nat,
    secrets: seq<Elem>,
    publics: seq<Elem>,
    draws: nat -> Elem,
    at: nat,
    tripleDraws: nat -> Elem,
    tripleAt: nat)
  {
    ghost predicate Valid() {
      partyCount > 1 && TopologicalOrder(nodes)
    }

    /** Every leaf takes one draw less than there are parties. */
    function LeafStart(k: nat): nat
      requires partyCount > 1
    {
      at + (partyCount - 1) * k
    }

    /** Every triple takes the two values and three sharings. */
    function TripleStart(k: nat): nat
      requires partyCount > 1
    {
      tripleAt + (3 * partyCount - 1) * k
    }

    lemma Starts()
      requires partyCount > 1
      ensures LeafStart(0) == at && TripleStart(0) == tripleAt
    {
    }

    lemma NextStarts(i: NodeId)
      requires partyCount > 1 && i < |nodes|
      ensures LeafStart(LeavesBefore(nodes, i + 1)) == LeafStart(LeavesBefore(nodes, i)) + if nodes[i].IsGate() then 0 else partyCount - 1
      ensures TripleStart(MulGates(nodes, i + 1)) ==
                TripleStart(MulGates(nodes, i)) + if nodes[i].MulGate? then 3 * partyCount - 1 else 0
    {
      var (l, m) := (LeavesBefore(nodes, i), MulGates(nodes, i));
      assert (partyCount - 1) * (l + 1) == (partyCount - 1) * l + (partyCount - 1);
      assert (3 * partyCount - 1) * (m + 1) == (3 * partyCount - 1) * m + (3 * partyCount - 1);
    }

    function Leaf(i: NodeId): Elem
      requires i < |nodes|
    {
      match nodes[i]
      case SecretInput => Slot(secrets, SecretsBefore(nodes, i))
      case PublicInput => Slot(publics, PublicsBefore(nodes, i))
      case Constant(k) => k
      case _ => 0
    }

    function TripleAt(i: NodeId): BeaverTriple
      requires Valid() && i < |nodes|
    {
      DealtTriple(tripleDraws, TripleStart(MulGates(nodes, i)), partyCount)
    }

    /** The shares of node i: fresh ones for a leaf, and for a gate what the parties compute. */
    function Held(i: NodeId): (shares: SharedValue)
      requires Valid() && i < |nodes|
      ensures |shares| == partyCount
      decreases i
    {
      assert OperandsBefore(nodes[i], i);
      match nodes[i]
      case AddGate(a, b) => AddShares(Held(a), Held(b))
      case MulGate(a, b) => BeaverProduct(Held(a), Held(b), TripleAt(i))
      case _ => SharesOf(Leaf(i), Drawn(draws, LeafStart(LeavesBefore(nodes, i)), partyCount - 1))
    }

    /** At every node the shares sum to the plaintext value. */
    lemma {:induction false} HeldSum(i: NodeId)
      requires Valid() && i < |nodes|
      ensures Sum(Held(i)) == Value(nodes, secrets, publics, i)
      decreases i
    {
      hide Add, Mul, Sum, SharesOf, AddShares, BeaverProduct, DealtTriple;
      assert OperandsBefore(nodes[i], i);
      match nodes[i] {
        case AddGate(a, b) =>
          HeldSum(a);
          HeldSum(b);
          SumOfAddShares(Held(a), Held(b));
        case MulGate(a, b) =>
          HeldSum(a);
          HeldSum(b);
          DealtTripleMultiplies(tripleDraws, TripleStart(MulGates(nodes, i)), partyCount);
          BeaverProductSum(Held(a), Held(b), TripleAt(i));
        case _ =>
          SharesOfSum(Leaf(i), Drawn(draws, LeafStart(LeavesBefore(nodes, i)), partyCount - 1));
      }
    }
  }

  /** The shares held for a node reconstruct the plaintext value of the node. */
  ghost predicate Represents(shared: SharedValue, partyCount: nat, value: Elem) {
    |shared| == partyCount && Sum(shared) == value
  }

  class Simulator {
    const partyCount: nat
    const provider: TripleProvider
    const rng: Tape

    ghost predicate Valid()
      reads this, provider
    {
      && partyCount > 1 && provider.Valid()
      && provider.partyCount == partyCount && provider.rng != rng
    }

    constructor (partyCount: nat, provider: TripleProvider, rng: Tape)
      requires partyCount > 1 && provider.Valid() && provider.partyCount == partyCount
      requires provider.rng != rng
      ensures Valid() && this.partyCount == partyCount && this.provider == provider && this.rng == rng
    {
      this.partyCount, this.provider, this.rng := partyCount, provider, rng;
    }

    method Reveal(shared: SharedValue) returns (r: Result<Elem, MpcError>)
      ensures r == if |shared| != partyCount then Err(RevealMisuse) else Ok(Sum(shared))
    {
      if |shared| != partyCount {
        return Err(RevealMisuse);
      }
      r := Reconstruct(partyCount, shared);
    }

    /** Evaluating a circuit over shares refines the plaintext semantics: every output, once
        revealed, is the reference output. One triple is consumed per multiplication gate, and the
        evaluation fails only on wrong input counts or when the 64-bit triple ids run out. The shares
        themselves are the function of both tapes that `SharedRun` says. */
    method Evaluate(c: Circuit, secrets: seq<Elem>, publics: seq<Elem>)
      returns (r: Result<seq<SharedValue>, CircuitError>)
      requires Valid() && ValidCircuit(c)
      modifies provider, provider.rng, rng
      ensures Valid()
      ensures |secrets| != c.numSecretInputs || |publics| != c.numPublicInputs ==> r == Err(CircuitError.InvalidInputCount)
      ensures |secrets| == c.numSecretInputs && |publics| == c.numPublicInputs ==>
                if old(provider.nextId) + MulGates(c.nodes, |c.nodes|) <= TWO_64 - 1
                then r.Ok? && provider.nextId == old(provider.nextId) + MulGates(c.nodes, |c.nodes|)
                else r == Err(MpcFault)
      ensures r.Ok? ==> |r.value| == |c.outputs|
      ensures r.Ok? ==> forall k :: 0 <= k < |c.outputs| ==>
                Represents(r.value[k], partyCount, Outputs(c, secrets, publics)[k])
      ensures r.Ok? ==>
                var run := SharedRun(c.nodes, partyCount, secrets, publics, rng.draws, old(rng.pos), provider.rng.draws, old(provider.rng.pos));
                && rng.pos == run.LeafStart(LeavesBefore(c.nodes, |c.nodes|))
                && provider.rng.pos == run.TripleStart(MulGates(c.nodes, |c.nodes|))
                && forall k :: 0 <= k < |c.outputs| ==> r.value[k] == run.Held(c.outputs[k])
    {
      hide Add, Mul, Sum, SharedRun.Held, SharedRun.TripleStart, SharedRun.LeafStart;
      if |secrets| != c.numSecretInputs || |publics| != c.numPublicInputs {
        return Err(CircuitError.InvalidInputCount);
      }
      ghost var run := SharedRun(c.nodes, partyCount, secrets, publics, rng.draws, rng.pos, provider.rng.draws, provider.rng.pos);
      run.Starts();
      var values: seq<SharedValue> := [];
      var nextSecret, nextPublic := 0, 0;
      for i := 0 to |c.nodes|
        invariant Valid() && |values| == i
        invariant nextSecret == SecretsBefore(c.nodes, i) && nextPublic == PublicsBefore(c.nodes, i)
        invariant provider.nextId == old(provider.nextId) + MulGates(c.nodes, i)
        invariant rng.pos == run.LeafStart(LeavesBefore(c.nodes, i)) && provider.rng.pos == run.TripleStart(MulGates(c.nodes, i))
        invariant forall j :: 0 <= j < i ==> values[j] == run.Held(j)
      {
        CountsMonotone(c.nodes, i + 1, |c.nodes|);
        MulGatesMonotone(c.nodes, i + 1, |c.nodes|);
        var shared := EvaluateNode(c, run, secrets, publics, values, nextSecret, nextPublic);
        if shared.Err? {
          return Err(MpcFault);
        }
        nextSecret := nextSecret + if c.nodes[i].SecretInput? then 1 else 0;
        nextPublic := nextPublic + if c.nodes[i].PublicInput? then 1 else 0;
        values := values + [shared.value];
      }
      forall k | 0 <= k < |c.outputs|
        ensures Represents(run.Held(c.outputs[k]), partyCount, Outputs(c, secrets, publics)[k])
      {
        run.HeldSum(c.outputs[k]);
      }
      return Ok(seq(|c.outputs|, k requires 0 <= k < |c.outputs| => values[c.outputs[k]]));
    }

    /** One node: a leaf is shared afresh, a gate is computed on the shares of its operands. Only a
        multiplication can fail, when the triple ids have run out. */
    method EvaluateNode(c: Circuit, ghost run: SharedRun, secrets: seq<Elem>, publics: seq<Elem>, values: seq<SharedValue>,
                        nextSecret: nat, nextPublic: nat)
      returns (shared: Result<SharedValue, MpcError>)
      requires Valid() && ValidCircuit(c) && |values| < |c.nodes|
      requires run.nodes == c.nodes && run.partyCount == partyCount && run.secrets == secrets && run.publics == publics
      requires run.draws == rng.draws && run.tripleDraws == provider.rng.draws
      requires |secrets| == c.numSecretInputs && |publics| == c.numPublicInputs
      requires nextSecret == SecretsBefore(c.nodes, |values|) && nextPublic == PublicsBefore(c.nodes, |values|)
      requires SecretsBefore(c.nodes, |values| + 1) <= |secrets| && PublicsBefore(c.nodes, |values| + 1) <= |publics|
      requires rng.pos == run.LeafStart(LeavesBefore(c.nodes, |values|))
      requires provider.rng.pos == run.TripleStart(MulGates(c.nodes, |values|))
      requires forall j :: 0 <= j < |values| ==> values[j] == run.Held(j)
      modifies provider, provider.rng, rng
      ensures Valid()
      ensures shared.Err? <==> c.nodes[|values|].MulGate? && old(provider.nextId) == TWO_64 - 1
      ensures shared.Ok? ==>
                && shared.value == run.Held(|values|)
                && provider.nextId == old(provider.nextId) + MulGates(c.nodes, |values| + 1) - MulGates(c.nodes, |values|)
                && rng.pos == run.LeafStart(LeavesBefore(c.nodes, |values| + 1))
                && provider.rng.pos == run.TripleStart(MulGates(c.nodes, |values| + 1))
    {
      hide Add, Mul, Sum, SharesOf, BeaverProduct, DealtTriple, AddShares, SharedRun.TripleStart, SharedRun.LeafStart;
      var i := |values|;
      run.NextStarts(i);
      assert OperandsBefore(c.nodes[i], i);
      match c.nodes[i] {
        case SecretInput =>
          shared := ShareInput(partyCount, secrets[nextSecret], rng);
        case PublicInput =>
          shared := ShareInput(partyCount, publics[nextPublic], rng);
        case Constant(k) =>
          shared := ShareInput(partyCount, k, rng);
        case AddGate(a, b) =>
          shared := AddSecret(values[a], values[b]);
        case MulGate(a, b) =>
          shared := MulSecret(values[a], values[b], provider);
      }
    }
  }

  lemma {:induction false} MulGatesMonotone(nodes: seq<Node>, i: nat, j: nat)
    requires i <= j <= |nodes|
    ensures MulGates(nodes, i) <= MulGates(nodes, j)
  {
    if i < j {
      MulGatesMonotone(nodes, i, j - 1);
    }
  }

  /** Running a circuit on shares and revealing every output gives the reference outputs, for every
      random tape of the inputs and of the triples. */
  method EvaluateAndReveal(sim: Simulator, c: Circuit, secrets: seq<Elem>, publics: seq<Elem>)
    returns (outs: seq<Elem>)
    requires sim.Valid() && ValidCircuit(c)
    requires |secrets| == c.numSecretInputs && |publics| == c.numPublicInputs
    requires sim.provider.nextId + MulGates(c.nodes, |c.nodes|) <= TWO_64 - 1
    modifies sim.provider, sim.provider.rng, sim.rng
    ensures outs == Outputs(c, secrets, publics)
  {
    var shared := sim.Evaluate(c, secrets, publics);
    outs := [];
    for k := 0 to |c.outputs|
      invariant outs == Outputs(c, secrets, publics)[..k]
    {
      assert Represents(shared.value[k], sim.partyCount, Outputs(c, secrets, publics)[k]);
      var revealed := sim.Reveal(shared.value[k]);
      outs := outs + [revealed.value];
    }
  }
}
