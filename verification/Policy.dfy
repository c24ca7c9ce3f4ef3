/** Payment policies, their witnesses and the reference evaluator. */
module Policies {
  import opened Wrappers
  import opened PrimeField
  import opened BigEndian

  const CREDENTIAL_ID_LEN: nat := 32

  type U16 = x: int | 0 <= x < 0x1_0000

  type CredentialId = id: seq<Byte> | |id| == 32 witness Zeros(32)

  /** The hash that binds a credential secret to its id. */
  const CredentialCommitment: seq<Byte> -> CredentialId

  datatype Policy =
    | AmountAtMost(limit: U64)
    | Credential(id: CredentialId)
    | Threshold(k: U16, members: seq<Policy>)
    | And(members: seq<Policy>)
    | Or(members: seq<Policy>)
  {
    predicate IsLeaf() {
      AmountAtMost? || Credential?
    }
  }

  datatype PolicyError =
    | InvalidThreshold | ThresholdExceedsCount | DuplicateCredential | InvalidCredentialId | EmptyPolicy
    | MaxDepthExceeded | MaxNodesExceeded | MaxArityExceeded | MaxCredentialsExceeded
    | MaxCombinatorChildrenExceeded | UnknownVersion | MalformedEncoding | TrailingBytes | WitnessMismatch
    | CompilationFailure | CircuitValidationFailure

  datatype Witness = Witness(secrets: seq<(CredentialId, seq<Byte>)>, amount: Option<U64>)
  {
    /** The first secret bound to an id. */
    function SecretFor(id: CredentialId): (s: Option<seq<Byte>>)
      ensures s.Some? <==> exists k :: 0 <= k < |secrets| && secrets[k].0 == id
      ensures s.Some? ==> exists k :: 0 <= k < |secrets| && secrets[k] == (id, s.value) && forall j :: 0 <= j < k ==> secrets[j].0 != id
    {
      SecretFrom(id, 0)
    }

    function SecretFrom(id: CredentialId, k: nat): (s: Option<seq<Byte>>)
      requires k <= |secrets|
      ensures s.Some? <==> exists j :: k <= j < |secrets| && secrets[j].0 == id
      ensures s.Some? ==> exists j :: k <= j < |secrets| && secrets[j] == (id, s.value) && forall i :: k <= i < j ==> secrets[i].0 != id
      decreases |secrets| - k
    {
      if k == |secrets| then None
      else if secrets[k].0 == id then Some(secrets[k].1)
      else SecretFrom(id, k + 1)
    }
  }

  // ---- meaning -----------------------------------------------------------------------------------------

  predicate Unlocks(w: Witness, id: CredentialId) {
    var s := w.SecretFor(id);
    s.Some? && CredentialCommitment(s.value) == id
  }

  predicate Satisfied(p: Policy, w: Witness)
    decreases p, 1
  {
    match p
    case AmountAtMost(limit) => w.amount.Some? && w.amount.value <= limit
    case Credential(id) => Unlocks(w, id)
    case Threshold(k, ms) => SatisfiedCount(ms, w) >= k
    case And(ms) => forall i :: 0 <= i < |ms| ==> Satisfied(ms[i], w)
    case Or(ms) => exists i :: 0 <= i < |ms| && Satisfied(ms[i], w)
  }

  function SatisfiedCount(ms: seq<Policy>, w: Witness): (n: nat)
    ensures n <= |ms|
    decreases ms, 0
  {
    if ms == [] then 0
    else
      var i := |ms| - 1;
      SatisfiedCount(ms[..i], w) + if Satisfied(ms[i], w) then 1 else 0
  }

  /** Every credential leaf has a secret, and an amount is present if an amount leaf is. */
  predicate Covers(w: Witness, p: Policy)
    decreases p
  {
    match p
    case AmountAtMost(_) => w.amount.Some?
    case Credential(id) => w.SecretFor(id).Some?
    case Threshold(_, ms) => forall i :: 0 <= i < |ms| ==> Covers(w, ms[i])
    case And(ms) => forall i :: 0 <= i < |ms| ==> Covers(w, ms[i])
    case Or(ms) => forall i :: 0 <= i < |ms| ==> Covers(w, ms[i])
  }

  // ---- credential ids ----------------------------------------------------------------------------------

  /** The ids of the credential leaves, depth first. */
  function CredentialIds(p: Policy): seq<CredentialId>
    decreases p, 1
  {
    match p
    case Credential(id) => [id]
    case AmountAtMost(_) => []
    case _ => CredentialIdsOf(p.members)
  }

  function CredentialIdsOf(ms: seq<Policy>): seq<CredentialId>
    decreases ms, 0
  {
    if ms == [] then [] else CredentialIdsOf(ms[..|ms| - 1]) + CredentialIds(ms[|ms| - 1])
  }

  // ---- the evaluator -----------------------------------------------------------------------------------

  datatype NodeOutcome =
    | AmountOutcome(limit: U64, satisfied: bool)
    | CredentialOutcome(id: CredentialId, satisfied: bool)
    | ThresholdOutcome(k: U16, satisfied: bool, outcomes: seq<NodeOutcome>)
    | AndOutcome(satisfied: bool, outcomes: seq<NodeOutcome>)
    | OrOutcome(satisfied: bool, outcomes: seq<NodeOutcome>)

  datatype AuthorizationResult = AuthorizationResult(authorized: bool, root: NodeOutcome)

  /** The outcome tree mirrors the policy, and every flag is the meaning of its sub-policy. */
  predicate Explains(o: NodeOutcome, p: Policy, w: Witness)
    decreases p
  {
    && o.satisfied == Satisfied(p, w)
    && match p
       case AmountAtMost(limit) => o.AmountOutcome? && o.limit == limit
       case Credential(id) => o.CredentialOutcome? && o.id == id
       case Threshold(k, ms) =>
         o.ThresholdOutcome? && o.k == k && |o.outcomes| == |ms| && forall i :: 0 <= i < |ms| ==> Explains(o.outcomes[i], ms[i], w)
       case And(ms) =>
         o.AndOutcome? && |o.outcomes| == |ms| && forall i :: 0 <= i < |ms| ==> Explains(o.outcomes[i], ms[i], w)
       case Or(ms) =>
         o.OrOutcome? && |o.outcomes| == |ms| && forall i :: 0 <= i < |ms| ==> Explains(o.outcomes[i], ms[i], w)
  }

  method EvalNode(p: Policy, w: Witness) returns (o: NodeOutcome)
    ensures Explains(o, p, w)
    decreases p, 1
  {
    match p {
      case AmountAtMost(limit) =>
        o := AmountOutcome(limit, w.amount.Some? && w.amount.value <= limit);
      case Credential(id) =>
        var secret := w.SecretFor(id);
        o := CredentialOutcome(id, secret.Some? && CredentialCommitment(secret.value) == id);
      case Threshold(k, ms) =>
        o := EvalThreshold(k, ms, w);
      case And(ms) =>
        o := EvalAnd(ms, w);
      case Or(ms) =>
        o := EvalOr(ms, w);
    }
  }

  method EvalThreshold(k: U16, ms: seq<Policy>, w: Witness) returns (o: NodeOutcome)
    ensures Explains(o, Threshold(k, ms), w)
    decreases Threshold(k, ms), 0
  {
    hide Unlocks;
    var outcomes: seq<NodeOutcome>, satisfiedCount := [], 0;
    for i := 0 to |ms|
      invariant |outcomes| == i && forall j :: 0 <= j < i ==> Explains(outcomes[j], ms[j], w)
      invariant satisfiedCount == SatisfiedCount(ms[..i], w)
    {
      var outcome := EvalNode(ms[i], w);
      assert ms[..i + 1][..i] == ms[..i];
      if outcome.satisfied {
        satisfiedCount := satisfiedCount + 1;
      }
      outcomes := outcomes + [outcome];
    }
    assert ms[..|ms|] == ms;
    o := ThresholdOutcome(k, satisfiedCount >= k, outcomes);
  }

  method EvalAnd(ms: seq<Policy>, w: Witness) returns (o: NodeOutcome)
    ensures Explains(o, And(ms), w)
    decreases And(ms), 0
  {
    hide Unlocks;
    var outcomes: seq<NodeOutcome>, satisfied := [], true;
    for i := 0 to |ms|
      invariant |outcomes| == i && forall j :: 0 <= j < i ==> Explains(outcomes[j], ms[j], w)
      invariant satisfied <==> forall j :: 0 <= j < i ==> Satisfied(ms[j], w)
    {
      var outcome := EvalNode(ms[i], w);
      if !outcome.satisfied {
        satisfied := false;
      }
      outcomes := outcomes + [outcome];
    }
    o := AndOutcome(satisfied, outcomes);
  }

  method EvalOr(ms: seq<Policy>, w: Witness) returns (o: NodeOutcome)
    ensures Explains(o, Or(ms), w)
    decreases Or(ms), 0
  {
    hide Unlocks;
    var outcomes: seq<NodeOutcome>, satisfied := [], false;
    for i := 0 to |ms|
      invariant |outcomes| == i && forall j :: 0 <= j < i ==> Explains(outcomes[j], ms[j], w)
      invariant satisfied <==> exists j :: 0 <= j < i && Satisfied(ms[j], w)
    {
      var outcome := EvalNode(ms[i], w);
      if outcome.satisfied {
        satisfied := true;
      }
      outcomes := outcomes + [outcome];
    }
    o := OrOutcome(satisfied, outcomes);
  }

  predicate Meets(w: Witness, ids: seq<CredentialId>, needsAmount: bool) {
    (forall k :: 0 <= k < |ids| ==> w.SecretFor(ids[k]).Some?) && (needsAmount ==> w.amount.Some?)
  }

  predicate CoversFirst(w: Witness, ms: seq<Policy>, n: nat)
    requires n <= |ms|
  {
    forall j :: 0 <= j < n ==> Covers(w, ms[j])
  }

  lemma MeetsBoth(w: Witness, ids: seq<CredentialId>, needs: bool, more: seq<CredentialId>, needsToo: bool)
    ensures Meets(w, ids + more, needs || needsToo) <==> Meets(w, ids, needs) && Meets(w, more, needsToo)
  {
    var all := ids + more;
    assert forall k :: 0 <= k < |ids| ==> all[k] == ids[k];
    assert forall k :: 0 <= k < |more| ==> all[|ids| + k] == more[k];
  }

  /** What a witness must bring: the credential ids of the leaves, and whether an amount is needed. */
  method CollectRequirements(p: Policy) returns (ids: seq<CredentialId>, needsAmount: bool)
    ensures forall w: Witness :: Covers(w, p) <==> Meets(w, ids, needsAmount)
    decreases p
  {
    match p {
      case AmountAtMost(_) =>
        ids, needsAmount := [], true;
      case Credential(id) =>
        ids, needsAmount := [id], false;
        assert ids[0] == id;
        assert forall w: Witness :: Meets(w, ids, false) <==> w.SecretFor(id).Some?;
      case _ =>
        ids, needsAmount := [], false;
        for i := 0 to |p.members|
          invariant forall w: Witness :: CoversFirst(w, p.members, i) <==> Meets(w, ids, needsAmount)
        {
          var more, amountToo := CollectRequirements(p.members[i]);
          var all, needsAny := ids + more, needsAmount || amountToo;
          forall w: Witness
            ensures CoversFirst(w, p.members, i + 1) <==> Meets(w, all, needsAny)
          {
            MeetsBoth(w, ids, needsAmount, more, amountToo);
            assert CoversFirst(w, p.members, i + 1) <==> CoversFirst(w, p.members, i) && Covers(w, p.members[i]);
          }
          ids, needsAmount := all, needsAny;
        }
        assert forall w: Witness :: Covers(w, p) <==> CoversFirst(w, p.members, |p.members|);
    }
  }

  method ValidateAgainst(w: Witness, p: Policy) returns (r: Result<(), PolicyError>)
    ensures r == if Covers(w, p) then Ok(()) else Err(WitnessMismatch)
  {
    var ids, needsAmount := CollectRequirements(p);
    for k := 0 to |ids|
      invariant forall j :: 0 <= j < k ==> w.SecretFor(ids[j]).Some?
    {
      if w.SecretFor(ids[k]).None? {
        return Err(WitnessMismatch);
      }
    }
    if needsAmount && w.amount.None? {
      return Err(WitnessMismatch);
    }
    return Ok(());
  }

  /** The ground truth: coverage is checked first, then the decision is the meaning of the policy. */
  method Evaluate(p: Policy, w: Witness) returns (r: Result<AuthorizationResult, PolicyError>)
    ensures r.Ok? <==> Covers(w, p)
    ensures r.Err? ==> r.error == WitnessMismatch
    ensures r.Ok? ==> r.value.authorized == Satisfied(p, w) && Explains(r.value.root, p, w)
  {
    var covered := ValidateAgainst(w, p);
    if covered.Err? {
      return Err(covered.error);
    }
    var root := EvalNode(p, w);
    return Ok(AuthorizationResult(root.satisfied, root));
  }
}
