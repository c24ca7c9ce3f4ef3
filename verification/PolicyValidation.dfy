/** Structural validation: shape rules and resource limits of a policy tree. */
module PolicyValidation {
  import opened Wrappers
  import opened BigEndian
  import opened Policies

  const MAX_POLICY_DEPTH: nat := 100
  const MAX_POLICY_NODES: nat := 10_000
  const MAX_THRESHOLD_ARITY: nat := 1000
  const MAX_CREDENTIAL_COUNT: nat := 1000
  const MAX_COMBINATOR_CHILDREN: nat := 1000
  const MAX_THRESHOLD_MEMBERS: nat := 1000

  function Nodes(p: Policy): (n: nat)
    ensures n > 0
    decreases p, 1
  {
    1 + if p.IsLeaf() then 0 else NodesOf(p.members)
  }

  function NodesOf(ms: seq<Policy>): nat
    decreases ms, 0
  {
    if ms == [] then 0 else NodesOf(ms[..|ms| - 1]) + Nodes(ms[|ms| - 1])
  }

  function Credentials(p: Policy): nat
    decreases p, 1
  {
    if p.Credential? then 1 else if p.AmountAtMost? then 0 else CredentialsOf(p.members)
  }

  function CredentialsOf(ms: seq<Policy>): nat
    decreases ms, 0
  {
    if ms == [] then 0 else CredentialsOf(ms[..|ms| - 1]) + Credentials(ms[|ms| - 1])
  }

  /** No node lies more than a number of levels below this one. */
  predicate FitsDepth(p: Policy, levels: int)
    decreases p
  {
    levels >= 0 && (p.IsLeaf() || forall i :: 0 <= i < |p.members| ==> FitsDepth(p.members[i], levels - 1))
  }

  predicate DistinctCredentials(ms: seq<Policy>) {
    forall i, j :: 0 <= i < j < |ms| && ms[i].Credential? ==> ms[j] != ms[i]
  }

  /** The rules that hold node by node. */
  predicate WellShaped(p: Policy)
    decreases p
  {
    match p
    case AmountAtMost(_) => true
    case Credential(id) => id != Zeros(32)
    case Threshold(k, ms) =>
      && 1 <= k <= MAX_THRESHOLD_ARITY && k <= |ms| <= MAX_THRESHOLD_MEMBERS && DistinctCredentials(ms)
      && forall i :: 0 <= i < |ms| ==> WellShaped(ms[i])
    case And(ms) => 1 <= |ms| <= MAX_COMBINATOR_CHILDREN && forall i :: 0 <= i < |ms| ==> WellShaped(ms[i])
    case Or(ms) => 1 <= |ms| <= MAX_COMBINATOR_CHILDREN && forall i :: 0 <= i < |ms| ==> WellShaped(ms[i])
  }

  ghost predicate ValidPolicy(p: Policy) {
    && WellShaped(p) && FitsDepth(p, MAX_POLICY_DEPTH)
    && Nodes(p) <= MAX_POLICY_NODES && Credentials(p) <= MAX_CREDENTIAL_COUNT
  }

  lemma {:induction false} PartCounts(ms: seq<Policy>, i: nat)
    requires i < |ms|
    ensures NodesOf(ms[..i + 1]) == NodesOf(ms[..i]) + Nodes(ms[i]) <= NodesOf(ms)
    ensures CredentialsOf(ms[..i + 1]) == CredentialsOf(ms[..i]) + Credentials(ms[i]) <= CredentialsOf(ms)
    decreases |ms|
  {
    hide Nodes, Credentials;
    var n := |ms| - 1;
    assert ms[..i + 1][..i] == ms[..i];
    if i < n {
      PartCounts(ms[..n], i);
      assert ms[..n][..i] == ms[..i] && ms[..n][..i + 1] == ms[..i + 1];
    } else {
      assert ms[..n + 1] == ms;
    }
  }

  /** The counters of one validation. */
  class Context {
    var depth: nat
    var nodes: nat
    var credentials: nat

    constructor ()
      ensures depth == nodes == credentials == 0
    {
      depth, nodes, credentials := 0, 0, 0;
    }

    /** What passing a node from the current counters means. */
    ghost predicate Admits(p: Policy)
      reads this
    {
      && WellShaped(p) && FitsDepth(p, MAX_POLICY_DEPTH - depth)
      && nodes + Nodes(p) <= MAX_POLICY_NODES && credentials + Credentials(p) <= MAX_CREDENTIAL_COUNT
    }

    method ValidateNode(p: Policy) returns (r: Result<(), PolicyError>)
      requires credentials <= MAX_CREDENTIAL_COUNT
      modifies this
      ensures r.Ok? <==> old(Admits(p))
      ensures r.Ok? ==> depth == old(depth) && nodes == old(nodes) + Nodes(p) && credentials == old(credentials) + Credentials(p)
      decreases p, 1
    {
      if depth > MAX_POLICY_DEPTH {
        return Err(MaxDepthExceeded);
      }
      nodes := nodes + 1;
      if nodes > MAX_POLICY_NODES {
        return Err(MaxNodesExceeded);
      }
      match p {
        case AmountAtMost(_) =>
          return Ok(());
        case Credential(id) =>
          if id == Zeros(CREDENTIAL_ID_LEN) {
            return Err(InvalidCredentialId);
          }
          credentials := credentials + 1;
          if credentials > MAX_CREDENTIAL_COUNT {
            return Err(MaxCredentialsExceeded);
          }
          return Ok(());
        case Threshold(k, ms) =>
          if k == 0 {
            return Err(InvalidThreshold);
          }
          if k > MAX_THRESHOLD_ARITY {
            return Err(MaxArityExceeded);
          }
          if ms == [] {
            return Err(EmptyPolicy);
          }
          if |ms| > MAX_THRESHOLD_MEMBERS {
            return Err(MaxCombinatorChildrenExceeded);
          }
          if k > |ms| {
            return Err(ThresholdExceedsCount);
          }
          var distinct := CheckDistinctCredentials(ms);
          if distinct.Err? {
            return distinct;
          }
          r := ValidateMembers(p);
        case _ =>
          if p.members == [] {
            return Err(EmptyPolicy);
          }
          if |p.members| > MAX_COMBINATOR_CHILDREN {
            return Err(MaxCombinatorChildrenExceeded);
          }
          r := ValidateMembers(p);
      }
    }

    ghost predicate AdmitsMembers(ms: seq<Policy>)
      reads this
    {
      && (forall i :: 0 <= i < |ms| ==> WellShaped(ms[i]) && FitsDepth(ms[i], MAX_POLICY_DEPTH - depth - 1))
      && nodes + NodesOf(ms) <= MAX_POLICY_NODES && credentials + CredentialsOf(ms) <= MAX_CREDENTIAL_COUNT
    }

    method ValidateMembers(p: Policy) returns (r: Result<(), PolicyError>)
      requires !p.IsLeaf() && credentials <= MAX_CREDENTIAL_COUNT && nodes <= MAX_POLICY_NODES
      modifies this
      ensures r.Ok? <==> old(AdmitsMembers(p.members))
      ensures r.Ok? ==> depth == old(depth) && nodes == old(nodes) + NodesOf(p.members)
      ensures r.Ok? ==> credentials == old(credentials) + CredentialsOf(p.members)
      decreases p, 0
    {
      hide WellShaped, FitsDepth, Nodes, Credentials, NodesOf, CredentialsOf;
      var ms := p.members;
      CountsOfNone(ms);
      for i := 0 to |ms|
        invariant depth == old(depth) && nodes == old(nodes) + NodesOf(ms[..i]) <= MAX_POLICY_NODES
        invariant credentials == old(credentials) + CredentialsOf(ms[..i]) <= MAX_CREDENTIAL_COUNT
        invariant forall j :: 0 <= j < i ==> WellShaped(ms[j]) && FitsDepth(ms[j], MAX_POLICY_DEPTH - depth - 1)
      {
        PartCounts(ms, i);
        depth := depth + 1;
        r := ValidateNode(ms[i]);
        if r.Err? {
          return;
        }
        depth := depth - 1;
      }
      assert ms[..|ms|] == ms;
      return Ok(());
    }

    lemma CountsOfNone(ms: seq<Policy>)
      ensures NodesOf(ms[..0]) == 0 && CredentialsOf(ms[..0]) == 0
    {
    }
  }

  method CheckDistinctCredentials(ms: seq<Policy>) returns (r: Result<(), PolicyError>)
    ensures r == if DistinctCredentials(ms) then Ok(()) else Err(DuplicateCredential)
  {
    var seen: seq<CredentialId> := [];
    for i := 0 to |ms|
      invariant DistinctCredentials(ms[..i])
      invariant forall id :: id in seen <==> exists j :: 0 <= j < i && ms[j] == Credential(id)
    {
      if ms[i].Credential? {
        if ms[i].id in seen {
          ghost var j :| 0 <= j < i && ms[j] == Credential(ms[i].id);
          return Err(DuplicateCredential);
        }
        seen := seen + [ms[i].id];
      }
    }
    assert ms[..|ms|] == ms;
    return Ok(());
  }

  /** Validation accepts exactly the policies that obey every rule and limit. */
  method Validate(p: Policy) returns (r: Result<(), PolicyError>)
    ensures r.Ok? <==> ValidPolicy(p)
  {
    var ctx := new Context();
    r := ctx.ValidateNode(p);
  }
}
