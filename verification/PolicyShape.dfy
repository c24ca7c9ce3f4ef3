/** Validity read off the flat list of all nodes of a policy, with the limits written out. */
module PolicyShape {
  import opened BigEndian
  import opened Policies
  import opened PolicyValidation

  /** A node of a policy and how many levels below the root it lies. */
  datatype Entry = Entry(level: nat, node: Policy)

  /** All nodes, depth first. */
  function Listing(p: Policy, level: nat): seq<Entry>
    decreases p, 1
  {
    [Entry(level, p)] + if p.IsLeaf() then [] else ListingOf(p.members, level + 1)
  }

  function ListingOf(ms: seq<Policy>, level: nat): seq<Entry>
    decreases ms, 0
  {
    if ms == [] then [] else ListingOf(ms[..|ms| - 1], level) + Listing(ms[|ms| - 1], level)
  }

  /** The rule for one node: an id that is not all zeros; a threshold between one and the number of
      its members and at most 1000, with at most 1000 members of which no two are the same credential;
      one to 1000 members of a conjunction or disjunction. */
  predicate NodeRule(p: Policy) {
    match p
    case AmountAtMost(_) => true
    case Credential(id) => exists k :: 0 <= k < 32 && id[k] != 0
    case Threshold(k, ms) =>
      && 1 <= k <= |ms| <= 1000
      && forall i, j :: 0 <= i < j < |ms| && ms[i].Credential? && ms[j].Credential? ==> ms[i].id != ms[j].id
    case _ => 1 <= |p.members| <= 1000
  }

  function CredentialEntries(es: seq<Entry>): nat {
    if es == [] then 0 else CredentialEntries(es[..|es| - 1]) + if es[|es| - 1].node.Credential? then 1 else 0
  }

  predicate NoneBelow(es: seq<Entry>, level: int) {
    forall i :: 0 <= i < |es| ==> es[i].level <= level
  }

  predicate RulesHold(es: seq<Entry>) {
    forall i :: 0 <= i < |es| ==> NodeRule(es[i].node)
  }

  lemma {:induction false} CredentialsJoin(a: seq<Entry>, b: seq<Entry>)
    ensures CredentialEntries(a + b) == CredentialEntries(a) + CredentialEntries(b)
  {
    if b == [] {
      assert a + b == a;
    } else {
      CredentialsJoin(a, b[..|b| - 1]);
      assert (a + b)[..|a + b| - 1] == a + b[..|b| - 1];
    }
  }

  lemma Join(a: seq<Entry>, b: seq<Entry>, level: int)
    ensures NoneBelow(a + b, level) <==> NoneBelow(a, level) && NoneBelow(b, level)
    ensures RulesHold(a + b) <==> RulesHold(a) && RulesHold(b)
    ensures CredentialEntries(a + b) == CredentialEntries(a) + CredentialEntries(b)
  {
    hide NodeRule;
    CredentialsJoin(a, b);
    assert forall i :: 0 <= i < |a| ==> (a + b)[i] == a[i];
    assert forall i :: 0 <= i < |b| ==> (a + b)[|a| + i] == b[i];
  }

  lemma {:induction false} ZeroId(id: CredentialId, n: nat)
    requires n <= 32
    ensures Zeros(n) == id[32 - n..] <==> forall k :: 32 - n <= k < 32 ==> id[k] == 0
  {
    if n > 0 {
      ZeroId(id, n - 1);
      assert id[32 - n..] == [id[32 - n]] + id[32 - n + 1..];
      assert Zeros(n)[0] == 0 && Zeros(n)[1..] == Zeros(n - 1);
    }
  }

  lemma RootRule(p: Policy)
    ensures WellShaped(p) <==> NodeRule(p) && (!p.IsLeaf() ==> forall i :: 0 <= i < |p.members| ==> WellShaped(p.members[i]))
  {
    match p {
      case Credential(id) =>
        ZeroId(id, 32);
        assert id[0..] == id;
      case Threshold(_, ms) =>
        assert DistinctCredentials(ms) <==>
          forall i, j :: 0 <= i < j < |ms| && ms[i].Credential? && ms[j].Credential? ==> ms[i].id != ms[j].id;
      case _ =>
    }
  }

  lemma {:induction false} ListingCounts(p: Policy, level: nat, limit: int)
    ensures |Listing(p, level)| == Nodes(p) && CredentialEntries(Listing(p, level)) == Credentials(p)
    ensures NoneBelow(Listing(p, level), limit) <==> FitsDepth(p, limit - level)
    ensures RulesHold(Listing(p, level)) <==> WellShaped(p)
    decreases p, 1
  {
    hide WellShaped, NodeRule, CredentialEntries, NoneBelow, RulesHold;
    var head := [Entry(level, p)];
    RootRule(p);
    OneEntry(level, p, limit);
    if p.IsLeaf() {
      assert Listing(p, level) == head;
    } else {
      ListingCountsOf(p.members, level + 1, limit);
      Join(head, ListingOf(p.members, level + 1), limit);
    }
  }

  lemma OneEntry(level: nat, p: Policy, limit: int)
    ensures CredentialEntries([Entry(level, p)]) == if p.Credential? then 1 else 0
    ensures NoneBelow([Entry(level, p)], limit) <==> level <= limit
    ensures RulesHold([Entry(level, p)]) <==> NodeRule(p)
  {
    hide NodeRule;
    assert [Entry(level, p)][0].level == level;
    assert [Entry(level, p)][..0] == [];
  }

  lemma {:induction false} ListingCountsOf(ms: seq<Policy>, level: nat, limit: int)
    ensures |ListingOf(ms, level)| == NodesOf(ms) && CredentialEntries(ListingOf(ms, level)) == CredentialsOf(ms)
    ensures NoneBelow(ListingOf(ms, level), limit) <==> forall i :: 0 <= i < |ms| ==> FitsDepth(ms[i], limit - level)
    ensures RulesHold(ListingOf(ms, level)) <==> forall i :: 0 <= i < |ms| ==> WellShaped(ms[i])
    decreases ms, 0
  {
    hide WellShaped, NodeRule, FitsDepth, Nodes, Credentials, Listing, NoneBelow, RulesHold;
    if ms == [] {
      NothingListed(limit);
    } else {
      var n := |ms| - 1;
      ListingCountsOf(ms[..n], level, limit);
      ListingCounts(ms[n], level, limit);
      Join(ListingOf(ms[..n], level), Listing(ms[n], level), limit);
      assert forall i :: 0 <= i < n ==> ms[..n][i] == ms[i];
    }
  }

  lemma NothingListed(limit: int)
    ensures NoneBelow([], limit) && RulesHold([])
  {
  }

  /** A policy is valid exactly if its listing has at most 10000 nodes, at most 1000 of them
      credentials, none more than 100 levels below the root, and every node obeys its rule. */
  lemma ValidByListing(p: Policy)
    ensures var all := Listing(p, 0);
            ValidPolicy(p) <==>
              && |all| <= 10_000 && CredentialEntries(all) <= 1000
              && forall i :: 0 <= i < |all| ==> all[i].level <= 100 && NodeRule(all[i].node)
  {
    hide WellShaped, NodeRule, FitsDepth, Nodes, Credentials, Listing, CredentialEntries;
    ListingCounts(p, 0, 100);
  }
}
