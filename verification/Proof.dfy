/** The non-interactive proof: what a prover hands to a verifier. */
module Proofs {
  import opened PrimeField
  import opened BigEndian
  import opened Mpcith
  import opened MpcithProof

  const PROTOCOL_VERSION: Byte := 2
  const PROTOCOL_ID: Byte := 1

  type BackendId = b: seq<Byte> | |b| == 16 witness Zeros(16)

  const SHA256_ID: BackendId := [115, 104, 97, 50, 53, 54, 45, 118, 49, 0, 0, 0, 0, 0, 0, 0]
  const SHAKE256_ID: BackendId := [115, 104, 97, 107, 101, 50, 53, 54, 45, 118, 49, 0, 0, 0, 0, 0]

  predicate Supported(b: seq<Byte>) {
    b == SHA256_ID || b == SHAKE256_ID
  }

  type SupportedId = b: BackendId | Supported(b) witness SHA256_ID

  /** The backend prover and verifier are instantiated with. */
  const BACKEND_ID: SupportedId

  datatype ProofRepetition = ProofRepetition(
    commitments: seq<Digest>,
    hidden: Party,
    openedViews: seq<PartyView>,
    openingRandomness: seq<seq<Byte>>,
    hiddenBroadcasts: seq<Elem>,
    hiddenOutputShares: seq<Elem>)

  datatype NonInteractiveProof = NonInteractiveProof(
    version: Byte,
    protocolId: Byte,
    backendId: BackendId,
    statement: Statement,
    repetitions: seq<ProofRepetition>)

  /** Views paired with their randomness; surplus views or randomness are dropped. */
  function Openings(rep: ProofRepetition): (pairs: seq<OpenedView>)
    ensures |pairs| == if |rep.openedViews| <= |rep.openingRandomness| then |rep.openedViews| else |rep.openingRandomness|
  {
    var n := if |rep.openedViews| <= |rep.openingRandomness| then |rep.openedViews| else |rep.openingRandomness|;
    seq(n, k requires 0 <= k < n && n <= |rep.openedViews| && n <= |rep.openingRandomness| =>
      OpenedView(rep.openedViews[k], rep.openingRandomness[k]))
  }

  // ---- repetitions of the two layers -------------------------------------------------------------------

  function InsertByParty(s: seq<OpenedView>, x: OpenedView): seq<OpenedView> {
    if s == [] || s[|s| - 1].view.partyId <= x.view.partyId then s + [x]
    else InsertByParty(s[..|s| - 1], x) + [s[|s| - 1]]
  }

  function SortByParty(s: seq<OpenedView>): seq<OpenedView> {
    if s == [] then [] else InsertByParty(SortByParty(s[..|s| - 1]), s[|s| - 1])
  }

  /** The stored form: views and their randomness side by side, in the order of the parties. */
  function Stored(rep: Repetition): ProofRepetition {
    var sorted := SortByParty(rep.openedViews);
    ProofRepetition(rep.commitments, rep.hidden,
                    seq(|sorted|, k requires 0 <= k < |sorted| => sorted[k].view),
                    seq(|sorted|, k requires 0 <= k < |sorted| => sorted[k].randomness),
                    rep.hiddenBroadcasts, rep.hiddenOutputShares)
  }

  /** The form the repetition verifier takes; surplus views or randomness are dropped. */
  function Inner(rep: ProofRepetition, index: nat): Repetition {
    Repetition(index, rep.commitments, rep.hidden, Openings(rep), rep.hiddenOutputShares, rep.hiddenBroadcasts)
  }

  /** Storing two views in party order loses nothing but the id, which is the index. */
  lemma StoredInner(rep: Repetition)
    requires |rep.openedViews| == 2 && rep.openedViews[0].view.partyId <= rep.openedViews[1].view.partyId
    ensures Inner(Stored(rep), rep.id) == rep
  {
    var (a, b) := (rep.openedViews[0], rep.openedViews[1]);
    assert rep.openedViews == [a, b] && [a, b][..1] == [a] && [a][..0] == [];
    assert SortByParty([a]) == [a];
    assert SortByParty([a, b]) == [a, b];
  }
}
