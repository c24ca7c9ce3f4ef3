/** What the slot lists of a compiled policy say about the inputs that are built for it. */
module PolicySlots {
  import opened Wrappers
  import opened PrimeField
  import opened BigEndian
  import opened DigestField
  import opened Circuits
  import opened CircuitGates
  import opened Policies
  import opened PolicyValidation
  import opened PolicyNormal
  import opened RangeCheck
  import opened PolicyWires
  import opened PolicyCompiler
  import opened PolicyInputs
  import opened PaymentWiring

  /** Credential slot c + j belongs to the j-th credential leaf and holds its secret's commitment; an
      amount slot holds the amount and amount bit i its i-th binary digit; difference bit i is the i-th
      binary digit of some limit minus the amount, in 64-bit arithmetic. */
  predicate Tells(slot: SecretSlot, v: Elem, ids: seq<CredentialId>, limits: seq<U64>, c: nat, w: Witness) {
    match slot
    case CredentialSlot(i) =>
      && c <= i < c + |ids| && w.SecretFor(ids[i - c]).Some?
      && v == DigestToField(CredentialCommitment(w.SecretFor(ids[i - c]).value))
    case AmountSlot => v == Fe(AmountOrZero(w))
    case AmountBit(i) => i < 64 && v == AmountOrZero(w) / Pow2(i) % 2
    case DifferenceBit(i) =>
      i < 64 && exists j :: 0 <= j < |limits| && v == (limits[j] - AmountOrZero(w)) % TWO_64 / Pow2(i) % 2
    case Auxiliary => true
  }

  /** Public credential slot c + j holds the j-th leaf's id. */
  predicate TellsPublic(slot: PublicSlot, v: Elem, ids: seq<CredentialId>, c: nat) {
    slot.CredentialCommitmentSlot? ==> c <= slot.index < c + |ids| && v == DigestToField(ids[slot.index - c])
  }

  predicate AllTell(slots: seq<SecretSlot>, publics: seq<PublicSlot>, x: Inputs, s: nat, q: nat, ids: seq<CredentialId>, limits: seq<U64>, c: nat, w: Witness) {
    && (forall k :: 0 <= k < |slots| ==> Tells(slots[k], x.Secret(s + k), ids, limits, c, w))
    && (forall k :: 0 <= k < |publics| ==> TellsPublic(publics[k], x.Public(q + k), ids, c))
  }

  lemma {:induction false} DigitAt(x: nat, n: nat, i: nat)
    requires i < n
    ensures Digits(x, n)[i] == x / Pow2(i) % 2
  {
    if i < n - 1 {
      DigitAt(x, n - 1, i);
    }
  }

  /** The slots of a leaf. */
  lemma CredentialTells(id: CredentialId, w: Witness, x: Inputs, s: nat, q: nat, limits: seq<U64>, c: nat)
    requires Filled(Credential(id), w, x, s, q)
    ensures AllTell([CredentialSlot(c)], [CredentialCommitmentSlot(c)], x, s, q, [id], limits, c, w)
  {
    hide DigestToField, Witness.SecretFor, Inputs.Secret, Inputs.Public;
  }

  lemma AmountTells(limit: U64, w: Witness, x: Inputs, s: nat, q: nat, limits: seq<U64>, c: nat)
    requires Filled(AmountAtMost(limit), w, x, s, q) && limit in limits
    ensures AllTell(SecretSlots(AmountAtMost(limit), c), [AmountLimitSlot], x, s, q, [], limits, c, w)
  {
    hide Inputs.Secret, Inputs.Public, Digits, Fe, Pow2;
    var (amount, distance) := (AmountOrZero(w), WrappingSub(limit, AmountOrZero(w)));
    var slots := SecretSlots(AmountAtMost(limit), c);
    var j :| 0 <= j < |limits| && limits[j] == limit;
    forall k | 0 <= k < |slots|
      ensures Tells(slots[k], x.Secret(s + k), [], limits, c, w)
    {
      if 1 <= k < 65 {
        DigitAt(amount, 64, k - 1);
        assert SecretBlock(x, s + 1, 64)[k - 1] == x.Secret(s + 1 + (k - 1));
      } else if k >= 65 {
        assert SecretBlock(x, s + 65, 64)[k - 65] == x.Secret(s + 65 + (k - 65));
        DigitAt(distance, 64, k - 65);
        assert slots[k] == DifferenceBit(k - 65) && distance == (limits[j] - amount) % TWO_64;
      }
    }
  }

  lemma {:induction false} CredentialsListed(p: Policy)
    ensures |CredentialIds(p)| == Credentials(p)
    decreases p, 1
  {
    if !p.IsLeaf() {
      CredentialsListedOf(p.members);
    }
  }

  lemma {:induction false} CredentialsListedOf(ms: seq<Policy>)
    ensures |CredentialIdsOf(ms)| == CredentialsOf(ms)
    decreases ms, 0
  {
    hide CredentialIds, Credentials;
    if ms != [] {
      CredentialsListedOf(ms[..|ms| - 1]);
      CredentialsListed(ms[|ms| - 1]);
    }
  }

  /** Two neighbouring stretches of slots. */
  lemma TellsJoin(a: seq<SecretSlot>, a': seq<PublicSlot>, b: seq<SecretSlot>, b': seq<PublicSlot>, x: Inputs, s: nat, q: nat,
                  ids: seq<CredentialId>, more: seq<CredentialId>, limits: seq<U64>, c: nat, w: Witness)
    requires AllTell(a, a', x, s, q, ids, limits, c, w) && AllTell(b, b', x, s + |a|, q + |a'|, more, limits, c + |ids|, w)
    ensures AllTell(a + b, a' + b', x, s, q, ids + more, limits, c, w)
  {
    forall k | 0 <= k < |a + b|
      ensures Tells((a + b)[k], x.Secret(s + k), ids + more, limits, c, w)
    {
      if k < |a| {
        SecretWider(a[k], x.Secret(s + k), [], ids, more, limits, c, w);
      } else {
        assert x.Secret(s + |a| + (k - |a|)) == x.Secret(s + k);
        SecretWider(b[k - |a|], x.Secret(s + k), ids, more, [], limits, c, w);
      }
    }
    forall k | 0 <= k < |a' + b'|
      ensures TellsPublic((a' + b')[k], x.Public(q + k), ids + more, c)
    {
      if k >= |a'| {
        assert x.Public(q + |a'| + (k - |a'|)) == x.Public(q + k);
      }
    }
  }

  lemma SecretWider(slot: SecretSlot, v: Elem, before: seq<CredentialId>, ids: seq<CredentialId>, after: seq<CredentialId>,
                    limits: seq<U64>, c: nat, w: Witness)
    requires Tells(slot, v, ids, limits, c + |before|, w)
    ensures Tells(slot, v, before + ids + after, limits, c, w) && Tells(slot, v, before + (ids + after), limits, c, w)
    ensures before == [] ==> Tells(slot, v, ids + after, limits, c, w)
    ensures after == [] ==> Tells(slot, v, before + ids, limits, c, w)
  {
    hide DigestToField, Witness.SecretFor, Pow2;
    if slot.CredentialSlot? {
      var i := slot.index - c;
      assert (before + ids + after)[i] == ids[i - |before|] && (before + (ids + after))[i] == ids[i - |before|];
    }
  }

  lemma {:induction false} FilledTells(p: Policy, w: Witness, x: Inputs, s: nat, q: nat, limits: seq<U64>, c: nat)
    requires Filled(p, w, x, s, q) && forall l :: l in Limits(p) ==> l in limits
    ensures AllTell(SecretSlots(p, c), PublicSlots(p, c), x, s, q, CredentialIds(p), limits, c, w)
    decreases p, 1
  {
    hide Inputs.Secret, Inputs.Public, AllTell, BitSlots, FilledOf, SecretSlotsOf, PublicSlotsOf, CredentialIdsOf, LimitsOf, SecretBlock, Digits, Fe, DigestToField, Witness.SecretFor;
    match p {
      case Credential(id) =>
        CredentialTells(id, w, x, s, q, limits, c);
      case AmountAtMost(limit) =>
        assert limit in Limits(p);
        AmountTells(limit, w, x, s, q, limits, c);
      case Threshold(_, ms) =>
        FilledTellsOf(ms, w, x, s, q, limits, c);
        AuxiliaryFollows(SecretSlotsOf(ms, c), PublicSlotsOf(ms, c), x, s, q, CredentialIdsOf(ms), limits, c, w);
      case _ =>
        FilledTellsOf(p.members, w, x, s, q, limits, c);
    }
  }

  lemma AuxiliaryTells(x: Inputs, s: nat, q: nat, limits: seq<U64>, c: nat, w: Witness)
    ensures AllTell([Auxiliary], [], x, s, q, [], limits, c, w) && AllTell([], [], x, s, q, [], limits, c, w)
  {
  }

  lemma AuxiliaryFollows(slots: seq<SecretSlot>, publics: seq<PublicSlot>, x: Inputs, s: nat, q: nat, ids: seq<CredentialId>, limits: seq<U64>, c: nat, w: Witness)
    requires AllTell(slots, publics, x, s, q, ids, limits, c, w)
    ensures AllTell(slots + [Auxiliary], publics, x, s, q, ids, limits, c, w)
  {
    hide AllTell;
    AuxiliaryTells(x, s + |slots|, q + |publics|, limits, c + |ids|, w);
    TellsJoin(slots, publics, [Auxiliary], [], x, s, q, ids, [], limits, c, w);
    assert publics + [] == publics && ids + [] == ids;
  }

  lemma {:induction false} FilledTellsOf(ms: seq<Policy>, w: Witness, x: Inputs, s: nat, q: nat, limits: seq<U64>, c: nat)
    requires FilledOf(ms, w, x, s, q) && forall l :: l in LimitsOf(ms) ==> l in limits
    ensures AllTell(SecretSlotsOf(ms, c), PublicSlotsOf(ms, c), x, s, q, CredentialIdsOf(ms), limits, c, w)
    decreases ms, 0
  {
    hide Filled, AllTell, SecretSlots, PublicSlots, CredentialIds, Secrets, Publics, Credentials, Limits;
    if ms == [] {
      AuxiliaryTells(x, s, q, limits, c, w);
    } else {
      var (front, last) := (ms[..|ms| - 1], ms[|ms| - 1]);
      FilledTellsOf(front, w, x, s, q, limits, c);
      LayoutSizesOf(front, x, s, q, c);
      CredentialsListedOf(front);
      FilledTells(last, w, x, s + SecretsOf(front), q + PublicsOf(front), limits, c + CredentialsOf(front));
      TellsJoin(SecretSlotsOf(front, c), PublicSlotsOf(front, c), SecretSlots(last, c + CredentialsOf(front)),
                PublicSlots(last, c + CredentialsOf(front)), x, s, q, CredentialIdsOf(front), CredentialIds(last), limits, c, w);
    }
  }

  /** The slot lists of a compiled policy describe the inputs built for it: one slot for every input,
      and every input is what its slot says. */
  lemma SlotsDescribeInputs(c: CompiledPolicy, n: Policy, w: Witness, x: Inputs)
    requires Implements(c, n) && FilledFor(n, w, x)
    ensures |c.secretSlots| == |x.secrets| && |c.publicSlots| == |x.publics|
    ensures AllTell(c.secretSlots, c.publicSlots, x, 0, 0, CredentialIds(n), Limits(n), 0, w)
  {
    hide AllTell, Filled, At, AtAll, Wire, Discriminants, AuxPositions, ValidCircuit, SecretSlots, PublicSlots;
    LayoutSizes(n, x, 0, 0, 0);
    FilledTells(n, w, x, 0, 0, Limits(n), 0);
  }
}
