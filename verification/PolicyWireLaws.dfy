/** Soundness of the published constraints, and exactness of the wires on solved inputs. */
module PolicyWireLaws {
  import opened PrimeField
  import opened CircuitGates
  import opened Policies
  import opened RangeCheck
  import opened PolicyWires

  // ---- splitting the published lists -------------------------------------------------------------------

  lemma ConstraintsSplit(d: seq<Elem>, a: seq<nat>, d': seq<Elem>, a': seq<nat>, x: Inputs)
    requires |d| == |a|
    ensures ConstraintsZero(d + d', a + a', x) <==> ConstraintsZero(d, a, x) && ConstraintsZero(d', a', x)
  {
    hide Booleanity, Mul, Inputs.Secret;
    if |d'| == |a'| {
      assert forall j :: 0 <= j < |d| ==> (d + d')[j] == d[j] && (a + a')[j] == a[j];
      assert forall j :: 0 <= j < |d'| ==> (d + d')[|d| + j] == d'[j] && (a + a')[|d| + j] == a'[j];
    }
  }

  lemma SolvedSplit(d: seq<Elem>, a: seq<nat>, d': seq<Elem>, a': seq<nat>, x: Inputs)
    requires |d| == |a|
    ensures Solved(d + d', a + a', x) <==> Solved(d, a, x) && Solved(d', a', x)
  {
    hide Inv, Inputs.Secret;
    if |d'| == |a'| {
      assert forall j :: 0 <= j < |d| ==> (d + d')[j] == d[j] && (a + a')[j] == a[j];
      assert forall j :: 0 <= j < |d'| ==> (d + d')[|d| + j] == d'[j] && (a + a')[|d| + j] == a'[j];
    }
  }

  lemma OneConstraint(d: Elem, a: nat, x: Inputs)
    ensures ConstraintsZero([d], [a], x) <==> Booleanity(Mul(d, x.Secret(a))) == 0
    ensures Solved([d], [a], x) <==> x.Secret(a) == Inv(d)
  {
    hide Booleanity, Mul, Inv, Inputs.Secret;
    assert [d][0] == d && [a][0] == a;
  }

  // ---- soundness ---------------------------------------------------------------------------------------

  /** At this policy and at everything below it, the wire is zero or one, and one only if the
      sub-policy holds on the inputs. */
  predicate Sound(p: Policy, x: Inputs, s: nat, q: nat)
    decreases p, 1
  {
    && (Wire(p, x, s, q) == 0 || Wire(p, x, s, q) == 1)
    && (Wire(p, x, s, q) == 1 ==> Holds(p, x, s, q))
    && (p.IsLeaf() || SoundOf(p.members, x, s, q))
  }

  predicate SoundOf(ms: seq<Policy>, x: Inputs, s: nat, q: nat)
    decreases ms, 0
  {
    ms != [] ==>
      var (front, last) := (ms[..|ms| - 1], ms[|ms| - 1]);
      SoundOf(front, x, s, q) && Sound(last, x, s + SecretsOf(front), q + PublicsOf(front))
  }

  lemma {:induction false} SoundMembers(ms: seq<Policy>, x: Inputs, s: nat, q: nat)
    requires SoundOf(ms, x, s, q)
    ensures Binary(Wires(ms, x, s, q))
    ensures forall i :: 0 <= i < |ms| ==> Wires(ms, x, s, q)[i] == 1 ==> HoldsOf(ms, x, s, q)[i]
    decreases |ms|
  {
    hide Wire, Holds, SecretsOf, PublicsOf;
    if ms != [] {
      SoundMembers(ms[..|ms| - 1], x, s, q);
    }
  }

  /** Constraint soundness, for any inputs with binary digits: when every published constraint is
      zero, a root wire of one means that the policy holds on the inputs. */
  lemma {:induction false} ConstraintSoundness(p: Policy, x: Inputs, s: nat, q: nat)
    requires Wide() && Countable(p) && LimitsFit(p, x, q) && DigitsBinary(p, x, s)
    requires ConstraintsZero(Discriminants(p, x, s, q), AuxPositions(p, s), x)
    ensures Sound(p, x, s, q)
    decreases p, 1
  {
    hide Sound, SoundOf, ConstraintsZero, Wires, Discriminant, Fold, Binary, Inputs.Secret, Inputs.Public, Booleanity, Mul;
    match p {
      case Threshold(k, ms) =>
        ThresholdSplit(k, ms, x, s, q);
        ConstraintSoundnessOf(ms, x, s, q);
        SoundThreshold(k, ms, x, s, q);
      case And(ms) =>
        ConstraintSoundnessOf(ms, x, s, q);
        SoundCombinator(p, x, s, q);
      case Or(ms) =>
        ConstraintSoundnessOf(ms, x, s, q);
        SoundCombinator(p, x, s, q);
      case _ =>
        SoundLeaf(p, x, s, q);
    }
  }

  lemma SoundLeaf(p: Policy, x: Inputs, s: nat, q: nat)
    requires Wide() && p.IsLeaf() && LimitsFit(p, x, q) && DigitsBinary(p, x, s)
    ensures Sound(p, x, s, q)
  {
    hide Constraints, AllZero, IsZero, Inputs.Secret, Inputs.Public, Sub;
    if p.Credential? {
      CredentialWire(x.Secret(s), x.Public(q));
    } else {
      AmountWire(x.Secret(s), x.Public(q), SecretBlock(x, s + 1, 64), SecretBlock(x, s + 65, 64));
    }
  }

  lemma SoundThreshold(k: U16, ms: seq<Policy>, x: Inputs, s: nat, q: nat)
    requires Wide() && |ms| < P && SoundOf(ms, x, s, q)
    requires var d := Discriminant(k, Fold(Total, Wires(ms, x, s, q)));
             Booleanity(Mul(d, x.Secret(s + SecretsOf(ms)))) == 0
    ensures Sound(Threshold(k, ms), x, s, q)
  {
    hide Discriminant, Fold, Inputs.Secret, Mul, Inv, Booleanity, Wires, HoldsOf, SoundOf, Binary;
    SoundMembers(ms, x, s, q);
    ThresholdWire(k, Wires(ms, x, s, q), x.Secret(s + SecretsOf(ms)));
    FewerOnes(Wires(ms, x, s, q), HoldsOf(ms, x, s, q));
  }

  lemma SoundCombinator(p: Policy, x: Inputs, s: nat, q: nat)
    requires (p.And? || p.Or?) && SoundOf(p.members, x, s, q)
    ensures Sound(p, x, s, q)
  {
    hide Fold, Wires, HoldsOf, SoundOf, Binary;
    SoundMembers(p.members, x, s, q);
    var (ws, hs) := (Wires(p.members, x, s, q), HoldsOf(p.members, x, s, q));
    FoldBoolean(ws);
    if p.Or? && Wire(p, x, s, q) == 1 {
      var i :| 0 <= i < |ws| && ws[i] == 1;
      assert hs[i];
    }
  }

  lemma ThresholdSplit(k: U16, ms: seq<Policy>, x: Inputs, s: nat, q: nat)
    ensures var (d, a) := (Discriminant(k, Fold(Total, Wires(ms, x, s, q))), s + SecretsOf(ms));
            && (ConstraintsZero(Discriminants(Threshold(k, ms), x, s, q), AuxPositions(Threshold(k, ms), s), x) <==>
                ConstraintsZero(DiscriminantsOf(ms, x, s, q), AuxPositionsOf(ms, s), x)
                && Booleanity(Mul(d, x.Secret(a))) == 0)
            && (Solved(Discriminants(Threshold(k, ms), x, s, q), AuxPositions(Threshold(k, ms), s), x) <==>
                Solved(DiscriminantsOf(ms, x, s, q), AuxPositionsOf(ms, s), x) && x.Secret(a) == Inv(d))
  {
    hide Discriminant, Fold, Wires, ConstraintsZero, Solved, Booleanity, Inv, Mul, Inputs.Secret;
    LayoutSizesOf(ms, x, s, q, 0);
    var (d, a) := (Discriminant(k, Fold(Total, Wires(ms, x, s, q))), s + SecretsOf(ms));
    ConstraintsSplit(DiscriminantsOf(ms, x, s, q), AuxPositionsOf(ms, s), [d], [a], x);
    SolvedSplit(DiscriminantsOf(ms, x, s, q), AuxPositionsOf(ms, s), [d], [a], x);
    OneConstraint(d, a, x);
  }

  /** The lists of a member list are those of its front followed by those of its last member. */
  lemma MembersSplit(ms: seq<Policy>, x: Inputs, s: nat, q: nat)
    requires ms != []
    ensures var (front, last) := (ms[..|ms| - 1], ms[|ms| - 1]);
            var (s', q') := (s + SecretsOf(front), q + PublicsOf(front));
            && (ConstraintsZero(DiscriminantsOf(ms, x, s, q), AuxPositionsOf(ms, s), x) <==>
                ConstraintsZero(DiscriminantsOf(front, x, s, q), AuxPositionsOf(front, s), x)
                && ConstraintsZero(Discriminants(last, x, s', q'), AuxPositions(last, s'), x))
            && (Solved(DiscriminantsOf(ms, x, s, q), AuxPositionsOf(ms, s), x) <==>
                Solved(DiscriminantsOf(front, x, s, q), AuxPositionsOf(front, s), x)
                && Solved(Discriminants(last, x, s', q'), AuxPositions(last, s'), x))
  {
    hide Discriminants, AuxPositions, ConstraintsZero, Solved;
    var (front, last) := (ms[..|ms| - 1], ms[|ms| - 1]);
    var (s', q') := (s + SecretsOf(front), q + PublicsOf(front));
    LayoutSizesOf(front, x, s, q, 0);
    ConstraintsSplit(DiscriminantsOf(front, x, s, q), AuxPositionsOf(front, s), Discriminants(last, x, s', q'), AuxPositions(last, s'), x);
    SolvedSplit(DiscriminantsOf(front, x, s, q), AuxPositionsOf(front, s), Discriminants(last, x, s', q'), AuxPositions(last, s'), x);
  }

  lemma {:induction false} ConstraintSoundnessOf(ms: seq<Policy>, x: Inputs, s: nat, q: nat)
    requires Wide() && (forall i :: 0 <= i < |ms| ==> Countable(ms[i]))
    requires LimitsFitOf(ms, x, q) && DigitsBinaryOf(ms, x, s)
    requires ConstraintsZero(DiscriminantsOf(ms, x, s, q), AuxPositionsOf(ms, s), x)
    ensures SoundOf(ms, x, s, q)
    decreases ms, 0
  {
    hide Countable, LimitsFit, DigitsBinary, Discriminants, AuxPositions, ConstraintsZero, Sound;
    if ms != [] {
      var (front, last) := (ms[..|ms| - 1], ms[|ms| - 1]);
      MembersSplit(ms, x, s, q);
      ConstraintSoundnessOf(front, x, s, q);
      ConstraintSoundness(last, x, s + SecretsOf(front), q + PublicsOf(front));
    }
  }

  // ---- exactness ---------------------------------------------------------------------------------------

  /** With the digits and auxiliary values of the witness builder the wire is the truth value of the
      policy on the inputs, and every constraint is met. */
  lemma {:induction false} SolvedWires(p: Policy, x: Inputs, s: nat, q: nat)
    requires Wide() && Countable(p) && DigitsHonest(p, x, s, q)
    requires Solved(Discriminants(p, x, s, q), AuxPositions(p, s), x)
    ensures Wire(p, x, s, q) == Indicator(Holds(p, x, s, q))
    ensures ConstraintsZero(Discriminants(p, x, s, q), AuxPositions(p, s), x)
    decreases p, 1
  {
    hide Discriminant, Fold, Inputs.Secret, Inputs.Public, Mul, Inv, Booleanity, Wires, HoldsOf, Truths, ConstraintsZero, Solved;
    match p {
      case Threshold(k, ms) =>
        ThresholdSplit(k, ms, x, s, q);
        SolvedWiresOf(ms, x, s, q);
        WiresAreTruths(ms, x, s, q);
        ThresholdWire(k, Wires(ms, x, s, q), x.Secret(s + SecretsOf(ms)));
      case And(ms) =>
        SolvedWiresOf(ms, x, s, q);
        TruthsFold(ms, x, s, q);
      case Or(ms) =>
        SolvedWiresOf(ms, x, s, q);
        TruthsFold(ms, x, s, q);
      case _ =>
        NoConstraints(x);
        SolvedLeaf(p, x, s, q);
    }
  }

  lemma SolvedLeaf(p: Policy, x: Inputs, s: nat, q: nat)
    requires Wide() && p.IsLeaf() && DigitsHonest(p, x, s, q)
    ensures Wire(p, x, s, q) == Indicator(Holds(p, x, s, q))
  {
    hide Constraints, AllZero, IsZero, Inputs.Secret, Inputs.Public, Sub, Digits;
    if p.Credential? {
      CredentialWire(x.Secret(s), x.Public(q));
    } else {
      AmountWire(x.Secret(s), x.Public(q), SecretBlock(x, s + 1, 64), SecretBlock(x, s + 65, 64));
    }
  }

  lemma TruthsFold(ms: seq<Policy>, x: Inputs, s: nat, q: nat)
    requires Truths(Wires(ms, x, s, q), HoldsOf(ms, x, s, q))
    ensures Wire(And(ms), x, s, q) == Indicator(Holds(And(ms), x, s, q))
    ensures Wire(Or(ms), x, s, q) == Indicator(Holds(Or(ms), x, s, q))
  {
    hide Fold, Wires, HoldsOf;
    var (ws, hs) := (Wires(ms, x, s, q), HoldsOf(ms, x, s, q));
    FoldBoolean(ws);
    if i :| 0 <= i < |hs| && hs[i] {
      assert ws[i] == 1;
    }
    if i :| 0 <= i < |hs| && !hs[i] {
      assert ws[i] == 0;
    }
  }

  /** Truth values on the wires of a member list. */
  predicate Truths(ws: seq<Elem>, hs: seq<bool>) {
    |ws| == |hs| && forall i :: 0 <= i < |ws| ==> ws[i] == Indicator(hs[i])
  }

  lemma WiresAreTruths(ms: seq<Policy>, x: Inputs, s: nat, q: nat)
    requires Truths(Wires(ms, x, s, q), HoldsOf(ms, x, s, q))
    ensures Binary(Wires(ms, x, s, q)) && OnesOf(Wires(ms, x, s, q)) == HoldsOf(ms, x, s, q)
  {
    hide Wires, HoldsOf;
  }

  lemma {:induction false} SolvedWiresOf(ms: seq<Policy>, x: Inputs, s: nat, q: nat)
    requires Wide() && (forall i :: 0 <= i < |ms| ==> Countable(ms[i])) && DigitsHonestOf(ms, x, s, q)
    requires Solved(DiscriminantsOf(ms, x, s, q), AuxPositionsOf(ms, s), x)
    ensures Truths(Wires(ms, x, s, q), HoldsOf(ms, x, s, q))
    ensures ConstraintsZero(DiscriminantsOf(ms, x, s, q), AuxPositionsOf(ms, s), x)
    decreases ms, 0
  {
    hide Countable, DigitsHonest, Discriminants, AuxPositions, ConstraintsZero, Solved, Wire, Holds;
    if ms == [] {
      NoConstraints(x);
    } else {
      var (front, last) := (ms[..|ms| - 1], ms[|ms| - 1]);
      MembersSplit(ms, x, s, q);
      SolvedWiresOf(front, x, s, q);
      SolvedWires(last, x, s + SecretsOf(front), q + PublicsOf(front));
    }
  }

  lemma NoConstraints(x: Inputs)
    ensures ConstraintsZero([], [], x)
  {
  }
}
