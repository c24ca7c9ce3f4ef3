/** The range-check gadget: two 64-digit binary decompositions bound a value by a limit without
    wrap-around. */
module RangeCheck {
  import opened NumberTheory
  import opened PrimeField
  import opened Circuits
  import opened CircuitGates

  const AMOUNT_BIT_LEN: nat := 64

  // ---- binary digits -----------------------------------------------------------------------------------

  function Pow2(n: nat): (r: nat)
    ensures r > 0
  {
    if n == 0 then 1 else 2 * Pow2(n - 1)
  }

  /** The low n binary digits of an integer, lowest first. */
  function Digits(x: nat, n: nat): (ds: seq<Elem>)
    ensures |ds| == n && Binary(ds)
  {
    if n == 0 then [] else Digits(x, n - 1) + [(x / Pow2(n - 1)) % 2]
  }

  predicate Binary(ds: seq<Elem>) {
    forall i :: 0 <= i < |ds| ==> ds[i] == 0 || ds[i] == 1
  }

  /** The integer a digit vector stands for. */
  function IntegerOf(ds: seq<Elem>): nat {
    if ds == [] then 0 else IntegerOf(ds[..|ds| - 1]) + ds[|ds| - 1] * Pow2(|ds| - 1)
  }

  lemma SplitTop(x: nat, top: nat)
    requires top > 0
    ensures x % (2 * top) == x % top + (x / top) % 2 * top
  {
    var q, r := x / top, x % top;
    assert x == q * top + r;
    var h, d := q / 2, q % 2;
    assert q == 2 * h + d;
    assert q * top == h * (2 * top) + d * top;
    assert x == h * (2 * top) + (d * top + r);
    assert d * top <= top;
    UniqueRemainder(x, 2 * top, h, d * top + r);
  }

  lemma UniqueRemainder(x: nat, m: nat, q: nat, r: nat)
    requires m > 0 && x == q * m + r && r < m
    ensures x % m == r && x / m == q
  {
    assert x % m - r == (q - x / m) * m;
    ScaledBounds(q - x / m, m);
  }

  lemma {:induction false} DigitsDenote(x: nat, n: nat)
    ensures IntegerOf(Digits(x, n)) == x % Pow2(n)
  {
    if n > 0 {
      DigitsDenote(x, n - 1);
      SplitTop(x, Pow2(n - 1));
      assert Digits(x, n)[..n - 1] == Digits(x, n - 1);
    }
  }

  lemma {:induction false} BinaryBound(ds: seq<Elem>)
    requires Binary(ds)
    ensures IntegerOf(ds) < Pow2(|ds|)
  {
    if ds != [] {
      BinaryBound(ds[..|ds| - 1]);
    }
  }

  lemma {:induction false} DigitsModulo(x: nat, top: nat, n: nat)
    requires n <= top
    ensures Digits(x % Pow2(top), n) == Digits(x, n)
  {
    if n > 0 {
      DigitsModulo(x, top, n - 1);
      PowersDivide(top, n);
      DigitModulo(x, Pow2(n - 1), Pow2(top - n), Pow2(top));
    }
  }

  lemma {:induction false} PowersDivide(top: nat, n: nat)
    requires 0 < n <= top
    ensures Pow2(top) == Pow2(top - n) * (2 * Pow2(n - 1))
  {
    if n > 1 {
      PowersDivide(top, n - 1);
      var a, b := Pow2(top - n), Pow2(n - 2);
      assert Pow2(top - (n - 1)) == 2 * a;
      assert (2 * a) * (2 * b) == a * (2 * (2 * b));
    } else {
      assert Pow2(0) == 1;
    }
  }

  lemma DigitModulo(x: nat, low: nat, high: nat, m: nat)
    requires low > 0 && m > 0 && m == high * (2 * low)
    ensures (x % m) / low % 2 == x / low % 2
  {
    var q, r := x / m, x % m;
    assert x == q * m + r;
    Regroup(q, high, low);
    LowDigit(x, q * high, r, low);
  }

  lemma LowDigit(x: nat, k: nat, r: nat, low: nat)
    requires low > 0 && x == (2 * k) * low + r
    ensures r / low % 2 == x / low % 2
  {
    var u, v := r / low, r % low;
    assert r == u * low + v;
    assert (2 * k) * low + u * low == (2 * k + u) * low;
    UniqueRemainder(x, low, 2 * k + u, v);
  }

  lemma Regroup(q: int, high: int, low: int)
    ensures q * (high * (2 * low)) == (2 * (q * high)) * low
  {
    assert q * (high * (2 * low)) == (q * high) * (2 * low);
    var k := q * high;
    assert k * (2 * low) == (2 * k) * low;
  }

  /** Binary digits are unique. */
  lemma {:induction false} DigitsUnique(ds: seq<Elem>)
    requires Binary(ds)
    ensures ds == Digits(IntegerOf(ds), |ds|)
  {
    if ds != [] {
      var n := |ds|;
      var (low, d, top) := (ds[..n - 1], ds[n - 1], Pow2(n - 1));
      DigitsUnique(low);
      BinaryBound(low);
      var x := IntegerOf(ds);
      UniqueRemainder(x, top, d, IntegerOf(low));
      DigitsModulo(x, n - 1, n - 1);
      assert ds == low + [d];
    }
  }

  lemma WordWidth()
    ensures Pow2(64) == TWO_64
  {
    assert Pow2(8) == 256 by { assert Pow2(4) == 16; }
    assert Pow2(16) == 0x1_0000 by { assert Pow2(12) == 0x1000; }
    assert Pow2(24) == 0x100_0000 by { assert Pow2(20) == 0x10_0000; }
    assert Pow2(32) == 0x1_0000_0000 by { assert Pow2(28) == 0x1000_0000; }
    assert Pow2(40) == 0x100_0000_0000 by { assert Pow2(36) == 0x10_0000_0000; }
    assert Pow2(48) == 0x1_0000_0000_0000 by { assert Pow2(44) == 0x1000_0000_0000; }
    assert Pow2(56) == 0x100_0000_0000_0000 by { assert Pow2(52) == 0x10_0000_0000_0000; }
    assert Pow2(60) == 0x1000_0000_0000_0000;
  }

  /** The digits of a 64-bit word, lowest first, by shifting. */
  method Decompose(value: U64) returns (bits: seq<Elem>)
    ensures bits == Digits(value, AMOUNT_BIT_LEN)
  {
    bits := [];
    for index := 0 to AMOUNT_BIT_LEN
      invariant bits == Digits(value, index)
    {
      bits := bits + [(value / Pow2(index)) % 2];
    }
  }

  /** Subtraction of 64-bit words, wrapping below zero. */
  function WrappingSub(a: U64, b: U64): U64 {
    (a - b) % TWO_64
  }

  // ---- the four constraint wires -----------------------------------------------------------------------

  /** The first wire of a side: the sum of b (1 - b) over the digits. */
  function BooleanitySum(ds: seq<Elem>): Elem {
    if ds == [] then 0 else Add(BooleanitySum(ds[..|ds| - 1]), Booleanity(ds[|ds| - 1]))
  }

  /** The weighted sum of the digits. */
  function Weighted(ds: seq<Elem>): Elem {
    if ds == [] then 0 else Add(Weighted(ds[..|ds| - 1]), Mul(ds[|ds| - 1], Fe(Pow2(|ds| - 1))))
  }

  /** The four published wires for a value, a limit and their two digit vectors. */
  function Constraints(value: Elem, limit: Elem, ds: seq<Elem>, es: seq<Elem>): (cs: seq<Elem>)
    ensures |cs| == 4
  {
    [BooleanitySum(ds), Sub(Weighted(ds), value), BooleanitySum(es), Sub(Weighted(es), Sub(limit, value))]
  }

  lemma {:induction false} BinarySumsToZero(ds: seq<Elem>)
    requires Binary(ds)
    ensures BooleanitySum(ds) == 0
  {
    hide Add, Booleanity;
    if ds != [] {
      BinarySumsToZero(ds[..|ds| - 1]);
      BooleanityZero(ds[|ds| - 1]);
      AddLaws(0, 0, 0);
    }
  }

  lemma {:induction false} WeightedDenotes(ds: seq<Elem>)
    ensures Weighted(ds) == Fe(IntegerOf(ds))
  {
    hide Fe, Add, Mul;
    if ds == [] {
      FeOf(0);
    } else {
      var n := |ds| - 1;
      WeightedDenotes(ds[..n]);
      FeOf(ds[n]);
      FeMul(ds[n], Pow2(n));
      FeAdd(IntegerOf(ds[..n]), ds[n] * Pow2(n));
    }
  }

  /** Integers less than p apart that reduce to the same element are equal. */
  lemma SmallCongruent(x: int, y: int)
    requires Fe(x) == Fe(y) && x - y < P && y - x < P
    ensures x == y
  {
    hide Mod;
    var q := ModDecompose(x, P);
    var q' := ModDecompose(y, P);
    assert x - y == (q - q') * P;
    ScaledBounds(q - q', P);
  }

  /** For binary digit vectors all four wires are zero exactly when the value is at most the limit,
      as integers, and the digits are the expansions of the value and of the difference. */
  lemma RangeCheckExact(value: Elem, limit: U64, ds: seq<Elem>, es: seq<Elem>)
    requires Wide() && Binary(ds) && Binary(es) && |ds| == |es| == AMOUNT_BIT_LEN
    ensures (forall i :: 0 <= i < 4 ==> Constraints(value, limit, ds, es)[i] == 0) <==>
            && value <= limit
            && ds == Digits(value, AMOUNT_BIT_LEN) && es == Digits(limit - value, AMOUNT_BIT_LEN)
  {
    hide Fe, Add, Sub, Mul, Digits, Weighted, BooleanitySum, IntegerOf;
    BinarySumsToZero(ds);
    BinarySumsToZero(es);
    WordWidth();
    BinaryBound(ds);
    BinaryBound(es);
    WeightedDenotes(ds);
    WeightedDenotes(es);
    var (d, e) := (IntegerOf(ds), IntegerOf(es));
    FeOfSmall(value);
    FeOfSmall(limit);
    FeOfSmall(d);
    FeSub(limit, value);
    SubZero(Weighted(ds), value);
    SubZero(Weighted(es), Sub(limit, value));
    var cs := Constraints(value, limit, ds, es);
    assert (forall i :: 0 <= i < 4 ==> cs[i] == 0) <==> cs[0] == 0 && cs[1] == 0 && cs[2] == 0 && cs[3] == 0;
    if d == value && Fe(e) == Fe(limit - value) {
      SmallCongruent(e, limit - value);
      DigitsUnique(ds);
      DigitsUnique(es);
    }
    if value <= limit && ds == Digits(value, 64) && es == Digits(limit - value, 64) {
      DigitsDenote(value, 64);
      DigitsDenote(limit - value, 64);
    }
  }

  /** The digits the witness builder supplies: they pass exactly when the amount is within the
      limit, and otherwise it is the last wire that is non-zero. */
  lemma SuppliedDigits(amount: U64, limit: U64)
    requires Wide()
    ensures var cs := Constraints(amount, limit, Digits(amount, 64), Digits(WrappingSub(limit, amount), 64));
            && cs[0] == 0 && cs[1] == 0 && cs[2] == 0
            && (cs[3] == 0 <==> amount <= limit)
  {
    hide Digits, Weighted, BooleanitySum, Fe, Sub;
    var ds, es := Digits(amount, 64), Digits(WrappingSub(limit, amount), 64);
    BinarySumsToZero(ds);
    BinarySumsToZero(es);
    WordWidth();
    DigitsDenote(amount, 64);
    WeightedDenotes(ds);
    FeOfSmall(amount);
    SubZero(Weighted(ds), amount);
    RangeCheckExact(amount, limit, ds, es);
    if amount <= limit {
      assert WrappingSub(limit, amount) == limit - amount;
    }
    var cs := Constraints(amount, limit, ds, es);
    assert (forall i :: 0 <= i < 4 ==> cs[i] == 0) <==> cs[0] == 0 && cs[1] == 0 && cs[2] == 0 && cs[3] == 0;
  }

  /** When all digits but one are known to be binary, the sum decides the remaining one. */
  lemma {:induction false} LastDigitForced(ds: seq<Elem>, i: nat)
    requires i < |ds| && forall j :: 0 <= j < |ds| && j != i ==> ds[j] == 0 || ds[j] == 1
    ensures BooleanitySum(ds) == 0 <==> Binary(ds)
  {
    hide Add, Booleanity;
    var n := |ds| - 1;
    BooleanityZero(ds[n]);
    AddLaws(BooleanitySum(ds[..n]), Booleanity(ds[n]), 0);
    if i < n {
      LastDigitForced(ds[..n], i);
      assert Binary(ds) <==> Binary(ds[..n]);
    } else {
      BinarySumsToZero(ds[..n]);
    }
  }

  // ---- the gadget --------------------------------------------------------------------------------------

  /** One side: the booleanity sum, and the weighted sum minus the target. */
  method EmitSide(b: CircuitBuilder, target: NodeId, bits: seq<NodeId>)
    returns (booleanity: NodeId, difference: NodeId)
    requires b.Valid() && target < |b.nodes| && |bits| == AMOUNT_BIT_LEN && Defined(b.nodes, bits)
    modifies b
    ensures b.Valid() && Grows(old(b.Current()), b.Current())
    ensures booleanity < |b.nodes| && difference < |b.nodes|
    ensures forall x: Inputs :: At(b.nodes, x, booleanity) == BooleanitySum(AtAll(old(b.nodes), x, bits))
    ensures forall x: Inputs ::
              At(b.nodes, x, difference) == Sub(Weighted(AtAll(old(b.nodes), x, bits)), At(old(b.nodes), x, target))
    ensures Shared(old(b.nodes), target) ==> Shared(b.nodes, difference)
  {
    hide At, AtAll, Shared, Add, Sub, Mul, Fe, Weighted, BooleanitySum, Booleanity;
    ghost var start := b.Current();
    EmptySums(b.nodes, bits);
    booleanity := ConstantGate(b, 0);
    label one:
    var reconstruction: NodeId := ConstantGate(b, 0);
    GrowsFurther(start, old@one(b.Current()), b.Current());
    for index := 0 to AMOUNT_BIT_LEN
      invariant b.Valid() && Grows(start, b.Current())
      invariant booleanity < |b.nodes| && reconstruction < |b.nodes|
      invariant forall x: Inputs :: At(b.nodes, x, booleanity) == BooleanitySum(AtAll(start.nodes, x, bits[..index]))
      invariant forall x: Inputs :: At(b.nodes, x, reconstruction) == Weighted(AtAll(start.nodes, x, bits[..index]))
    {
      booleanity, reconstruction := EmitDigit(b, start, bits, index, booleanity, reconstruction);
    }
    assert bits[..AMOUNT_BIT_LEN] == bits;
    label summed:
    difference := SubWires(b, reconstruction, target);
    GrowsFurther(start, old@summed(b.Current()), b.Current());
  }

  lemma EmptySums(nodes: seq<Node>, bits: seq<NodeId>)
    ensures forall x: Inputs :: BooleanitySum(AtAll(nodes, x, bits[..0])) == 0 && Weighted(AtAll(nodes, x, bits[..0])) == 0
  {
  }

  lemma NextDigit(nodes: seq<Node>, bits: seq<NodeId>, x: Inputs, index: nat)
    requires Defined(nodes, bits) && index < |bits|
    ensures var (ds, d) := (AtAll(nodes, x, bits[..index]), At(nodes, x, bits[index]));
            && BooleanitySum(AtAll(nodes, x, bits[..index + 1])) == Add(BooleanitySum(ds), Booleanity(d))
            && Weighted(AtAll(nodes, x, bits[..index + 1])) == Add(Weighted(ds), Mul(d, Fe(Pow2(index))))
  {
    hide At, Add, Mul, Fe, Booleanity;
    var all := AtAll(nodes, x, bits[..index + 1]);
    assert all[..index] == AtAll(nodes, x, bits[..index]);
  }

  /** One digit's gates on both running sums. */
  method EmitDigit(b: CircuitBuilder, ghost start: Circuit, bits: seq<NodeId>, index: nat, booleanity: NodeId, weighted: NodeId)
    returns (booleanity': NodeId, weighted': NodeId)
    requires b.Valid() && Grows(start, b.Current()) && index < |bits| && Defined(start.nodes, bits)
    requires booleanity < |b.nodes| && weighted < |b.nodes|
    requires forall x: Inputs :: At(b.nodes, x, booleanity) == BooleanitySum(AtAll(start.nodes, x, bits[..index]))
    requires forall x: Inputs :: At(b.nodes, x, weighted) == Weighted(AtAll(start.nodes, x, bits[..index]))
    modifies b
    ensures b.Valid() && Grows(start, b.Current()) && booleanity' < |b.nodes| && weighted' < |b.nodes|
    ensures forall x: Inputs :: At(b.nodes, x, booleanity') == BooleanitySum(AtAll(start.nodes, x, bits[..index + 1]))
    ensures forall x: Inputs :: At(b.nodes, x, weighted') == Weighted(AtAll(start.nodes, x, bits[..index + 1]))
  {
    hide At, AtAll, Shared, Add, Sub, Mul, Fe, Weighted, BooleanitySum, Booleanity;
    ghost var c0 := b.Current();
    var term := BooleanityWire(b, bits[index]);
    ghost var c1 := b.Current();
    booleanity' := AddWires(b, booleanity, term);
    ghost var c2 := b.Current();
    var scaled := ScaleWire(b, bits[index], Fe(Pow2(index)));
    ghost var c3 := b.Current();
    weighted' := AddWires(b, weighted, scaled);
    GrowsFurther(start, c0, c1);
    GrowsFurther(start, c1, c2);
    GrowsFurther(start, c2, c3);
    GrowsFurther(start, c3, b.Current());
    forall x: Inputs
      ensures At(b.nodes, x, booleanity') == BooleanitySum(AtAll(start.nodes, x, bits[..index + 1]))
      ensures At(b.nodes, x, weighted') == Weighted(AtAll(start.nodes, x, bits[..index + 1]))
    {
      NextDigit(start.nodes, bits, x, index);
    }
  }

  /** The four constraint wires for value <= limit. */
  method ProveBoundedDifference(b: CircuitBuilder, value: NodeId, limit: NodeId, valueBits: seq<NodeId>, differenceBits: seq<NodeId>)
    returns (outputs: seq<NodeId>)
    requires b.Valid() && value < |b.nodes| && limit < |b.nodes|
    requires |valueBits| == |differenceBits| == AMOUNT_BIT_LEN
    requires Defined(b.nodes, valueBits) && Defined(b.nodes, differenceBits)
    modifies b
    ensures b.Valid() && Grows(old(b.Current()), b.Current())
    ensures |outputs| == 4 && Defined(b.nodes, outputs)
    ensures forall x: Inputs ::
              AtAll(b.nodes, x, outputs) ==
              Constraints(At(old(b.nodes), x, value), At(old(b.nodes), x, limit),
                          AtAll(old(b.nodes), x, valueBits), AtAll(old(b.nodes), x, differenceBits))
    ensures Shared(old(b.nodes), value) ==> Shared(b.nodes, outputs[1])
  {
    hide At, AtAll, Shared, Add, Sub, Mul, Fe, Weighted, BooleanitySum, Booleanity;
    ghost var c0 := b.Current();
    var v0, v1 := EmitSide(b, value, valueBits);
    ghost var c1 := b.Current();
    var difference := SubWires(b, limit, value);
    ghost var c2 := b.Current();
    var d0, d1 := EmitSide(b, difference, differenceBits);
    outputs := [v0, v1, d0, d1];
    GrowsFurther(c0, c1, c2);
    GrowsFurther(c0, c2, b.Current());
    forall x: Inputs
      ensures AtAll(b.nodes, x, outputs) ==
              Constraints(At(c0.nodes, x, value), At(c0.nodes, x, limit),
                          AtAll(c0.nodes, x, valueBits), AtAll(c0.nodes, x, differenceBits))
    {
      AtAllExtends(c0.nodes, c2.nodes, x, differenceBits);
      FourWires(b.nodes, x, v0, v1, d0, d1);
    }
  }

  lemma FourWires(nodes: seq<Node>, x: Inputs, a: NodeId, b: NodeId, c: NodeId, d: NodeId)
    requires Defined(nodes, [a, b, c, d]) && a < |nodes| && b < |nodes| && c < |nodes| && d < |nodes|
    ensures AtAll(nodes, x, [a, b, c, d]) == [At(nodes, x, a), At(nodes, x, b), At(nodes, x, c), At(nodes, x, d)]
  {
    hide At;
  }
}
