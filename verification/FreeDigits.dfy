/** What the published sums of the range check leave open: one digit not known to be binary is still
    decided by its side's booleanity sum, two are not, and with all 64 free every value passes under
    every limit. */
module FreeDigits {
  import opened NumberTheory
  import opened PrimeField
  import opened CircuitGates
  import opened RangeCheck

  // ---- the boundary ------------------------------------------------------------------------------------

  /** All digits outside some positions are zero or one. */
  predicate BinaryOutside(ds: seq<Elem>, free: set<nat>) {
    forall i :: 0 <= i < |ds| && i !in free ==> ds[i] == 0 || ds[i] == 1
  }

  /** The booleanity sum means what the gadget takes it to mean. */
  ghost predicate SumDecides(n: nat, free: set<nat>) {
    forall ds: seq<Elem> :: |ds| == n && BinaryOutside(ds, free) ==> (BooleanitySum(ds) == 0 <==> Binary(ds))
  }

  lemma {:induction false} SumAfterUpdate(ds: seq<Elem>, i: nat, x: Elem)
    requires i < |ds| && Booleanity(ds[i]) == 0
    ensures BooleanitySum(ds[i := x]) == Add(BooleanitySum(ds), Booleanity(x))
  {
    hide Add, Booleanity;
    var n := |ds| - 1;
    var front := BooleanitySum(ds[..n]);
    if i < n {
      SumAfterUpdate(ds[..n], i, x);
      assert ds[i := x][..n] == ds[..n][i := x];
      AddLaws(front, Booleanity(x), Booleanity(ds[n]));
      AddLaws(front, Booleanity(ds[n]), Booleanity(x));
      AddLaws(Booleanity(x), Booleanity(ds[n]), 0);
    } else {
      assert ds[i := x][..n] == ds[..n];
      AddLaws(front, 0, 0);
    }
  }

  lemma BooleanityOf(x: int)
    ensures Booleanity(Fe(x)) == Fe(x - x * x)
  {
    hide Fe, Mul, Sub;
    FeOf(1);
    FeSub(1, x);
    FeMul(x, 1 - x);
    assert x * (1 - x) == x - x * x;
  }

  /** Two fifths and minus one fifth: neither is binary, and their terms cancel. */
  lemma Fifths() returns (x: Elem, y: Elem)
    requires P > 6
    ensures Add(Booleanity(x), Booleanity(y)) == 0 && y != 0 && y != 1
  {
    hide Fe, Add, Sub, Mul, Inv, Booleanity;
    FeOfSmall(5);
    InverseLaw(5);
    var f: int := Inv(5);
    FeOf(f);
    FeMul(5, f);
    x, y := Fe(2 * f), Fe(0 - f);
    BooleanityOf(2 * f);
    BooleanityOf(0 - f);
    FeAdd(2 * f - (2 * f) * (2 * f), (0 - f) - (0 - f) * (0 - f));
    FifthsCancel(f);
    NotBinaryFifth(f);
  }

  lemma FifthsCancel(f: int)
    requires Fe(5 * f) == 1
    ensures Fe(2 * f - (2 * f) * (2 * f) + ((0 - f) - (0 - f) * (0 - f))) == 0
  {
    hide Fe, Sub, Mul;
    assert 2 * f - (2 * f) * (2 * f) + ((0 - f) - (0 - f) * (0 - f)) == f - (5 * f) * f by {
      assert (2 * f) * (2 * f) == 4 * (f * f) && (0 - f) * (0 - f) == f * f && (5 * f) * f == 5 * (f * f);
    }
    FeMul(5 * f, f);
    FeOf(1);
    FeMul(1, f);
    FeSub(f, (5 * f) * f);
    FeSub(f, f);
    FeOf(0);
  }

  lemma NotBinaryFifth(f: int)
    requires P > 6 && Fe(5 * f) == 1
    ensures Fe(0 - f) != 0 && Fe(0 - f) != 1
  {
    hide Fe, Mul;
    FeMul(0 - 5, 0 - f);
    assert (0 - 5) * (0 - f) == 5 * f;
    MulLaws(Fe(0 - 5), 0, 0);
    FeMul(0 - 5, 1);
    FeOf(1);
    FeOf(0);
    NotOne();
  }

  lemma NotOne()
    requires P > 6
    ensures Fe(0 - 5) != 1
  {
    hide Mod;
    if Fe(0 - 5) == 1 {
      ModSmall(1, P);
      var k := SameResidue(1, 0 - 5, P);
      ScaledBounds(k, P);
      assert false;
    }
  }

  /** The sum decides whether the digits are binary exactly when at most one of them is not known to
      be, whichever they are. */
  lemma SumDecidesBoundary(n: nat, free: set<nat>)
    requires P > 6 && forall i :: i in free ==> i < n
    ensures SumDecides(n, free) <==> |free| <= 1
  {
    hide BooleanitySum;
    if |free| <= 1 {
      forall ds: seq<Elem> | |ds| == n && BinaryOutside(ds, free)
        ensures BooleanitySum(ds) == 0 <==> Binary(ds)
      {
        AtMostOneFree(ds, free);
      }
    } else {
      var i, j := TwoOf(free);
      var ds := TwoFreeDigits(n, i, j);
      assert BinaryOutside(ds, free);
    }
  }

  lemma AtMostOneFree(ds: seq<Elem>, free: set<nat>)
    requires BinaryOutside(ds, free) && |free| <= 1 && forall i :: i in free ==> i < |ds|
    ensures BooleanitySum(ds) == 0 <==> Binary(ds)
  {
    hide BooleanitySum;
    if free == {} {
      BinarySumsToZero(ds);
    } else {
      var i :| i in free;
      assert |free - {i}| == 0;
      assert free == {i};
      LastDigitForced(ds, i);
    }
  }

  lemma TwoOf(free: set<nat>) returns (i: nat, j: nat)
    requires |free| >= 2
    ensures i in free && j in free && i != j
  {
    i :| i in free;
    assert |free - {i}| >= 1;
    j :| j in free - {i};
  }

  /** Two free digits can cancel in the sum, at any two positions. */
  lemma TwoFreeDigits(n: nat, i: nat, j: nat) returns (ds: seq<Elem>)
    requires P > 6 && i < n && j < n && i != j
    ensures |ds| == n && BooleanitySum(ds) == 0 && !Binary(ds)
    ensures forall k :: 0 <= k < n && k != i && k != j ==> ds[k] == 0
  {
    hide BooleanitySum, Booleanity, Add;
    var zeros := seq<Elem>(n, k => 0);
    var x, y := Fifths();
    BinarySumsToZero(zeros);
    BooleanityZero(0);
    SumAfterUpdate(zeros, i, x);
    SumAfterUpdate(zeros[i := x], j, y);
    AddLaws(Booleanity(x), 0, 0);
    ds := zeros[i := x][j := y];
    assert ds[j] == y;
  }

  // ---- all digits free ---------------------------------------------------------------------------------

  function Reps(xs: seq<int>): (ds: seq<Elem>)
    ensures |ds| == |xs|
  {
    seq(|xs|, i requires 0 <= i < |xs| => Fe(xs[i]))
  }

  /** The sum of x - x^2, and the weighted sum, over the integers. */
  function Excess(xs: seq<int>): int {
    if xs == [] then 0 else Excess(xs[..|xs| - 1]) + (xs[|xs| - 1] - xs[|xs| - 1] * xs[|xs| - 1])
  }

  function Weight(xs: seq<int>): int {
    if xs == [] then 0 else Weight(xs[..|xs| - 1]) + xs[|xs| - 1] * Pow2(|xs| - 1)
  }

  lemma {:induction false} SumsOfReps(xs: seq<int>)
    ensures BooleanitySum(Reps(xs)) == Fe(Excess(xs)) && Weighted(Reps(xs)) == Fe(Weight(xs))
  {
    hide Fe, Add, Mul, Booleanity;
    if xs == [] {
      FeOf(0);
    } else {
      var n := |xs| - 1;
      SumsOfReps(xs[..n]);
      assert Reps(xs)[..n] == Reps(xs[..n]);
      BooleanityOf(xs[n]);
      FeAdd(Excess(xs[..n]), xs[n] - xs[n] * xs[n]);
      FeMul(xs[n], Pow2(n));
      FeAdd(Weight(xs[..n]), xs[n] * Pow2(n));
    }
  }

  lemma {:induction false} PowersMultiply(a: nat, b: nat)
    ensures Pow2(a + b) == Pow2(a) * Pow2(b)
  {
    if b > 0 {
      PowersMultiply(a, b - 1);
    }
  }

  lemma {:induction false} SumsOfConcat(xs: seq<int>, ys: seq<int>)
    ensures Excess(xs + ys) == Excess(xs) + Excess(ys) && Weight(xs + ys) == Weight(xs) + Pow2(|xs|) * Weight(ys)
  {
    hide Pow2;
    if ys == [] {
      assert xs + ys == xs;
    } else {
      var n := |ys| - 1;
      SumsOfConcat(xs, ys[..n]);
      assert (xs + ys)[..|xs| + n] == xs + ys[..n];
      PowersMultiply(|xs|, n);
      Distribute(Pow2(|xs|), Weight(ys[..n]), ys[n], Pow2(n));
    }
  }

  lemma Distribute(a: int, w: int, y: int, b: int)
    ensures a * w + y * (a * b) == a * (w + y * b)
  {
    assert y * (a * b) == a * (y * b);
  }

  lemma {:induction false} SumsOfZeros(n: nat)
    ensures Excess(seq(n, k => 0)) == 0 && Weight(seq(n, k => 0)) == 0
  {
    hide Pow2;
    if n > 0 {
      var zs := seq<int>(n, k => 0);
      SumsOfZeros(n - 1);
      assert zs[..n - 1] == seq<int>(n - 1, k => 0);
    }
  }

  /** Six digits whose sum is zero, and whose squares sum to 2 s^2 (a^2 + b^2 + 1). */
  function Block(a: int, b: int, s: int): (xs: seq<int>)
    ensures |xs| == 6
  {
    [s * a, s * b, s, 0 - s * a, 0 - s * b, 0 - s]
  }

  lemma SumsOfThree(x: int, y: int, z: int)
    ensures Excess([x, y, z]) == (x - x * x) + (y - y * y) + (z - z * z)
    ensures Weight([x, y, z]) == x + 2 * y + 4 * z
  {
    var xs := [x, y, z];
    assert xs[..2][..1] == xs[..1] && xs[..1][..0] == [];
    assert Excess(xs[..1]) == x - x * x && Excess(xs[..2]) == Excess(xs[..1]) + (y - y * y);
    assert Weight(xs[..1]) == x && Weight(xs[..2]) == Weight(xs[..1]) + y * 2;
  }

  lemma SumsOfBlock(a: int, b: int, s: int)
    ensures Excess(Block(a, b, s)) == 0 - 2 * (s * s) * (a * a + b * b + 1)
    ensures Weight(Block(a, b, s)) == s * (0 - 7 * (a + 2 * b + 4))
  {
    hide Excess, Weight;
    var (u, v) := (s * a, s * b);
    assert Block(a, b, s) == [u, v, s] + [0 - u, 0 - v, 0 - s];
    SumsOfThree(u, v, s);
    SumsOfThree(0 - u, 0 - v, 0 - s);
    SumsOfConcat([u, v, s], [0 - u, 0 - v, 0 - s]);
    assert Pow2(3) == 8;
    SquaresOfMultiples(a, b, s);
    WeightOfMultiples(a, b, s);
  }

  lemma WeightOfMultiples(a: int, b: int, s: int)
    ensures (s * a + 2 * (s * b) + 4 * s) * (0 - 7) == s * (0 - 7 * (a + 2 * b + 4))
  {
    assert s * (a + 2 * b + 4) == s * a + s * (2 * b) + s * 4;
    assert s * (0 - 7 * (a + 2 * b + 4)) == 0 - 7 * (s * (a + 2 * b + 4));
  }

  lemma SquaresOfMultiples(a: int, b: int, s: int)
    ensures var (u, v) := (s * a, s * b);
            (u - u * u) + (v - v * v) + (s - s * s)
            + (((0 - u) - (0 - u) * (0 - u)) + ((0 - v) - (0 - v) * (0 - v)) + ((0 - s) - (0 - s) * (0 - s)))
            == 0 - 2 * (s * s) * (a * a + b * b + 1)
  {
    var (u, v) := (s * a, s * b);
    SquareOfNegative(u);
    SquareOfNegative(v);
    SquareOfNegative(s);
    assert u * u == (s * s) * (a * a) && v * v == (s * s) * (b * b);
    assert (s * s) * (a * a + b * b + 1) == (s * s) * (a * a) + (s * s) * (b * b) + s * s;
  }

  lemma SquareOfNegative(x: int)
    ensures (0 - x) * (0 - x) == x * x
  {
  }

  /** Squares a^2 + b^2 = -1 for which a + 2 b + 4 does not vanish: if it vanished both ways round, the
      modulus would divide 41. */
  lemma UsefulSquares() returns (a: nat, b: nat)
    requires P > 41
    ensures Mod(a * a + b * b + 1, P) == 0 && Mod(a + 2 * b + 4, P) != 0
  {
    a, b := MinusOneIsTwoSquares(P);
    if Mod(a + 2 * b + 4, P) == 0 && Mod(b + 2 * a + 4, P) == 0 {
      var q := BothVanish(a, b);
      ScaledBounds(q, P);
      assert false;
    }
    if Mod(a + 2 * b + 4, P) == 0 {
      a, b := b, a;
    }
  }

  lemma BothVanish(a: int, b: int) returns (q: int)
    requires Mod(a * a + b * b + 1, P) == 0
    requires Mod(a + 2 * b + 4, P) == 0 && Mod(b + 2 * a + 4, P) == 0
    ensures 41 == q * P
  {
    hide Mod;
    var k := ModDecompose(a * a + b * b + 1, P);
    var u := ModDecompose(a + 2 * b + 4, P);
    var v := ModDecompose(b + 2 * a + 4, P);
    FortyOne(a, b);
    var (x, y) := (a + 2 * b + 4, b + 2 * a + 4);
    q := 9 * k - u * (5 * x - 8 * y - 8) - v * (5 * y - 8);
    TimesMultiple(a * a + b * b + 1, k, 9);
    TimesMultiple(x, u, 5 * x - 8 * y - 8);
    TimesMultiple(y, v, 5 * y - 8);
    MultiplesApart(9 * k, u * (5 * x - 8 * y - 8), v * (5 * y - 8));
  }

  lemma TimesMultiple(x: int, k: int, y: int)
    requires x == k * P
    ensures x * y == (k * y) * P && y * x == (k * y) * P
  {
  }

  lemma MultiplesApart(k: int, l: int, m: int)
    ensures k * P - l * P - m * P == (k - l - m) * P
  {
  }

  lemma FortyOne(a: int, b: int)
    ensures var (x, y) := (a + 2 * b + 4, b + 2 * a + 4);
            41 == 9 * (a * a + b * b + 1) - x * (5 * x - 8 * y - 8) - y * (5 * y - 8)
  {
  }

  /** A multiplier that moves s c + 64 c to a target. */
  lemma Multiplier(c: int, t: Elem) returns (s: int)
    requires Fe(c) != 0
    ensures Fe(s * c + 64 * c) == t
  {
    hide Fe, Mul, Inv;
    InverseLaw(Fe(c));
    var i: int := Inv(Fe(c));
    s := t * i - 64;
    assert s * c + 64 * c == t * (c * i) by {
      assert (t * i - 64) * c == (t * i) * c - 64 * c;
      assert (t * i) * c == t * (c * i);
    }
    FeOf(i);
    FeOf(t);
    FeOf(1);
    FeMul(c, i);
    FeMul(t, c * i);
    MulLaws(t, 0, 0);
  }

  lemma MinusOneNotBinary()
    requires P > 2
    ensures Fe(0 - 1) != 0 && Fe(0 - 1) != 1
  {
    ModUnique(0 - 1, -1, P - 1, P);
  }

  /** Every target is the weighted sum of 64 digits whose booleanity sum is zero though they are not
      binary. */
  lemma AnyTarget(t: Elem) returns (ds: seq<Elem>)
    requires Wide()
    ensures |ds| == AMOUNT_BIT_LEN && !Binary(ds) && BooleanitySum(ds) == 0 && Weighted(ds) == t
  {
    hide Fe, Block, Excess, Weight, BooleanitySum, Weighted, Mod;
    var a, b := UsefulSquares();
    var m: int := a + 2 * b + 4;
    var c: int := 0 - 7 * m;
    BlockFactor(m);
    var s := Multiplier(c, t);
    var xs, ys, zs := Block(a, b, s), Block(a, b, 1), seq<int>(52, k => 0);
    SumsOfBlock(a, b, s);
    SumsOfBlock(a, b, 1);
    SumsOfZeros(52);
    SumsOfConcat(xs, ys);
    SumsOfConcat(xs + ys, zs);
    ds := Reps(xs + ys + zs);
    SumsOfReps(xs + ys + zs);
    assert Pow2(6) == 64 by { assert Pow2(4) == 16; }
    ExcessVanishes(a, b, s);
    LastOfBlock(a, b);
    MinusOneNotBinary();
    assert (xs + ys + zs)[11] == ys[5];
    assert ds[11] == Fe(0 - 1);
  }

  lemma BlockFactor(m: int)
    requires P > 7 && Mod(m, P) != 0
    ensures Fe(0 - 7 * m) != 0
  {
    hide Mod;
    hide IsPrime;
    if Mod(0 - 7 * m, P) == 0 {
      assert 0 - 7 * m == (0 - 7) * m;
      PrimeDividesFactor(P, 0 - 7, m);
      ModUnique(0 - 7, -1, P - 7, P);
      assert false;
    }
  }

  lemma ExcessVanishes(a: int, b: int, s: int)
    requires Mod(a * a + b * b + 1, P) == 0
    ensures Fe(0 - 2 * (s * s) * (a * a + b * b + 1) + (0 - 2 * (1 * 1) * (a * a + b * b + 1)) + 0) == 0
  {
    hide Mod;
    var k := ModDecompose(a * a + b * b + 1, P);
    var m := a * a + b * b + 1;
    var f := 0 - 2 * (s * s) - 2;
    assert 0 - 2 * (s * s) * m + (0 - 2 * (1 * 1) * m) == f * m by {
      assert (2 * (s * s)) * m + 2 * m == (2 * (s * s) + 2) * m;
    }
    assert f * m == (f * k) * P;
    ModOfMultiple(f * k, P);
  }

  lemma LastOfBlock(a: int, b: int)
    ensures Block(a, b, 1)[5] == 0 - 1
  {
  }

  /** Without the hypothesis that the digits are binary the four wires say nothing: they vanish for
      every value and every limit, at some digits. */
  lemma ConstraintsWithFreeDigits(value: Elem, limit: Elem) returns (ds: seq<Elem>, es: seq<Elem>)
    requires Wide()
    ensures |ds| == |es| == AMOUNT_BIT_LEN && !Binary(ds) && !Binary(es)
    ensures forall i :: 0 <= i < 4 ==> Constraints(value, limit, ds, es)[i] == 0
  {
    hide Sub, BooleanitySum, Weighted, Binary;
    ds := AnyTarget(value);
    es := AnyTarget(Sub(limit, value));
    SubZero(value, value);
    SubZero(Sub(limit, value), Sub(limit, value));
  }
}
