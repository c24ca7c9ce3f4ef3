/** Polynomials over the field as coefficient sequences, lowest degree first: synthetic division,
    the bound on the number of roots, and Lagrange interpolation. */
module Polynomials {
  import opened PrimeField

  type Poly = seq<Elem>

  /** Horner evaluation. */
  function Eval(f: Poly, x: Elem): Elem {
    if f == [] then 0 else Add(Mul(Eval(f[1..], x), x), f[0])
  }

  ghost predicate Distinct(xs: seq<Elem>) {
    forall i, j :: 0 <= i < j < |xs| ==> xs[i] != xs[j]
  }

  ghost predicate IsZero(f: Poly) {
    forall i :: 0 <= i < |f| ==> f[i] == 0
  }

  // ---- division by X - r ---------------------------------------------------------------------------

  /** The quotient of f by X - r. */
  function Quotient(f: Poly, r: Elem): (q: Poly)
    ensures |q| == if |f| <= 1 then 0 else |f| - 1
  {
    if |f| <= 1 then [] else [Eval(f[1..], r)] + Quotient(f[1..], r)
  }

  lemma {:induction false} QuotientIdentity(f: Poly, r: Elem, x: Elem)
    ensures Eval(f, x) == Add(Mul(Sub(x, r), Eval(Quotient(f, r), x)), Eval(f, r))
  {
    hide Add, Sub, Mul;
    if |f| <= 1 {
      MulLaws(Sub(x, r), 0, 0);
      AddLaws(Eval(f, r), 0, 0);
      if |f| == 1 {
        assert f[1..] == [];
        MulLaws(x, 0, 0);
        MulLaws(r, 0, 0);
      }
    } else {
      QuotientIdentity(f[1..], r, x);
      assert Quotient(f, r)[1..] == Quotient(f[1..], r);
      DivisionStep(Eval(Quotient(f[1..], r), x), Eval(f[1..], r), f[0], x, r);
    }
  }

  lemma DivisionStep(q: Elem, g: Elem, c: Elem, x: Elem, r: Elem)
    ensures Add(Mul(Add(Mul(Sub(x, r), q), g), x), c)
         == Add(Mul(Sub(x, r), Add(Mul(q, x), g)), Add(Mul(g, r), c))
  {
    FeOf(q); FeOf(g); FeOf(c); FeOf(x); FeOf(r);
    hide Fe, Add, Sub, Mul;
    Representatives();
    DivisionIdentity(q, g, c, x, r);
  }

  lemma DivisionIdentity(q: int, g: int, c: int, x: int, r: int)
    ensures ((x - r) * q + g) * x + c == (x - r) * (q * x + g) + (g * r + c)
  {
    var d := x - r;
    assert (d * q + g) * x == d * (q * x) + g * x;
    assert d * (q * x + g) == d * (q * x) + d * g;
    assert d * g == g * x - g * r;
  }

  lemma {:induction false} EvalZero(f: Poly, x: Elem)
    requires IsZero(f)
    ensures Eval(f, x) == 0
  {
    hide Add, Mul;
    if f != [] {
      EvalZero(f[1..], x);
      MulLaws(x, 0, 0);
      AddLaws(0, 0, 0);
    }
  }

  /** Only a constant leaves the quotient zero. */
  lemma {:induction false} ZeroQuotient(f: Poly, r: Elem)
    requires f != [] && IsZero(Quotient(f, r))
    ensures IsZero(f[1..])
  {
    if |f| > 1 {
      var g := f[1..];
      assert forall i :: 0 <= i < |g| - 1 ==> Quotient(f, r)[i + 1] == Quotient(g, r)[i];
      ZeroQuotient(g, r);
      assert Quotient(f, r)[0] == Eval(g, r);
      ConstantValue(g, r);
    }
  }

  lemma ConstantValue(f: Poly, x: Elem)
    requires f != [] && IsZero(f[1..])
    ensures Eval(f, x) == f[0]
  {
    hide Add, Mul;
    EvalZero(f[1..], x);
    MulLaws(x, 0, 0);
    AddLaws(f[0], 0, 0);
  }

  /** A polynomial with as many distinct roots as coefficients is zero. */
  lemma {:induction false} ManyRoots(f: Poly, xs: seq<Elem>)
    requires |f| <= |xs| && Distinct(xs)
    requires forall i :: 0 <= i < |xs| ==> Eval(f, xs[i]) == 0
    ensures IsZero(f)
    decreases |f|
  {
    if f != [] {
      var r, q := xs[0], Quotient(f, xs[0]);
      hide Add, Sub, Mul, Eval, Quotient;
      forall i | 0 <= i < |xs[1..]|
        ensures Eval(q, xs[1..][i]) == 0
      {
        var x := xs[i + 1];
        QuotientIdentity(f, r, x);
        AddLaws(Mul(Sub(x, r), Eval(q, x)), 0, 0);
        ZeroProduct(Sub(x, r), Eval(q, x));
        SubZero(x, r);
      }
      ManyRoots(q, xs[1..]);
      ZeroQuotient(f, r);
      ConstantValue(f, r);
    }
  }

  // ---- sums and multiples --------------------------------------------------------------------------

  function PolyAdd(f: Poly, g: Poly): (h: Poly)
    requires |f| == |g|
    ensures |h| == |f|
  {
    seq(|f|, i requires 0 <= i < |f| => Add(f[i], g[i]))
  }

  function Scale(c: Elem, f: Poly): (h: Poly)
    ensures |h| == |f|
  {
    seq(|f|, i requires 0 <= i < |f| => Mul(c, f[i]))
  }

  lemma {:induction false} EvalAdd(f: Poly, g: Poly, x: Elem)
    requires |f| == |g|
    ensures Eval(PolyAdd(f, g), x) == Add(Eval(f, x), Eval(g, x))
  {
    hide Add, Mul;
    if f == [] {
      AddLaws(0, 0, 0);
    } else {
      EvalAdd(f[1..], g[1..], x);
      assert PolyAdd(f, g)[1..] == PolyAdd(f[1..], g[1..]);
      EvalAddStep(Eval(f[1..], x), Eval(g[1..], x), f[0], g[0], x);
    }
  }

  lemma EvalAddStep(a: Elem, b: Elem, c: Elem, d: Elem, x: Elem)
    ensures Add(Mul(Add(a, b), x), Add(c, d)) == Add(Add(Mul(a, x), c), Add(Mul(b, x), d))
  {
    FeOf(a); FeOf(b); FeOf(c); FeOf(d); FeOf(x);
    hide Fe, Add, Mul;
    Representatives();
    assert (a + b) * x + (c + d) == (a * x + c) + (b * x + d);
  }

  lemma {:induction false} EvalScale(c: Elem, f: Poly, x: Elem)
    ensures Eval(Scale(c, f), x) == Mul(c, Eval(f, x))
  {
    hide Add, Mul;
    if f == [] {
      MulLaws(c, 0, 0);
    } else {
      EvalScale(c, f[1..], x);
      assert Scale(c, f)[1..] == Scale(c, f[1..]);
      MulLaws(c, Eval(f[1..], x), x);
      MulLaws(Mul(Eval(f[1..], x), x), f[0], c);
    }
  }

  /** Two polynomials of the same length that agree on that many points are equal. */
  lemma AgreeingPolynomials(f: Poly, g: Poly, xs: seq<Elem>)
    requires |f| == |g| <= |xs| && Distinct(xs)
    requires forall i :: 0 <= i < |xs| ==> Eval(f, xs[i]) == Eval(g, xs[i])
    ensures f == g
  {
    hide Add, Sub, Mul, Eval;
    var minusOne := Fe(0 - 1);
    var d := PolyAdd(f, Scale(minusOne, g));
    forall i | 0 <= i < |xs|
      ensures Eval(d, xs[i]) == 0
    {
      var v := Eval(g, xs[i]);
      EvalAdd(f, Scale(minusOne, g), xs[i]);
      EvalScale(minusOne, g, xs[i]);
      Cancelling(v, v);
    }
    ManyRoots(d, xs);
    forall i | 0 <= i < |f|
      ensures f[i] == g[i]
    {
      assert d[i] == 0;
      Cancelling(f[i], g[i]);
    }
  }

  lemma Cancelling(a: Elem, b: Elem)
    ensures Add(a, Mul(Fe(0 - 1), b)) == 0 <==> a == b
  {
    hide Add, Sub, Mul, Neg;
    MulLaws(Fe(0 - 1), b, 0);
    MulLaws(b, 0, 0);
    AddLaws(a, b, 0);
    SubZero(a, b);
  }

  // ---- Lagrange interpolation ----------------------------------------------------------------------

  /** Adds a constant to a polynomial. */
  function AddHead(f: Poly, c: Elem): Poly {
    if f == [] then [c] else [Add(f[0], c)] + f[1..]
  }

  /** The product (a + b X) f. */
  function LinearTimes(a: Elem, b: Elem, f: Poly): (h: Poly)
    ensures |h| == if f == [] then 0 else |f| + 1
  {
    if f == [] then []
    else [Mul(a, f[0])] + AddHead(LinearTimes(a, b, f[1..]), Mul(b, f[0]))
  }

  lemma EvalAddHead(f: Poly, c: Elem, x: Elem)
    ensures Eval(AddHead(f, c), x) == Add(Eval(f, x), c)
  {
    hide Add, Mul;
    if f == [] {
      assert [c][1..] == [];
      MulLaws(x, 0, 0);
    } else {
      assert AddHead(f, c)[1..] == f[1..];
      AddLaws(Mul(Eval(f[1..], x), x), f[0], c);
    }
  }

  lemma {:induction false} EvalLinearTimes(a: Elem, b: Elem, f: Poly, x: Elem)
    ensures Eval(LinearTimes(a, b, f), x) == Mul(Add(a, Mul(b, x)), Eval(f, x))
  {
    hide Add, Mul, AddHead;
    if f == [] {
      MulLaws(Add(a, Mul(b, x)), 0, 0);
    } else {
      var tail := LinearTimes(a, b, f[1..]);
      EvalLinearTimes(a, b, f[1..], x);
      EvalAddHead(tail, Mul(b, f[0]), x);
      assert LinearTimes(a, b, f)[1..] == AddHead(tail, Mul(b, f[0]));
      LinearStep(a, b, Eval(f[1..], x), f[0], x);
    }
  }

  lemma LinearStep(a: Elem, b: Elem, g: Elem, c: Elem, x: Elem)
    ensures Add(Mul(Add(Mul(Add(a, Mul(b, x)), g), Mul(b, c)), x), Mul(a, c))
         == Mul(Add(a, Mul(b, x)), Add(Mul(g, x), c))
  {
    hide Add, Mul;
    var l, bc, ac := Add(a, Mul(b, x)), Mul(b, c), Mul(a, c);
    MulLaws(Mul(l, g), bc, x);
    MulLaws(l, g, x);
    MulLaws(b, x, c);
    MulLaws(b, c, x);
    MulLaws(x, c, 0);
    MulLaws(a, Mul(b, x), c);
    MulLaws(Mul(g, x), c, l);
    AddLaws(Mul(l, Mul(g, x)), Mul(bc, x), ac);
    AddLaws(Mul(bc, x), ac, 0);
  }

  /** The factor xj / (xj - xi) by which the Lagrange weight of node i grows at node j. */
  function WeightFactor(xi: Elem, xj: Elem): Elem {
    Mul(xj, Inv(Sub(xj, xi)))
  }

  /** The Lagrange weight at zero of node i, over the nodes before k. */
  function Weight(xs: seq<Elem>, i: nat, k: nat): Elem
    requires i < |xs| && k <= |xs|
  {
    if k == 0 then Fe(1)
    else if k - 1 == i then Weight(xs, i, k - 1)
    else Mul(Weight(xs, i, k - 1), WeightFactor(xs[i], xs[k - 1]))
  }

  /** Lagrange interpolation at zero through the first n points. */
  function InterpolateAtZero(xs: seq<Elem>, ys: seq<Elem>, n: nat): Elem
    requires |xs| == |ys| && n <= |xs|
  {
    if n == 0 then 0
    else Add(InterpolateAtZero(xs, ys, n - 1), Mul(ys[n - 1], Weight(xs, n - 1, |xs|)))
  }

  /** The basis polynomial of node i over the nodes before k: the product of the factors
      (xj - X) / (xj - xi). */
  function Basis(xs: seq<Elem>, i: nat, k: nat): (f: Poly)
    requires i < |xs| && k <= |xs|
    ensures |f| == if i < k then k else k + 1
  {
    if k == 0 then [Fe(1)]
    else if k - 1 == i then Basis(xs, i, k - 1)
    else LinearTimes(WeightFactor(xs[i], xs[k - 1]), Neg(Inv(Sub(xs[k - 1], xs[i]))), Basis(xs, i, k - 1))
  }

  lemma FactorValue(xi: Elem, xj: Elem, x: Elem)
    ensures Add(WeightFactor(xi, xj), Mul(Neg(Inv(Sub(xj, xi))), x)) == Mul(Sub(xj, x), Inv(Sub(xj, xi)))
  {
    var w := Inv(Sub(xj, xi));
    FeOf(w); FeOf(xj); FeOf(x);
    hide Fe, Add, Sub, Mul, Neg, Inv;
    Representatives();
    assert xj * w + (0 - w) * x == (xj - x) * w;
  }

  lemma LinearTimesAtZero(a: Elem, b: Elem, f: Poly)
    ensures Eval(LinearTimes(a, b, f), 0) == Mul(Eval(f, 0), a)
  {
    hide Add, Mul, Eval, LinearTimes;
    EvalLinearTimes(a, b, f, 0);
    MulLaws(b, 0, 0);
    AddLaws(a, 0, 0);
    MulLaws(a, Eval(f, 0), 0);
  }

  lemma {:induction false} BasisAtZero(xs: seq<Elem>, i: nat, k: nat)
    requires i < |xs| && k <= |xs|
    ensures Eval(Basis(xs, i, k), 0) == Weight(xs, i, k)
  {
    hide Add, Sub, Mul, Neg, Inv, WeightFactor, Eval, LinearTimes;
    if k == 0 {
      ConstantValue([Fe(1)], 0);
    } else {
      BasisAtZero(xs, i, k - 1);
      if k - 1 != i {
        LinearTimesAtZero(WeightFactor(xs[i], xs[k - 1]), Neg(Inv(Sub(xs[k - 1], xs[i]))), Basis(xs, i, k - 1));
      }
    }
  }

  /** A factor multiplies by 1 at its own node, by 0 at xj, and keeps zeros. */
  lemma BasisStep(xi: Elem, xj: Elem, f: Poly, x: Elem)
    requires xi != xj
    ensures var g := LinearTimes(WeightFactor(xi, xj), Neg(Inv(Sub(xj, xi))), f);
            && (x == xi ==> Eval(g, x) == Eval(f, x))
            && (x == xj || Eval(f, x) == 0 ==> Eval(g, x) == 0)
  {
    hide Add, Sub, Mul, Neg, Inv, WeightFactor, Eval, LinearTimes;
    var w, prev := Inv(Sub(xj, xi)), Eval(f, x);
    EvalLinearTimes(WeightFactor(xi, xj), Neg(w), f, x);
    FactorValue(xi, xj, x);
    SubZero(xj, xi);
    SubZero(xj, x);
    InverseLaw(Sub(xj, xi));
    FeOf(1);
    MulLaws(w, 0, 0);
    MulLaws(prev, 0, 0);
    MulLaws(Mul(Sub(xj, x), w), 0, 0);
  }

  /** The basis polynomial is 1 at its own node and 0 at the other nodes it covers. */
  lemma {:induction false} BasisAtNode(xs: seq<Elem>, i: nat, k: nat, m: nat)
    requires i < |xs| && k <= |xs| && m < |xs| && Distinct(xs)
    ensures m == i ==> Eval(Basis(xs, i, k), xs[m]) == 1
    ensures m != i && m < k ==> Eval(Basis(xs, i, k), xs[m]) == 0
  {
    hide Add, Sub, Mul, Neg, Inv, WeightFactor, Eval, LinearTimes;
    FeOf(1);
    if k == 0 {
      ConstantValue([Fe(1)], xs[m]);
    } else {
      BasisAtNode(xs, i, k - 1, m);
      if k - 1 != i {
        BasisStep(xs[i], xs[k - 1], Basis(xs, i, k - 1), xs[m]);
      }
    }
  }

  /** The polynomial through the first n points that vanishes at the other nodes. */
  function Interpolant(xs: seq<Elem>, ys: seq<Elem>, n: nat): (f: Poly)
    requires |xs| == |ys| && n <= |xs|
    ensures |f| == |xs|
  {
    if n == 0 then seq(|xs|, i => 0)
    else PolyAdd(Interpolant(xs, ys, n - 1), Scale(ys[n - 1], Basis(xs, n - 1, |xs|)))
  }

  lemma {:induction false} InterpolantAtZero(xs: seq<Elem>, ys: seq<Elem>, n: nat)
    requires |xs| == |ys| && n <= |xs|
    ensures Eval(Interpolant(xs, ys, n), 0) == InterpolateAtZero(xs, ys, n)
  {
    hide Add, Mul, Eval, Basis, Weight;
    if n == 0 {
      EvalZero(Interpolant(xs, ys, 0), 0);
    } else {
      var basis := Basis(xs, n - 1, |xs|);
      InterpolantAtZero(xs, ys, n - 1);
      EvalAdd(Interpolant(xs, ys, n - 1), Scale(ys[n - 1], basis), 0);
      EvalScale(ys[n - 1], basis, 0);
      BasisAtZero(xs, n - 1, |xs|);
    }
  }

  lemma {:induction false} InterpolantAtNode(xs: seq<Elem>, ys: seq<Elem>, n: nat, m: nat)
    requires |xs| == |ys| && n <= |xs| && m < |xs| && Distinct(xs)
    ensures Eval(Interpolant(xs, ys, n), xs[m]) == if m < n then ys[m] else 0
  {
    hide Add, Mul, Eval, Basis;
    FeOf(1);
    if n == 0 {
      EvalZero(Interpolant(xs, ys, 0), xs[m]);
    } else {
      var basis := Basis(xs, n - 1, |xs|);
      InterpolantAtNode(xs, ys, n - 1, m);
      EvalAdd(Interpolant(xs, ys, n - 1), Scale(ys[n - 1], basis), xs[m]);
      EvalScale(ys[n - 1], basis, xs[m]);
      BasisAtNode(xs, n - 1, |xs|, m);
      MulLaws(ys[n - 1], 0, 0);
      AddLaws(if m < n - 1 then ys[m] else 0, 0, 0);
      AddLaws(ys[n - 1], 0, 0);
    }
  }

  /** Through points with distinct abscissae passes exactly one polynomial of that length. */
  lemma UniqueInterpolation(xs: seq<Elem>, ys: seq<Elem>, f: Poly)
    requires |xs| == |ys| == |f| && Distinct(xs)
    ensures (forall i :: 0 <= i < |xs| ==> Eval(f, xs[i]) == ys[i]) <==> f == Interpolant(xs, ys, |xs|)
  {
    hide Eval, Interpolant;
    var g := Interpolant(xs, ys, |xs|);
    forall i | 0 <= i < |xs|
      ensures Eval(g, xs[i]) == ys[i]
    {
      InterpolantAtNode(xs, ys, |xs|, i);
    }
    if forall i :: 0 <= i < |xs| ==> Eval(f, xs[i]) == ys[i] {
      AgreeingPolynomials(f, g, xs);
    }
  }

  lemma ValueAtZero(f: Poly)
    requires f != []
    ensures Eval(f, 0) == f[0]
  {
    hide Add, Mul;
    MulLaws(Eval(f[1..], 0), 0, 0);
    AddLaws(f[0], 0, 0);
  }
}
