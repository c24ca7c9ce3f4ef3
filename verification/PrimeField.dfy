/** The prime field F_p. The modulus is an arbitrary prime: nothing below depends on which.
    Statements that embed 64-bit integers or share indices without wrap-around say so by
    requiring Wide(). */
module PrimeField {
  import opened NumberTheory

  const TWO_64: int := 0x1_0000_0000_0000_0000
  const TWO_65: int := 0x2_0000_0000_0000_0000

  type Modulus = p: int | IsPrime(p) witness 3

  const P: Modulus

  type Elem = x: int | 0 <= x < P witness 0

  type U64 = x: int | 0 <= x < TWO_64

  /** Sums and differences of 64-bit integers embed without wrap-around. */
  ghost predicate Wide() {
    TWO_65 < P
  }

  /** The field element an integer reduces to. */
  function Fe(x: int): Elem {
    Mod(x, P)
  }

  function Add(a: Elem, b: Elem): Elem { Fe(a + b) }

  function Sub(a: Elem, b: Elem): Elem { Fe(a - b) }

  function Neg(a: Elem): Elem { Fe(0 - a) }

  function Mul(a: Elem, b: Elem): Elem { Fe(a * b) }

  function Pow(x: Elem, e: nat): Elem { PowMod(x, e, P) }

  /** The inverse of a non-zero element, and zero for zero. */
  function Inv(x: Elem): Elem {
    if x == 0 then 0 else Pow(x, P - 2)
  }

  function Sum(xs: seq<Elem>): Elem {
    if xs == [] then 0 else Add(Sum(xs[..|xs| - 1]), xs[|xs| - 1])
  }

  // ---- field operations on representatives -------------------------------------------------

  lemma FeOf(a: Elem)
    ensures Fe(a) == a
  {
  }

  lemma FeOfSmall(x: int)
    requires 0 <= x < P
    ensures Fe(x) == x
  {
  }

  lemma FeAdd(x: int, y: int)
    ensures Add(Fe(x), Fe(y)) == Fe(x + y)
  {
    hide Mod;
    AddMod(x, Mod(y, P), P);
    AddMod(y, x, P);
  }

  lemma FeNeg(x: int)
    ensures Neg(Fe(x)) == Fe(0 - x)
  {
    hide Mod;
    var q := ModDecompose(x, P);
    assert 0 - Mod(x, P) == (0 - x) + q * P;
    ModShift(0 - x, q, P);
  }

  lemma FeSub(x: int, y: int)
    ensures Sub(Fe(x), Fe(y)) == Fe(x - y)
  {
    hide Mod;
    AddMod(x, -Mod(y, P), P);
    var q := ModDecompose(y, P);
    assert x - Mod(y, P) == (x - y) + q * P;
    ModShift(x - y, q, P);
  }

  lemma FeMul(x: int, y: int)
    ensures Mul(Fe(x), Fe(y)) == Fe(x * y)
  {
    hide Mod;
    MulModBoth(x, y, P);
  }

  /** Every operation acts on representatives: with the bodies of the operations hidden, this
      turns a field identity into an identity between integer polynomials. */
  lemma Representatives()
    ensures forall x: int, y: int {:trigger Add(Fe(x), Fe(y))} :: Add(Fe(x), Fe(y)) == Fe(x + y)
    ensures forall x: int, y: int {:trigger Sub(Fe(x), Fe(y))} :: Sub(Fe(x), Fe(y)) == Fe(x - y)
    ensures forall x: int, y: int {:trigger Mul(Fe(x), Fe(y))} :: Mul(Fe(x), Fe(y)) == Fe(x * y)
    ensures forall x: int {:trigger Neg(Fe(x))} :: Neg(Fe(x)) == Fe(0 - x)
  {
    hide Fe, Add, Sub, Mul, Neg;
    forall x: int, y: int ensures Add(Fe(x), Fe(y)) == Fe(x + y) { FeAdd(x, y); }
    forall x: int, y: int ensures Sub(Fe(x), Fe(y)) == Fe(x - y) { FeSub(x, y); }
    forall x: int, y: int ensures Mul(Fe(x), Fe(y)) == Fe(x * y) { FeMul(x, y); }
    forall x: int ensures Neg(Fe(x)) == Fe(0 - x) { FeNeg(x); }
  }

  // ---- laws ------------------------------------------------------------------------------------

  lemma AddLaws(a: Elem, b: Elem, c: Elem)
    ensures Add(a, b) == Add(b, a)
    ensures Add(Add(a, b), c) == Add(a, Add(b, c))
    ensures Add(a, 0) == a && Add(0, a) == a
    ensures Sub(Add(a, b), b) == a && Add(Sub(a, b), b) == a
    ensures Sub(a, b) == Add(a, Neg(b))
  {
    FeOf(a); FeOf(b); FeOf(c); FeOf(0);
    hide Fe, Add, Sub, Neg;
    Representatives();
  }

  lemma MulLaws(a: Elem, b: Elem, c: Elem)
    ensures Mul(a, b) == Mul(b, a)
    ensures Mul(Mul(a, b), c) == Mul(a, Mul(b, c))
    ensures Mul(a, 0) == 0 && Mul(0, a) == 0
    ensures Mul(a, Fe(1)) == a && Mul(Fe(1), a) == a
    ensures Mul(Add(a, b), c) == Add(Mul(a, c), Mul(b, c))
    ensures Mul(c, Add(a, b)) == Add(Mul(c, a), Mul(c, b))
    ensures Mul(Sub(a, b), c) == Sub(Mul(a, c), Mul(b, c))
    ensures Mul(a, Fe(0 - 1)) == Neg(a)
  {
    hide Fe, Add, Sub, Mul, Neg;
    FeOf(a); FeOf(b); FeOf(c); FeOf(0);
    FeMul(a, b); FeMul(b, a); FeMul(a * b, c); FeMul(b, c); FeMul(a, b * c);
    FeMul(a, 0); FeMul(0, a); FeMul(a, 1); FeMul(1, a); FeMul(a, 0 - 1); FeNeg(a);
    FeAdd(a, b); FeSub(a, b); FeMul(a, c); FeMul(c, a); FeMul(c, b);
    FeMul(a + b, c); FeMul(c, a + b); FeMul(a - b, c);
    FeAdd(a * c, b * c); FeAdd(c * a, c * b); FeSub(a * c, b * c);
    IntegerLaws(a, b, c);
  }

  lemma IntegerLaws(a: int, b: int, c: int)
    ensures a * b == b * a && (a * b) * c == a * (b * c)
    ensures a * 0 == 0 && 0 * a == 0 && a * 1 == a && 1 * a == a && a * (0 - 1) == 0 - a
    ensures (a + b) * c == a * c + b * c && c * (a + b) == c * a + c * b && (a - b) * c == a * c - b * c
  {
  }

  lemma SubZero(a: Elem, b: Elem)
    ensures Sub(a, b) == 0 <==> a == b
  {
    hide Fe, Add, Sub;
    AddLaws(a, b, 0);
    AddLaws(b, 0, 0);
    AddLaws(0, b, 0);
  }

  lemma ZeroProduct(a: Elem, b: Elem)
    ensures Mul(a, b) == 0 <==> a == 0 || b == 0
  {
    FeOf(a);
    FeOf(b);
    MulLaws(a, b, 0);
    MulLaws(b, a, 0);
    hide Mod;
    if Mul(a, b) == 0 {
      PrimeDividesFactor(P, a, b);
    }
  }

  /** With masks d = x - a and e = y - b open, the product of x and y is read off a b. */
  lemma BeaverIdentity(x: Elem, y: Elem, a: Elem, b: Elem)
    ensures var d, e := Sub(x, a), Sub(y, b);
            Add(Add(Add(Mul(a, b), Mul(d, b)), Mul(e, a)), Mul(d, e)) == Mul(x, y)
  {
    FeOf(x); FeOf(y); FeOf(a); FeOf(b);
    hide Fe, Add, Sub, Mul;
    Representatives();
    assert a * b + (x - a) * b + (y - b) * a + (x - a) * (y - b) == x * y;
  }

  // ---- powers and inverses ---------------------------------------------------------------------

  lemma PowAdd(x: Elem, e: nat, f: nat)
    ensures Pow(x, e + f) == Mul(Pow(x, e), Pow(x, f))
  {
    PowModAdd(x, e, f, P);
  }

  lemma PowOne(x: Elem)
    ensures Pow(x, 1) == x
  {
    ModSmall(1, P);
    ModSmall(x, P);
    assert PowMod(x, 0, P) == 1;
    assert x * 1 == x;
  }

  /** The Fermat indicator: x^(p-1) tells zero from non-zero. */
  lemma FermatIndicator(x: Elem)
    ensures Pow(x, P - 1) == if x == 0 then 0 else 1
  {
    ModSmall(x, P);
    hide Mod;
    if x == 0 {
      PowModZero(x, P - 1, P);
    } else {
      Fermat(P, x);
    }
  }

  lemma InverseLaw(x: Elem)
    requires x != 0
    ensures Mul(x, Inv(x)) == 1 && Inv(x) != 0
  {
    hide Fe, Mul, Pow;
    FermatIndicator(x);
    PowOne(x);
    PowAdd(x, 1, P - 2);
    ZeroProduct(x, Inv(x));
  }

  // ---- sums --------------------------------------------------------------------------------------

  lemma SumSnoc(xs: seq<Elem>, x: Elem)
    ensures Sum(xs + [x]) == Add(Sum(xs), x)
  {
    assert (xs + [x])[..|xs|] == xs;
  }
}
