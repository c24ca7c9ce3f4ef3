/** Elementary number theory over the integers: residues, primes, modular powers, the absence
    of zero divisors modulo a prime, and Fermat's little theorem. */
module NumberTheory {

  ghost predicate IsPrime(p: int) {
    2 <= p && forall d :: 2 <= d < p ==> p % d != 0
  }

  /** The residue of x modulo n. Proofs hide its body and use the lemmas below. */
  function Mod(x: int, n: int): (r: int)
    requires n > 0
    ensures 0 <= r < n
  {
    x % n
  }

  function PowMod(x: nat, e: nat, n: int): (r: nat)
    requires n > 0
    ensures r < n
  {
    if e == 0 then Mod(1, n) else Mod(x * PowMod(x, e - 1, n), n)
  }

  // ---- residues ------------------------------------------------------------------------------

  lemma ScaledBounds(k: int, n: int)
    requires n > 0
    ensures k >= 1 ==> k * n >= n
    ensures k <= -1 ==> k * n <= -n
  {
    if k >= 1 {
      assert (k - 1) * n >= 0;
    } else if k <= -1 {
      assert (-1 - k) * n >= 0;
    }
  }

  lemma ModUnique(x: int, q: int, r: int, n: int)
    requires n > 0 && 0 <= r < n && x == q * n + r
    ensures Mod(x, n) == r
  {
    assert x % n - r == (q - x / n) * n;
    ScaledBounds(q - x / n, n);
  }

  lemma ModSmall(x: int, n: int)
    requires 0 <= x < n
    ensures Mod(x, n) == x
  {
  }

  lemma ModDecompose(x: int, n: int) returns (q: int)
    requires n > 0
    ensures x == q * n + Mod(x, n)
  {
    q := x / n;
  }

  /** Adding a multiple of the modulus changes nothing. */
  lemma ModShift(x: int, k: int, n: int)
    requires n > 0
    ensures Mod(x + k * n, n) == Mod(x, n)
  {
    hide Mod;
    var q := ModDecompose(x, n);
    assert x + k * n == (q + k) * n + Mod(x, n);
    ModUnique(x + k * n, q + k, Mod(x, n), n);
  }

  lemma ModOfMultiple(k: int, n: int)
    requires n > 0
    ensures Mod(k * n, n) == 0
  {
    ModUnique(k * n, k, 0, n);
  }

  lemma AddMod(x: int, y: int, n: int)
    requires n > 0
    ensures Mod(Mod(x, n) + y, n) == Mod(x + y, n)
  {
    hide Mod;
    var q := ModDecompose(x, n);
    ModShift(Mod(x, n) + y, q, n);
  }

  lemma MulMod(x: int, y: int, n: int)
    requires n > 0
    ensures Mod(Mod(x, n) * y, n) == Mod(x * y, n)
  {
    hide Mod;
    var q := ModDecompose(x, n);
    assert x * y == Mod(x, n) * y + (q * y) * n by {
      assert (q * n + Mod(x, n)) * y == (q * n) * y + Mod(x, n) * y;
      assert (q * n) * y == (q * y) * n;
    }
    ModShift(Mod(x, n) * y, q * y, n);
  }

  lemma MulModBoth(x: int, y: int, n: int)
    requires n > 0
    ensures Mod(Mod(x, n) * Mod(y, n), n) == Mod(x * y, n)
  {
    hide Mod;
    MulMod(x, Mod(y, n), n);
    MulMod(y, x, n);
    assert x * Mod(y, n) == Mod(y, n) * x && y * x == x * y;
  }

  lemma AssocMod(a: int, b: int, c: int, n: int)
    requires n > 0
    ensures Mod(a * Mod(b * c, n), n) == Mod(Mod(a * b, n) * c, n)
  {
    hide Mod;
    MulMod(b * c, a, n);
    MulMod(a * b, c, n);
    assert (b * c) * a == (a * b) * c;
    assert a * Mod(b * c, n) == Mod(b * c, n) * a;
  }

  lemma RegroupMod(a: int, b: int, c: int, d: int, n: int)
    requires n > 0
    ensures Mod(Mod(a * b, n) * Mod(c * d, n), n) == Mod(Mod(a * c, n) * Mod(b * d, n), n)
  {
    hide Mod;
    MulModBoth(a * b, c * d, n);
    MulModBoth(a * c, b * d, n);
    assert (a * b) * (c * d) == (a * c) * (b * d);
  }

  // ---- primes ------------------------------------------------------------------------------

  /** A product with two factors that are non-zero modulo a prime is non-zero. The factor b
      shrinks to p mod b, as in Euclid's algorithm. */
  lemma {:induction false} NoZeroDivisors(p: int, a: int, b: int)
    requires IsPrime(p) && Mod(a, p) != 0 && 0 < b < p
    ensures Mod(a * b, p) != 0
    decreases b
  {
    if b == 1 {
      assert a * b == a;
    } else {
      var r := p % b;
      NoZeroDivisors(p, a, r);
      QuotientStep(p, a, b);
    }
  }

  lemma QuotientStep(p: int, a: int, b: int)
    requires 0 < b < p
    ensures Mod(a * b, p) == 0 ==> Mod(a * (p % b), p) == 0
  {
    var q, r := p / b, p % b;
    assert p == q * b + r;
    hide Mod;
    var k := ModDecompose(a * b, p);
    assert a * r == a * p - (a * b) * q by {
      assert a * p == a * (q * b) + a * r;
      assert a * (q * b) == (a * b) * q;
    }
    if Mod(a * b, p) == 0 {
      assert (a * b) * q == (k * q) * p;
      assert a * r == (a - k * q) * p;
      ModOfMultiple(a - k * q, p);
    }
  }

  lemma PrimeDividesFactor(p: int, a: int, b: int)
    requires IsPrime(p) && Mod(a * b, p) == 0
    ensures Mod(a, p) == 0 || Mod(b, p) == 0
  {
    hide Mod;
    hide IsPrime;
    MulMod(b, a, p);
    assert Mod(b, p) * a == a * Mod(b, p) && b * a == a * b;
    if Mod(a, p) != 0 && Mod(b, p) != 0 {
      NoZeroDivisors(p, a, Mod(b, p));
    }
  }

  lemma Cancel(p: int, a: int, x: int, y: int)
    requires IsPrime(p) && Mod(a, p) != 0
    requires 0 <= x <= y < p
    requires Mod(a * x, p) == Mod(a * y, p)
    ensures x == y
  {
    hide Mod;
    hide IsPrime;
    var qx := ModDecompose(a * x, p);
    var qy := ModDecompose(a * y, p);
    assert a * (y - x) == a * y - a * x == (qy - qx) * p;
    ModOfMultiple(qy - qx, p);
    if x < y {
      NoZeroDivisors(p, a, y - x);
    }
  }

  // ---- powers --------------------------------------------------------------------------------

  lemma {:induction false} PowModAdd(x: nat, e: nat, f: nat, n: int)
    requires n > 0
    ensures PowMod(x, e + f, n) == Mod(PowMod(x, e, n) * PowMod(x, f, n), n)
  {
    hide Mod;
    var pf := PowMod(x, f, n);
    if e == 0 {
      MulMod(1, pf, n);
      ModSmall(pf, n);
    } else {
      PowModAdd(x, e - 1, f, n);
      assert PowMod(x, e + f, n) == Mod(x * PowMod(x, (e - 1) + f, n), n);
      AssocMod(x, PowMod(x, e - 1, n), pf, n);
    }
  }

  lemma {:induction false} PowModZero(x: nat, e: nat, n: int)
    requires n > 0 && e > 0 && Mod(x, n) == 0
    ensures PowMod(x, e, n) == 0
  {
    hide Mod;
    MulMod(x, PowMod(x, e - 1, n), n);
    assert 0 * PowMod(x, e - 1, n) == 0;
    ModSmall(0, n);
  }

  // ---- Fermat's little theorem -----------------------------------------------------------------

  /** The product modulo n of the entries of xs. */
  function Product(xs: seq<nat>, n: int): (r: nat)
    requires n > 0
    ensures r < n
  {
    if xs == [] then Mod(1, n) else Mod(xs[0] * Product(xs[1..], n), n)
  }

  function Without<T>(xs: seq<T>, i: nat): seq<T>
    requires i < |xs|
  {
    xs[..i] + xs[i + 1..]
  }

  lemma WithoutMultiset<T>(xs: seq<T>, i: nat)
    requires i < |xs|
    ensures xs[i] in multiset(xs) && multiset(Without(xs, i)) == multiset(xs) - multiset{xs[i]}
  {
    assert xs == xs[..i] + [xs[i]] + xs[i + 1..];
  }

  lemma {:induction false} ProductRemove(xs: seq<nat>, i: nat, n: int)
    requires n > 0 && i < |xs|
    ensures Product(xs, n) == Mod(xs[i] * Product(Without(xs, i), n), n)
  {
    hide Mod;
    if i == 0 {
      assert Without(xs, i) == xs[1..];
    } else {
      ProductRemove(xs[1..], i - 1, n);
      assert Without(xs, i)[1..] == Without(xs[1..], i - 1);
      SwapFactors(xs[0], xs[i], Product(Without(xs[1..], i - 1), n), n);
    }
  }

  lemma SwapFactors(a: int, b: int, t: int, n: int)
    requires n > 0
    ensures Mod(a * Mod(b * t, n), n) == Mod(b * Mod(a * t, n), n)
  {
    hide Mod;
    MulMod(b * t, a, n);
    MulMod(a * t, b, n);
    assert (b * t) * a == (a * t) * b;
    assert a * Mod(b * t, n) == Mod(b * t, n) * a;
    assert b * Mod(a * t, n) == Mod(a * t, n) * b;
  }

  /** The product depends only on the multiset of the factors. */
  lemma {:induction false} ProductOfPermutation(xs: seq<nat>, ys: seq<nat>, n: int)
    requires n > 0 && multiset(xs) == multiset(ys)
    ensures Product(xs, n) == Product(ys, n)
    decreases |xs|
  {
    hide Mod;
    if xs == [] {
      assert |multiset(ys)| == 0;
    } else {
      assert xs[0] in multiset(ys);
      var i :| 0 <= i < |ys| && ys[i] == xs[0];
      ProductRemove(ys, i, n);
      WithoutMultiset(xs, 0);
      WithoutMultiset(ys, i);
      assert Without(xs, 0) == xs[1..];
      ProductOfPermutation(xs[1..], Without(ys, i), n);
    }
  }

  /** The residues 1, 2, ..., m. */
  function Residues(m: nat): (xs: seq<nat>)
    ensures |xs| == m && forall i :: 0 <= i < m ==> xs[i] == i + 1
  {
    seq(m, i => i + 1)
  }

  function Scaled(a: nat, xs: seq<nat>, n: int): (ys: seq<nat>)
    requires n > 0
    ensures |ys| == |xs| && forall i :: 0 <= i < |xs| ==> ys[i] == Mod(a * xs[i], n)
  {
    seq(|xs|, i requires 0 <= i < |xs| => Mod(a * xs[i], n))
  }

  lemma {:induction false} ProductScaled(a: nat, xs: seq<nat>, n: int)
    requires n > 0
    ensures Product(Scaled(a, xs, n), n) == Mod(PowMod(a, |xs|, n) * Product(xs, n), n)
  {
    hide Mod;
    if xs == [] {
      MulModBoth(1, 1, n);
    } else {
      ProductScaled(a, xs[1..], n);
      assert Scaled(a, xs, n)[1..] == Scaled(a, xs[1..], n);
      RegroupMod(a, xs[0], PowMod(a, |xs| - 1, n), Product(xs[1..], n), n);
    }
  }

  /** Distinct values between 1 and |xs| are all of them. */
  lemma {:induction false} Pigeonhole(xs: seq<nat>)
    requires forall i :: 0 <= i < |xs| ==> 1 <= xs[i] <= |xs|
    requires forall i, j :: 0 <= i < j < |xs| ==> xs[i] != xs[j]
    ensures multiset(xs) == multiset(Residues(|xs|))
    decreases |xs|
  {
    hide Without, Residues;
    var m := |xs|;
    if m == 0 {
      NoResidues();
    } else {
      TopOccurs(xs);
      var i :| 0 <= i < m && xs[i] == m;
      WithoutTop(xs, i);
      Pigeonhole(Without(xs, i));
      WithoutMultiset(xs, i);
      LastResidue(m);
      SameAfterRemoval(multiset(xs), multiset(Residues(m)), m);
    }
  }

  lemma NoResidues()
    ensures Residues(0) == []
  {
  }

  lemma WithoutTop(xs: seq<nat>, i: nat)
    requires i < |xs| && xs[i] == |xs|
    requires forall j :: 0 <= j < |xs| ==> 1 <= xs[j] <= |xs|
    requires forall j, k :: 0 <= j < k < |xs| ==> xs[j] != xs[k]
    ensures var ys := Without(xs, i);
            && |ys| == |xs| - 1 && (forall j :: 0 <= j < |ys| ==> 1 <= ys[j] <= |ys|)
            && forall j, k :: 0 <= j < k < |ys| ==> ys[j] != ys[k]
  {
  }

  lemma LastResidue(m: nat)
    requires m > 0
    ensures m in multiset(Residues(m)) && multiset(Residues(m)) - multiset{m} == multiset(Residues(m - 1))
  {
    assert Residues(m) == Residues(m - 1) + [m];
  }

  lemma SameAfterRemoval<T>(a: multiset<T>, b: multiset<T>, x: T)
    requires x in a && x in b && a - multiset{x} == b - multiset{x}
    ensures a == b
  {
    assert a == (a - multiset{x}) + multiset{x};
    assert b == (b - multiset{x}) + multiset{x};
  }

  lemma TopOccurs(xs: seq<nat>)
    requires |xs| > 0
    requires forall i :: 0 <= i < |xs| ==> 1 <= xs[i] <= |xs|
    requires forall i, j :: 0 <= i < j < |xs| ==> xs[i] != xs[j]
    ensures |xs| in xs
  {
    var all := set x | x in xs;
    SizeOfRange(xs, all);
    if |xs| !in xs {
      SizeBound(all, |xs| - 1);
    }
  }

  lemma {:induction false} SizeOfRange(xs: seq<nat>, s: set<nat>)
    requires forall i, j :: 0 <= i < j < |xs| ==> xs[i] != xs[j]
    requires s == set x | x in xs
    ensures |s| == |xs|
  {
    if xs != [] {
      var ys, last := xs[..|xs| - 1], xs[|xs| - 1];
      SizeOfRange(ys, set y | y in ys);
      assert xs == ys + [last];
      assert s == (set y | y in ys) + {last};
    }
  }

  lemma {:induction false} SizeBound(s: set<nat>, m: nat)
    requires forall x :: x in s ==> 1 <= x <= m
    ensures |s| <= m
  {
    if m == 0 {
      assert s == {};
    } else {
      SizeBound(s - {m}, m - 1);
    }
  }

  /** The product of non-zero residues is non-zero modulo a prime. */
  lemma {:induction false} ProductNonZero(p: nat, xs: seq<nat>)
    requires IsPrime(p) && forall i :: 0 <= i < |xs| ==> 0 < xs[i] < p
    ensures 0 < Product(xs, p)
  {
    if xs == [] {
      ModSmall(1, p);
    } else {
      ProductNonZero(p, xs[1..]);
      ModSmall(xs[0], p);
      hide Mod;
      hide IsPrime;
      NoZeroDivisors(p, xs[0], Product(xs[1..], p));
    }
  }

  /** Multiplication by a non-zero factor permutes the non-zero residues. */
  lemma ScaledIsPermutation(p: nat, a: nat)
    requires IsPrime(p) && Mod(a, p) != 0
    ensures multiset(Scaled(a, Residues(p - 1), p)) == multiset(Residues(p - 1))
  {
    var xs := Residues(p - 1);
    var ys := Scaled(a, xs, p);
    hide Mod;
    hide IsPrime;
    forall i | 0 <= i < p - 1
      ensures 1 <= ys[i] <= p - 1
    {
      NoZeroDivisors(p, a, xs[i]);
    }
    forall i, j | 0 <= i < j < p - 1
      ensures ys[i] != ys[j]
    {
      if ys[i] == ys[j] {
        Cancel(p, a, xs[i], xs[j]);
      }
    }
    Pigeonhole(ys);
  }

  /** Fermat's little theorem. */
  lemma Fermat(p: nat, a: nat)
    requires IsPrime(p) && Mod(a, p) != 0
    ensures PowMod(a, p - 1, p) == 1
  {
    var xs := Residues(p - 1);
    ScaledIsPermutation(p, a);
    ProductOfPermutation(Scaled(a, xs, p), xs, p);
    ProductScaled(a, xs, p);
    ProductNonZero(p, xs);
    UnitFactor(p, Product(xs, p), PowMod(a, p - 1, p));
  }

  lemma UnitFactor(p: int, f: int, w: int)
    requires IsPrime(p) && 0 < f < p && 0 <= w < p && Mod(w * f, p) == f
    ensures w == 1
  {
    ModSmall(f, p);
    assert w * f == f * w && f * 1 == f;
    hide Mod;
    if w < 1 {
      Cancel(p, f, w, 1);
    } else {
      Cancel(p, f, 1, w);
    }
  }

  // ---- minus one is a sum of two squares ---------------------------------------------------------------

  lemma SameResidue(x: int, y: int, n: int) returns (k: int)
    requires n > 0 && Mod(x, n) == Mod(y, n)
    ensures x - y == k * n
  {
    hide Mod;
    var q := ModDecompose(x, n);
    var r := ModDecompose(y, n);
    k := q - r;
  }

  lemma SquaresDiffer(p: int, a: int, b: int, k: int)
    requires IsPrime(p) && 0 <= a < b && a + b < p
    ensures b * b - a * a != k * p
  {
    hide Mod;
    hide IsPrime;
    if b * b - a * a == k * p {
      assert (b - a) * (b + a) == k * p;
      ModOfMultiple(k, p);
      PrimeDividesFactor(p, b - a, b + a);
      ModSmall(b - a, p);
      ModSmall(b + a, p);
      assert false;
    }
  }

  /** More entries than values: two entries are equal. */
  lemma Collision(xs: seq<nat>, m: nat) returns (i: nat, j: nat)
    requires |xs| > m && forall i :: 0 <= i < |xs| ==> 1 <= xs[i] <= m
    ensures i < j < |xs| && xs[i] == xs[j]
  {
    if forall i, j :: 0 <= i < j < |xs| ==> xs[i] != xs[j] {
      var all := set x | x in xs;
      SizeOfRange(xs, all);
      SizeBound(all, m);
      assert false;
    }
    i, j :| 0 <= i < j < |xs| && xs[i] == xs[j];
  }

  /** The i-th of the squares i^2 and the numbers -1 - i^2, i up to h, modulo p. */
  function SquareOrNot(p: int, h: nat, i: nat): (r: nat)
    requires p > 0
    ensures r < p
  {
    if i <= h then Mod(i * i, p) else Mod(-1 - (i - h - 1) * (i - h - 1), p)
  }

  lemma SquaresMeet(p: int, h: nat, i: nat, j: nat)
    requires IsPrime(p) && p == 2 * h + 1 && i < j <= 2 * h + 1 && SquareOrNot(p, h, i) == SquareOrNot(p, h, j)
    ensures i <= h < j && var b := j - h - 1; Mod(i * i + b * b + 1, p) == 0
  {
    hide Mod;
    hide IsPrime;
    if j <= h {
      var k := SameResidue(j * j, i * i, p);
      SquaresDiffer(p, i, j, k);
    } else if i > h {
      var u, v := i - h - 1, j - h - 1;
      var k := SameResidue(-1 - u * u, -1 - v * v, p);
      SquaresDiffer(p, u, v, k);
    } else {
      var b := j - h - 1;
      var k := SameResidue(i * i, -1 - b * b, p);
      ModOfMultiple(k, p);
    }
  }

  /** Modulo an odd prime, minus one is a sum of two squares: of p + 1 residues i^2 and -1 - i^2 with
      i up to p / 2, two must be equal. */
  lemma MinusOneIsTwoSquares(p: int) returns (a: nat, b: nat)
    requires IsPrime(p) && p > 2
    ensures Mod(a * a + b * b + 1, p) == 0
  {
    var h := p / 2;
    assert p % 2 != 0;
    assert p == 2 * h + 1;
    hide IsPrime, SquareOrNot, Mod;
    var xs := seq<nat>(p + 1, i requires 0 <= i < p + 1 => SquareOrNot(p, h, i) + 1);
    var i, j := Collision(xs, p);
    SquaresMeet(p, h, i, j);
    a, b := i, j - h - 1;
  }
}
