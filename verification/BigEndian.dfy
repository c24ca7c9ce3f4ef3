/** Fixed-width big-endian byte strings. */
module BigEndian {

  type Byte = x: int | 0 <= x < 256

  function Power256(n: nat): (r: nat)
    ensures r > 0
  {
    if n == 0 then 1 else 256 * Power256(n - 1)
  }

  /** The integer a big-endian byte string denotes. */
  function FromBytes(bs: seq<Byte>): nat {
    if bs == [] then 0 else FromBytes(bs[..|bs| - 1]) * 256 + bs[|bs| - 1]
  }

  function ToBytes(x: nat, width: nat): (bs: seq<Byte>)
    ensures |bs| == width
  {
    if width == 0 then [] else ToBytes(x / 256, width - 1) + [x % 256]
  }

  /** The order of byte strings of the same length, first byte first. */
  predicate LexLess(a: seq<Byte>, b: seq<Byte>)
    requires |a| == |b|
  {
    a != [] && (a[0] < b[0] || (a[0] == b[0] && LexLess(a[1..], b[1..])))
  }

  lemma {:induction false} BytesOfInteger(x: nat, width: nat)
    requires x < Power256(width)
    ensures FromBytes(ToBytes(x, width)) == x
  {
    if width > 0 {
      BytesOfInteger(x / 256, width - 1);
      var bs := ToBytes(x, width);
      assert bs[..width - 1] == ToBytes(x / 256, width - 1);
    }
  }

  lemma {:induction false} IntegerOfBytes(bs: seq<Byte>)
    ensures FromBytes(bs) < Power256(|bs|)
    ensures ToBytes(FromBytes(bs), |bs|) == bs
  {
    if bs != [] {
      IntegerOfBytes(bs[..|bs| - 1]);
    }
  }

  lemma {:induction false} FirstByte(bs: seq<Byte>)
    requires bs != []
    ensures FromBytes(bs) == bs[0] * Power256(|bs| - 1) + FromBytes(bs[1..])
  {
    if |bs| > 1 {
      FirstByte(bs[..|bs| - 1]);
      assert bs[..|bs| - 1][1..] == bs[1..][..|bs| - 2];
      var top := Power256(|bs| - 2);
      assert bs[0] * Power256(|bs| - 1) == (bs[0] * top) * 256;
    } else {
      assert bs[..0] == [] && bs[1..] == [];
    }
  }

  /** Comparing byte strings of the same length compares the integers they denote. */
  lemma {:induction false} LexLessIsLess(a: seq<Byte>, b: seq<Byte>)
    requires |a| == |b|
    ensures LexLess(a, b) <==> FromBytes(a) < FromBytes(b)
  {
    if a != [] {
      LexLessIsLess(a[1..], b[1..]);
      FirstByte(a);
      FirstByte(b);
      IntegerOfBytes(a[1..]);
      IntegerOfBytes(b[1..]);
      LeadingDigit(a[0], b[0], Power256(|a| - 1), FromBytes(a[1..]), FromBytes(b[1..]));
    }
  }

  lemma LeadingDigit(a: int, b: int, top: int, low: int, low': int)
    requires 0 <= low < top && 0 <= low' < top
    ensures a < b ==> a * top + low < b * top + low'
    ensures b < a ==> b * top + low' < a * top + low
  {
    if a < b {
      assert (b - a - 1) * top >= 0;
    } else if b < a {
      assert (a - b - 1) * top >= 0;
    }
  }

  function Zeros(n: nat): (bs: seq<Byte>)
    ensures |bs| == n
  {
    if n == 0 then [] else [0] + Zeros(n - 1)
  }

  /** Drops leading zero bytes. */
  function Strip(bs: seq<Byte>): seq<Byte> {
    if bs != [] && bs[0] == 0 then Strip(bs[1..]) else bs
  }

  /** The leading-zero-free form, with a single zero byte for zero. */
  function Canonical(bs: seq<Byte>): seq<Byte> {
    if Strip(bs) == [] then [0] else Strip(bs)
  }

  lemma ZeroFirst(n: nat, bs: seq<Byte>)
    requires n > 0
    ensures (Zeros(n) + bs)[0] == 0 && (Zeros(n) + bs)[1..] == Zeros(n - 1) + bs
  {
  }

  lemma {:induction false} StripZeros(n: nat, bs: seq<Byte>)
    ensures Strip(Zeros(n) + bs) == Strip(bs)
    ensures FromBytes(Zeros(n) + bs) == FromBytes(bs)
  {
    hide FromBytes, Power256;
    if n == 0 {
      assert Zeros(0) + bs == bs;
    } else {
      ZeroFirst(n, bs);
      StripZeros(n - 1, bs);
      FirstByte(Zeros(n) + bs);
    }
  }

  lemma {:induction false} StripDecomposition(bs: seq<Byte>) returns (n: nat)
    ensures bs == Zeros(n) + Strip(bs)
    ensures Strip(bs) == [] || Strip(bs)[0] != 0
  {
    if bs != [] && bs[0] == 0 {
      n := StripDecomposition(bs[1..]);
      n := n + 1;
      assert bs == [0] + bs[1..];
    } else {
      n := 0;
    }
  }

  lemma CanonicalIsStripped(bs: seq<Byte>)
    ensures Canonical(Canonical(bs)) == Canonical(bs)
    ensures FromBytes(Canonical(bs)) == FromBytes(bs)
    ensures bs != [] ==> |Canonical(bs)| <= |bs|
  {
    var n := StripDecomposition(bs);
    StripZeros(n, Strip(bs));
    assert [0][1..] == [];
    assert FromBytes([0]) == 0;
  }

  /** Writing a canonical byte string's integer at a fixed width and stripping it gives the
      string back. */
  lemma CanonicalRoundTrip(bs: seq<Byte>, width: nat)
    requires |Canonical(bs)| <= width
    ensures Canonical(ToBytes(FromBytes(Canonical(bs)), width)) == Canonical(bs)
  {
    var c := Canonical(bs);
    CanonicalIsStripped(bs);
    hide Strip, FromBytes, ToBytes, Zeros;
    StripZeros(width - |c|, c);
    IntegerOfBytes(Zeros(width - |c|) + c);
    assert Canonical(Zeros(width - |c|) + c) == Canonical(c);
  }

  /** No leading zero byte, unless it is the only byte; and at least one byte. */
  predicate IsCanonical(bs: seq<Byte>) {
    |bs| > 0 && (|bs| > 1 ==> bs[0] != 0)
  }

  /** The canonical form is the one canonical byte string with the same integer. */
  lemma CanonicalUnique(bs: seq<Byte>, cs: seq<Byte>)
    ensures cs == Canonical(bs) <==> IsCanonical(cs) && FromBytes(cs) == FromBytes(bs)
  {
    hide FromBytes, Zeros, Strip;
    CanonicalIsStripped(bs);
    var n := StripDecomposition(bs);
    if IsCanonical(cs) && FromBytes(cs) == FromBytes(bs) {
      SameInteger(cs, Canonical(bs));
    }
  }

  /** Two canonical byte strings of one integer are the same. */
  lemma SameInteger(a: seq<Byte>, b: seq<Byte>)
    requires IsCanonical(a) && IsCanonical(b) && FromBytes(a) == FromBytes(b)
    ensures a == b
  {
    hide FromBytes, ToBytes;
    if |a| < |b| {
      ShorterIsLess(a, b);
    } else if |b| < |a| {
      ShorterIsLess(b, a);
    }
    IntegerOfBytes(a);
    IntegerOfBytes(b);
  }

  lemma ShorterIsLess(a: seq<Byte>, b: seq<Byte>)
    requires |a| < |b| && IsCanonical(b)
    ensures a == [] || FromBytes(a) < FromBytes(b)
  {
    hide FromBytes, Power256;
    if a != [] {
      IntegerOfBytes(a);
      PowersGrow(|a|, |b| - 1);
      LeadingByte(b);
    }
  }

  lemma LeadingByte(c: seq<Byte>)
    requires c != [] && c[0] != 0
    ensures FromBytes(c) >= Power256(|c| - 1)
  {
    hide FromBytes, Power256;
    FirstByte(c);
    assert (c[0] - 1) * Power256(|c| - 1) >= 0;
  }

  lemma {:induction false} PowersGrow(m: nat, n: nat)
    requires m <= n
    ensures Power256(m) <= Power256(n)
  {
    if m < n {
      PowersGrow(m, n - 1);
    }
  }
}
