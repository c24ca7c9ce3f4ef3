/** Digests as field elements: the little-endian integer of the bytes, reduced modulo p. */
module DigestField {
  import opened NumberTheory
  import opened PrimeField
  import opened BigEndian

  function LittleEndian(bs: seq<Byte>): nat {
    if bs == [] then 0 else bs[0] + 256 * LittleEndian(bs[1..])
  }

  /** A digest read as a field element, reduced modulo p. */
  function DigestToField(digest: seq<Byte>): Elem {
    Fe(LittleEndian(digest))
  }

  // ---- which integer, and which digests merge ----------------------------------------------------------

  function Reversed(bs: seq<Byte>): (r: seq<Byte>)
    ensures |r| == |bs|
  {
    seq(|bs|, i requires 0 <= i < |bs| => bs[|bs| - 1 - i])
  }

  /** The integer a digest denotes: its bytes, last one first, as a big-endian number. */
  function DigestNumber(digest: seq<Byte>): nat {
    FromBytes(Reversed(digest))
  }

  predicate Congruent(x: int, y: int) {
    x % P == y % P
  }

  lemma {:induction false} LittleEndianNumber(bs: seq<Byte>)
    ensures LittleEndian(bs) == DigestNumber(bs)
  {
    if bs != [] {
      LittleEndianNumber(bs[1..]);
      var r := Reversed(bs);
      assert r[..|r| - 1] == Reversed(bs[1..]) && r[|r| - 1] == bs[0];
    }
  }

  /** Two digests become one element exactly when their integers are congruent modulo p, and an
      integer below p is the element itself. */
  lemma DigestsMerge(d: seq<Byte>, e: seq<Byte>)
    ensures DigestToField(d) == DigestToField(e) <==> Congruent(DigestNumber(d), DigestNumber(e))
    ensures DigestNumber(d) < P ==> DigestToField(d) == DigestNumber(d)
  {
    hide LittleEndian, DigestNumber;
    LittleEndianNumber(d);
    LittleEndianNumber(e);
  }

  /** The integer of a digest determines it. */
  lemma NumberDetermines(d: seq<Byte>, e: seq<Byte>)
    requires |d| == |e| && DigestNumber(d) == DigestNumber(e)
    ensures d == e
  {
    IntegerOfBytes(Reversed(d));
    IntegerOfBytes(Reversed(e));
    forall i | 0 <= i < |d|
      ensures d[i] == e[i]
    {
      assert Reversed(d)[|d| - 1 - i] == d[i] && Reversed(e)[|d| - 1 - i] == e[i];
    }
  }

  /** Byte k counts 256^k times. */
  lemma {:induction false} DigestByte(d: seq<Byte>, k: nat, b: Byte)
    requires k < |d|
    ensures DigestNumber(d[k := b]) - DigestNumber(d) == (b - d[k]) * Power256(k)
  {
    hide DigestNumber;
    LittleEndianNumber(d);
    LittleEndianNumber(d[k := b]);
    if k == 0 {
      assert d[0 := b][1..] == d[1..];
    } else {
      DigestByte(d[1..], k - 1, b);
      LittleEndianNumber(d[1..]);
      LittleEndianNumber(d[1..][k - 1 := b]);
      assert d[k := b][1..] == d[1..][k - 1 := b];
      assert 256 * ((b - d[k]) * Power256(k - 1)) == (b - d[k]) * (256 * Power256(k - 1));
    }
  }

  // ---- digests that merge ------------------------------------------------------------------------------

  lemma {:induction false} IntegersHaveDigests(x: nat, n: nat) returns (bs: seq<Byte>)
    requires x < Power256(n)
    ensures |bs| == n && DigestNumber(bs) == x
  {
    bs := Reversed(ToBytes(x, n));
    assert Reversed(bs) == ToBytes(x, n);
    BytesOfInteger(x, n);
  }

  /** The modulus leaves room for two 32-byte digests of one residue. */
  ghost predicate DigestsCollide() {
    2 * P < Power256(32)
  }

  /** Every digest then has a different, non-zero one that reduces to the same field element. */
  lemma MergedDigest(digest: seq<Byte>) returns (other: seq<Byte>)
    requires DigestsCollide() && |digest| == 32
    ensures |other| == 32 && other != digest && other != Zeros(32)
    ensures Congruent(DigestNumber(other), DigestNumber(digest))
  {
    hide Power256, DigestNumber;
    var c := DigestNumber(digest);
    NumberBound(digest);
    NumberOfZeros(32);
    CongruentShift(c);
    var x := if c + P < Power256(32) then c + P else c - P;
    other := IntegersHaveDigests(x, 32);
  }

  lemma NumberBound(digest: seq<Byte>)
    ensures DigestNumber(digest) < Power256(|digest|)
  {
    IntegerOfBytes(Reversed(digest));
  }

  lemma CongruentShift(x: int)
    ensures Congruent(x + P, x) && Congruent(x - P, x)
  {
    ModShift(x, 1, P);
    ModShift(x, -1, P);
  }

  lemma NumberOfZeros(n: nat)
    ensures DigestNumber(Zeros(n)) == 0
  {
    ZerosAt(n);
    assert Reversed(Zeros(n)) == Zeros(n) + [];
    StripZeros(n, []);
  }

  lemma {:induction false} ZerosAt(n: nat)
    ensures forall i :: 0 <= i < n ==> Zeros(n)[i] == 0
  {
    if n > 0 {
      ZerosAt(n - 1);
    }
  }
}
