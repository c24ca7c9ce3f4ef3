/** Shamir secret sharing: split evaluates a random polynomial by Horner's rule, reconstruct
    interpolates it at zero by Lagrange's formula. */
module Shamir {
  import opened Wrappers
  import opened PrimeField
  import opened RandomTape
  import opened BigEndian
  import opened Codec
  import opened Polynomials

  const MAX_SHARE_COUNT: nat := 1000
  const SHARE_VERSION: Byte := 1

  datatype Error =
    | InvalidThreshold | InvalidShareCount | ThresholdGreaterThanCount | EmptyInput
    | InsufficientShares | DuplicateShareIndex | InvalidShareIndex | IncompatibleMetadata
    | ReconstructionFailure | SecretTooLargeForField

  datatype Share = Share(version: Byte, threshold: U32, shareCount: U32, index: U32, value: Elem)

  // ---- bytes and field elements --------------------------------------------------------------------

  /** Interprets bytes as a big-endian integer, exactly: integers at or above the modulus are
      refused rather than reduced. */
  method ElementFromBytes(bytes: seq<Byte>) returns (r: Result<Elem, Error>)
    requires ElementsFit()
    ensures r == if |bytes| <= ELEMENT_LEN && FromBytes(bytes) < P
                 then Ok(FromBytes(bytes)) else Err(SecretTooLargeForField)
  {
    if |bytes| > ELEMENT_LEN {
      return Err(SecretTooLargeForField);
    }
    var modulus := ToBytes(P, ELEMENT_LEN);
    var buf := Zeros(ELEMENT_LEN - |bytes|) + bytes;
    BytesOfInteger(P, ELEMENT_LEN);
    StripZeros(ELEMENT_LEN - |bytes|, bytes);
    LexLessIsLess(buf, modulus);
    if !LexLess(buf, modulus) {
      return Err(SecretTooLargeForField);
    }
    return Ok(FromBytes(buf));
  }

  method FirstNonZero(bytes: seq<Byte>) returns (k: nat)
    ensures k <= |bytes| && bytes[k..] == Strip(bytes)
  {
    k := 0;
    while k < |bytes| && bytes[k] == 0
      invariant k <= |bytes| && Strip(bytes[k..]) == Strip(bytes)
    {
      assert bytes[k..][1..] == bytes[k + 1..];
      k := k + 1;
    }
  }

  method CanonicalSecretBytes(secret: seq<Byte>) returns (r: Result<seq<Byte>, Error>)
    ensures r == if secret == [] then Err(EmptyInput) else Ok(Canonical(secret))
  {
    if secret == [] {
      return Err(EmptyInput);
    }
    var k := FirstNonZero(secret);
    if k == |secret| {
      return Ok([0]);
    }
    return Ok(secret[k..]);
  }

  // ---- split -----------------------------------------------------------------------------------------

  /** The sharing polynomial: the secret is its constant term, the tape supplies the rest. */
  function SharingPolynomial(secret: Elem, threshold: nat, draws: nat -> Elem, at: nat): (f: Poly)
    requires threshold > 0
    ensures |f| == threshold && f[0] == secret
  {
    [secret] + Drawn(draws, at, threshold - 1)
  }

  function ShareAt(f: Poly, threshold: U32, shareCount: U32, index: U32): Share {
    Share(SHARE_VERSION, threshold, shareCount, index, Eval(f, Fe(index)))
  }

  function SharesFrom(f: Poly, threshold: U32, shareCount: U32): (shares: seq<Share>)
    ensures |shares| == shareCount
  {
    seq(shareCount, i requires 0 <= i < shareCount => ShareAt(f, threshold, shareCount, i + 1))
  }

  /** What keeps a secret and its parameters from being split, in the order of the checks. */
  function SplitError(secret: seq<Byte>, threshold: nat, shareCount: nat): Option<Error> {
    if threshold <= 1 then Some(InvalidThreshold)
    else if shareCount == 0 || shareCount > MAX_SHARE_COUNT then Some(InvalidShareCount)
    else if threshold > shareCount then Some(ThresholdGreaterThanCount)
    else if secret == [] then Some(EmptyInput)
    else if |Canonical(secret)| > ELEMENT_LEN || FromBytes(secret) >= P then Some(SecretTooLargeForField)
    else None
  }

  method Split(secret: seq<Byte>, threshold: nat, shareCount: nat, rng: Tape)
    returns (r: Result<seq<Share>, Error>)
    requires ElementsFit()
    modifies rng
    ensures SplitError(secret, threshold, shareCount).Some? ==>
              r == Err(SplitError(secret, threshold, shareCount).value)
    ensures SplitError(secret, threshold, shareCount).None? ==>
              && rng.pos == old(rng.pos) + threshold - 1
              && r == Ok(SharesFrom(SharingPolynomial(FromBytes(secret), threshold, rng.draws, old(rng.pos)),
                                    threshold, shareCount))
    ensures r.Ok? ==> |r.value| == shareCount && forall i :: 0 <= i < shareCount ==>
              && r.value[i].version == 1 && r.value[i].threshold == threshold && r.value[i].shareCount == shareCount
              && r.value[i].index == i + 1
  {
    if threshold <= 1 {
      return Err(InvalidThreshold);
    }
    if shareCount == 0 || shareCount > MAX_SHARE_COUNT {
      return Err(InvalidShareCount);
    }
    if threshold > shareCount {
      return Err(ThresholdGreaterThanCount);
    }
    var secretBytes := CanonicalSecretBytes(secret);
    if secretBytes.Err? {
      return Err(secretBytes.error);
    }
    CanonicalIsStripped(secret);
    var secretElement := ElementFromBytes(secretBytes.value);
    if secretElement.Err? {
      return Err(SecretTooLargeForField);
    }
    var coefficients := DrawCoefficients(secretElement.value, threshold, rng);
    var shares := EvaluateShares(coefficients, threshold, shareCount);
    return Ok(shares);
  }

  method DrawCoefficients(secret: Elem, threshold: nat, rng: Tape) returns (coefficients: Poly)
    requires threshold > 0
    modifies rng
    ensures coefficients == SharingPolynomial(secret, threshold, rng.draws, old(rng.pos))
    ensures rng.pos == old(rng.pos) + threshold - 1
  {
    coefficients := [secret];
    for i := 1 to threshold
      invariant rng.pos == old(rng.pos) + i - 1
      invariant coefficients == [secret] + Drawn(rng.draws, old(rng.pos), i - 1)
    {
      var c := rng.Rand();
      coefficients := coefficients + [c];
    }
  }

  method EvaluateShares(coefficients: Poly, threshold: U32, shareCount: U32) returns (shares: seq<Share>)
    requires shareCount <= MAX_SHARE_COUNT
    ensures shares == SharesFrom(coefficients, threshold, shareCount)
  {
    shares := [];
    for index := 1 to shareCount + 1
      invariant shares == SharesFrom(coefficients, threshold, shareCount)[..index - 1]
    {
      var value := Horner(coefficients, Fe(index));
      shares := shares + [Share(SHARE_VERSION, threshold, shareCount, index, value)];
    }
  }

  method Horner(f: Poly, x: Elem) returns (value: Elem)
    ensures value == Eval(f, x)
  {
    value := 0;
    var i := |f|;
    while i > 0
      invariant 0 <= i <= |f| && value == Eval(f[i..], x)
    {
      i := i - 1;
      assert f[i..][1..] == f[i + 1..];
      value := Add(Mul(value, x), f[i]);
    }
    assert f[0..] == f;
  }

  // ---- reconstruct -----------------------------------------------------------------------------------

  predicate SameMetadata(s: Share, t: Share) {
    s.version == t.version && s.threshold == t.threshold && s.shareCount == t.shareCount
  }

  predicate HasDuplicate(shares: seq<Share>) {
    exists i, j :: 0 <= i < j < |shares| && shares[i].index == shares[j].index
  }

  predicate IndexInRange(s: Share, shareCount: U32) {
    0 < s.index <= shareCount
  }

  /** What is wrong with a set of shares, in the order of the checks. */
  function SharesError(shares: seq<Share>): Option<Error> {
    if shares == [] then Some(EmptyInput)
    else if |shares| > MAX_SHARE_COUNT then Some(InvalidShareCount)
    else if exists i :: 0 <= i < |shares| && !SameMetadata(shares[i], shares[0]) then Some(IncompatibleMetadata)
    else if exists i :: 0 <= i < |shares| && !IndexInRange(shares[i], shares[0].shareCount) then Some(InvalidShareIndex)
    else if HasDuplicate(shares) then Some(DuplicateShareIndex)
    else if |shares| < shares[0].threshold then Some(InsufficientShares)
    else None
  }

  function Abscissae(shares: seq<Share>): (xs: seq<Elem>)
    ensures |xs| == |shares|
  {
    seq(|shares|, i requires 0 <= i < |shares| => Fe(shares[i].index))
  }

  function Ordinates(shares: seq<Share>): (ys: seq<Elem>)
    ensures |ys| == |shares|
  {
    seq(|shares|, i requires 0 <= i < |shares| => shares[i].value)
  }

  /** The secret the first threshold shares interpolate to at zero. */
  function SecretOf(used: seq<Share>): Elem {
    InterpolateAtZero(Abscissae(used), Ordinates(used), |used|)
  }

  method CheckShares(shares: seq<Share>) returns (r: Option<Error>)
    ensures r == SharesError(shares)
  {
    if shares == [] {
      return Some(EmptyInput);
    }
    if |shares| > MAX_SHARE_COUNT {
      return Some(InvalidShareCount);
    }
    var first := shares[0];
    for i := 0 to |shares|
      invariant forall k :: 0 <= k < i ==> SameMetadata(shares[k], first)
    {
      if !SameMetadata(shares[i], first) {
        return Some(IncompatibleMetadata);
      }
    }
    for i := 0 to |shares|
      invariant forall k :: 0 <= k < i ==> IndexInRange(shares[k], first.shareCount)
    {
      if shares[i].index == 0 || shares[i].index > first.shareCount {
        return Some(InvalidShareIndex);
      }
    }
    for i := 1 to |shares|
      invariant forall k, l :: 0 <= k < i - 1 && k < l < |shares| ==> shares[k].index != shares[l].index
    {
      for j := i to |shares|
        invariant forall l :: i <= l < j ==> shares[i - 1].index != shares[l].index
      {
        if shares[j].index == shares[i - 1].index {
          return Some(DuplicateShareIndex);
        }
      }
    }
    if |shares| < first.threshold {
      return Some(InsufficientShares);
    }
    return None;
  }

  /** The Lagrange weight of share i; it fails only if two abscissae coincide in the field. */
  method LagrangeWeight(used: seq<Share>, i: nat) returns (r: Result<Elem, Error>)
    requires i < |used|
    ensures r == if forall j :: 0 <= j < |used| && j != i ==> Abscissae(used)[j] != Abscissae(used)[i]
                 then Ok(Weight(Abscissae(used), i, |used|)) else Err(ReconstructionFailure)
  {
    ghost var xs := Abscissae(used);
    var xi := Fe(used[i].index);
    var lagrange := Fe(1);
    for j := 0 to |used|
      invariant lagrange == Weight(xs, i, j)
      invariant forall k :: 0 <= k < j && k != i ==> xs[k] != xs[i]
    {
      if i != j {
        var xj := Fe(used[j].index);
        assert xj == xs[j] && xi == xs[i];
        SubZero(xj, xi);
        if Sub(xj, xi) == 0 {
          return Err(ReconstructionFailure);
        }
        lagrange := Mul(lagrange, Mul(xj, Inv(Sub(xj, xi))));
      }
    }
    return Ok(lagrange);
  }

  function ReconstructOutcome(shares: seq<Share>): Result<seq<Byte>, Error> {
    if SharesError(shares).Some? then Err(SharesError(shares).value)
    else
      var used := shares[..shares[0].threshold];
      if exists i, j :: 0 <= i < j < |used| && Abscissae(used)[i] == Abscissae(used)[j]
      then Err(ReconstructionFailure)
      else Ok(Canonical(ToBytes(SecretOf(used), ELEMENT_LEN)))
  }

  method Reconstruct(shares: seq<Share>) returns (r: Result<seq<Byte>, Error>)
    ensures r == ReconstructOutcome(shares)
  {
    var checked := CheckShares(shares);
    if checked.Some? {
      return Err(checked.value);
    }
    var used := shares[..shares[0].threshold];
    ghost var xs := Abscissae(used);
    var secret: Elem := 0;
    for i := 0 to |used|
      invariant secret == InterpolateAtZero(xs, Ordinates(used), i)
      invariant forall k, l :: 0 <= k < i && 0 <= l < |used| && k != l ==> xs[k] != xs[l]
    {
      var weight := LagrangeWeight(used, i);
      if weight.Err? {
        return Err(weight.error);
      }
      secret := Add(secret, Mul(used[i].value, weight.value));
    }
    var bytes := ToBytes(secret, ELEMENT_LEN);
    var k := FirstNonZero(bytes);
    if k == |bytes| {
      return Ok([0]);
    }
    return Ok(bytes[k..]);
  }

  // ---- correctness and secrecy -----------------------------------------------------------------------

  /** Shares taken from one split, in any order, with distinct indices. */
  ghost predicate DrawnFrom(shares: seq<Share>, all: seq<Share>) {
    !HasDuplicate(shares) && forall i :: 0 <= i < |shares| ==> shares[i] in all
  }

  lemma IndicesStayDistinct(shares: seq<Share>)
    requires Wide() && !HasDuplicate(shares)
    ensures Distinct(Abscissae(shares))
  {
    hide Fe;
    forall i | 0 <= i < |shares|
      ensures Abscissae(shares)[i] == shares[i].index
    {
      FeOfSmall(shares[i].index);
    }
  }

  /** Any threshold shares of a split interpolate to the split secret. */
  lemma SecretFromShares(f: Poly, threshold: U32, shareCount: U32, used: seq<Share>)
    requires Wide() && |f| == threshold == |used| > 0
    requires DrawnFrom(used, SharesFrom(f, threshold, shareCount))
    ensures SecretOf(used) == f[0]
  {
    hide Eval, Fe;
    var xs, ys := Abscissae(used), Ordinates(used);
    IndicesStayDistinct(used);
    forall i | 0 <= i < |used|
      ensures Eval(f, xs[i]) == ys[i]
    {
      assert used[i] in SharesFrom(f, threshold, shareCount);
    }
    UniqueInterpolation(xs, ys, f);
    InterpolantAtZero(xs, ys, |xs|);
    ValueAtZero(f);
  }

  /** Shares of one split pass every check. */
  lemma SplitSharesPass(f: Poly, threshold: U32, shareCount: U32, shares: seq<Share>)
    requires 0 < threshold <= |shares| && shareCount <= MAX_SHARE_COUNT
    requires DrawnFrom(shares, SharesFrom(f, threshold, shareCount))
    ensures SharesError(shares).None? && shares[0].threshold == threshold
  {
    hide Eval, Fe;
    var all := SharesFrom(f, threshold, shareCount);
    forall i | 0 <= i < |shares|
      ensures shares[i].version == SHARE_VERSION && shares[i].threshold == threshold && shares[i].shareCount == shareCount
      ensures 0 < shares[i].index <= shareCount
    {
      assert shares[i] in all;
      var k :| 0 <= k < |all| && all[k] == shares[i];
    }
    NoMoreThanAll(shares, shareCount);
  }

  lemma PrefixDrawn(shares: seq<Share>, all: seq<Share>, n: nat)
    requires DrawnFrom(shares, all) && n <= |shares|
    ensures DrawnFrom(shares[..n], all)
  {
  }

  lemma OutcomeOfPassing(shares: seq<Share>)
    requires SharesError(shares).None? && Distinct(Abscissae(shares[..shares[0].threshold]))
    ensures ReconstructOutcome(shares) == Ok(Canonical(ToBytes(SecretOf(shares[..shares[0].threshold]), ELEMENT_LEN)))
  {
    hide Canonical, ToBytes, SecretOf, Abscissae;
  }

  lemma SharesDiffer(shares: seq<Share>, all: seq<Share>)
    requires DrawnFrom(shares, all)
    ensures !HasDuplicate(shares)
  {
  }

  lemma SplitLimits(secret: seq<Byte>, threshold: nat, shareCount: nat)
    requires SplitError(secret, threshold, shareCount).None?
    ensures 1 < threshold <= shareCount <= MAX_SHARE_COUNT < 0x1_0000_0000 && |Canonical(secret)| <= ELEMENT_LEN && FromBytes(secret) < P
  {
    hide Canonical, FromBytes;
  }

  /** Reconstruction undoes splitting: any threshold or more shares of a split, in any order,
      give back the secret without its leading zeros, whatever the tape. */
  lemma ReconstructUndoesSplit(secret: seq<Byte>, threshold: nat, shareCount: nat,
                               draws: nat -> Elem, at: nat, shares: seq<Share>)
    requires Wide() && ElementsFit()
    requires SplitError(secret, threshold, shareCount).None?
    requires threshold <= |shares|
    requires var f := SharingPolynomial(FromBytes(secret), threshold, draws, at);
             DrawnFrom(shares, SharesFrom(f, threshold, shareCount))
    ensures ReconstructOutcome(shares) == Ok(Canonical(secret))
  {
    hide *;
    SplitLimits(secret, threshold, shareCount);
    var f := SharingPolynomial(FromBytes(secret), threshold, draws, at);
    var used := shares[..threshold];
    SplitSharesPass(f, threshold, shareCount, shares);
    PrefixDrawn(shares, SharesFrom(f, threshold, shareCount), threshold);
    SharesDiffer(used, SharesFrom(f, threshold, shareCount));
    IndicesStayDistinct(used);
    SecretFromShares(f, threshold, shareCount, used);
    OutcomeOfPassing(shares);
    CanonicalIsStripped(secret);
    CanonicalRoundTrip(secret, ELEMENT_LEN);
  }

  /** Shares with distinct indices cannot outnumber the split. */
  lemma NoMoreThanAll(shares: seq<Share>, n: nat)
    requires !HasDuplicate(shares)
    requires forall i :: 0 <= i < |shares| ==> 1 <= shares[i].index <= n
    ensures |shares| <= n
  {
    var ids := set i | 0 <= i < |shares| :: shares[i].index;
    CountIds(shares, ids);
    BoundIds(ids, n);
  }

  lemma {:induction false} CountIds(shares: seq<Share>, ids: set<U32>)
    requires !HasDuplicate(shares) && ids == set i | 0 <= i < |shares| :: shares[i].index
    ensures |ids| == |shares|
  {
    if shares != [] {
      var k := |shares| - 1;
      CountIds(shares[..k], ids - {shares[k].index});
    }
  }

  lemma {:induction false} BoundIds(ids: set<U32>, n: nat)
    requires forall x :: x in ids ==> 1 <= x <= n
    ensures |ids| <= n
  {
    if n == 0 {
      assert ids == {};
    } else if n in ids {
      BoundIds(ids - {n}, n - 1);
    } else {
      BoundIds(ids, n - 1);
    }
  }

  /** The random coefficients c make the sharing polynomial of the secret take these values at
      these share indices. */
  ghost predicate Explains(secret: Elem, c: seq<Elem>, indices: seq<U32>, values: seq<Elem>)
    requires |indices| == |values|
  {
    |c| == |indices| && forall i :: 0 <= i < |indices| ==> Eval([secret] + c, Fe(indices[i])) == values[i]
  }

  function ExplainingCoefficients(secret: Elem, indices: seq<U32>, values: seq<Elem>): (c: seq<Elem>)
    requires |indices| == |values|
    ensures |c| == |indices|
  {
    Interpolant(KnownAbscissae(indices), [secret] + values, |indices| + 1)[1..]
  }

  /** Zero, where the polynomial takes the secret, and the abscissae of the known shares. */
  function KnownAbscissae(indices: seq<U32>): (xs: seq<Elem>)
    ensures |xs| == |indices| + 1
  {
    [0] + seq(|indices|, i requires 0 <= i < |indices| => Fe(indices[i]))
  }

  lemma KnownAbscissaeDistinct(indices: seq<U32>)
    requires Wide() && forall i :: 0 <= i < |indices| ==> indices[i] != 0
    requires forall i, j :: 0 <= i < j < |indices| ==> indices[i] != indices[j]
    ensures Distinct(KnownAbscissae(indices))
  {
    hide Fe;
    var xs := KnownAbscissae(indices);
    forall i, j | 0 <= i < j < |xs|
      ensures xs[i] != xs[j]
    {
      FeOfSmall(indices[j - 1]);
      if i > 0 {
        FeOfSmall(indices[i - 1]);
      }
    }
  }

  /** Fewer than threshold shares say nothing: for any threshold - 1 distinct indices, any values
      and any secret there is exactly one choice of the random coefficients whose split gives
      those values at those indices. */
  lemma FewSharesFitEverySecret(secret: Elem, c: seq<Elem>, indices: seq<U32>, values: seq<Elem>)
    requires Wide() && |indices| == |values|
    requires forall i :: 0 <= i < |indices| ==> indices[i] != 0
    requires forall i, j :: 0 <= i < j < |indices| ==> indices[i] != indices[j]
    ensures Explains(secret, c, indices, values) <==> c == ExplainingCoefficients(secret, indices, values)
  {
    hide Eval, Fe, Interpolant;
    var xs, ys, f := KnownAbscissae(indices), [secret] + values, [secret] + c;
    var g := Interpolant(xs, ys, |xs|);
    KnownAbscissaeDistinct(indices);
    UniqueInterpolation(xs, ys, g);
    ValueAtZero(g);
    assert g == [secret] + g[1..] by {
      assert Eval(g, xs[0]) == ys[0];
    }
    if |c| == |indices| {
      UniqueInterpolation(xs, ys, f);
      ValueAtZero(f);
      assert f[1..] == c;
      ExplainsIsAgreement(secret, c, indices, values);
    }
  }

  lemma ExplainsIsAgreement(secret: Elem, c: seq<Elem>, indices: seq<U32>, values: seq<Elem>)
    requires |c| == |indices| == |values|
    ensures var xs, ys, f := KnownAbscissae(indices), [secret] + values, [secret] + c;
            Explains(secret, c, indices, values) <==> forall i :: 0 <= i < |xs| ==> Eval(f, xs[i]) == ys[i]
  {
    hide Eval, Fe;
    var xs, ys, f := KnownAbscissae(indices), [secret] + values, [secret] + c;
    ValueAtZero(f);
    forall i | 0 <= i < |indices|
      ensures xs[i + 1] == Fe(indices[i]) && ys[i + 1] == values[i]
    {
    }
    if Explains(secret, c, indices, values) {
      forall i | 0 <= i < |xs|
        ensures Eval(f, xs[i]) == ys[i]
      {
        if i > 0 {
          assert Eval(f, Fe(indices[i - 1])) == values[i - 1];
        }
      }
    }
    if forall i :: 0 <= i < |xs| ==> Eval(f, xs[i]) == ys[i] {
      forall i | 0 <= i < |indices|
        ensures Eval(f, Fe(indices[i])) == values[i]
      {
        assert Eval(f, xs[i + 1]) == ys[i + 1];
      }
    }
  }

  /** The same of an actual split: what a tape must supply for the shares at threshold - 1 indices to
      have given values is determined by the secret and those values, and something fits. */
  lemma FewSharesOfSplit(secret: Elem, threshold: U32, shareCount: U32, draws: nat -> Elem, at: nat, indices: seq<U32>, values: seq<Elem>)
    requires Wide() && |indices| == |values| == threshold - 1
    requires forall i :: 0 <= i < |indices| ==> 0 < indices[i] <= shareCount
    requires forall i, j :: 0 <= i < j < |indices| ==> indices[i] != indices[j]
    ensures var shares := SharesFrom(SharingPolynomial(secret, threshold, draws, at), threshold, shareCount);
            (forall i :: 0 <= i < |indices| ==> shares[indices[i] - 1].value == values[i]) <==>
            Drawn(draws, at, threshold - 1) == ExplainingCoefficients(secret, indices, values)
  {
    hide Eval, Fe, Interpolant;
    var c := Drawn(draws, at, threshold - 1);
    var shares := SharesFrom(SharingPolynomial(secret, threshold, draws, at), threshold, shareCount);
    FewSharesFitEverySecret(secret, c, indices, values);
    forall i | 0 <= i < |indices|
      ensures shares[indices[i] - 1].value == Eval([secret] + c, Fe(indices[i]))
    {
    }
    assert Explains(secret, c, indices, values) <==> forall i :: 0 <= i < |indices| ==> shares[indices[i] - 1].value == values[i];
  }

  /** So the shares at fewer than threshold indices never tell two secrets apart: for every tape there
      is one on which another secret's split gives them too. */
  lemma SplitHidesSecret(secret: Elem, other: Elem, threshold: U32, shareCount: U32, draws: nat -> Elem, at: nat, indices: seq<U32>)
    returns (draws': nat -> Elem)
    requires Wide() && |indices| == threshold - 1
    requires forall i :: 0 <= i < |indices| ==> 0 < indices[i] <= shareCount
    requires forall i, j :: 0 <= i < j < |indices| ==> indices[i] != indices[j]
    ensures var (shares, shares') := (SharesFrom(SharingPolynomial(secret, threshold, draws, at), threshold, shareCount),
                                      SharesFrom(SharingPolynomial(other, threshold, draws', at), threshold, shareCount));
            forall i :: 0 <= i < |indices| ==> shares'[indices[i] - 1] == shares[indices[i] - 1]
  {
    hide Eval, Fe, Interpolant, ExplainingCoefficients, SharingPolynomial;
    var shares := SharesFrom(SharingPolynomial(secret, threshold, draws, at), threshold, shareCount);
    var values := seq(|indices|, i requires 0 <= i < |indices| && 0 < indices[i] <= shareCount == |shares| => shares[indices[i] - 1].value);
    var c := ExplainingCoefficients(other, indices, values);
    draws' := (t: nat) => if at <= t < at + |c| then c[t - at] else 0;
    assert Drawn(draws', at, threshold - 1) == c;
    FewSharesOfSplit(other, threshold, shareCount, draws', at, indices, values);
  }

  /** What can be split: a threshold of at least two and at most the share count, at most 1000 shares,
      and a secret of at least one byte whose integer is below the modulus. */
  lemma SplitAccepts(secret: seq<Byte>, threshold: nat, shareCount: nat)
    requires ElementsFit()
    ensures SplitError(secret, threshold, shareCount).None? <==>
            2 <= threshold <= shareCount <= 1000 && |secret| > 0 && FromBytes(secret) < P
    ensures 2 <= threshold <= shareCount <= 1000 && |secret| > 0 && FromBytes(secret) >= P ==>
              SplitError(secret, threshold, shareCount) == Some(SecretTooLargeForField)
    ensures 2 <= threshold <= shareCount <= 1000 ==> SplitError([], threshold, shareCount) == Some(EmptyInput)
    ensures threshold <= 1 ==> SplitError(secret, threshold, shareCount) == Some(InvalidThreshold)
    ensures 2 <= threshold && (shareCount == 0 || shareCount > 1000) ==> SplitError(secret, threshold, shareCount) == Some(InvalidShareCount)
    ensures 0 < shareCount < threshold && shareCount <= 1000 ==> SplitError(secret, threshold, shareCount) == Some(ThresholdGreaterThanCount)
  {
    hide FromBytes, Canonical;
    CanonicalFits(secret);
  }

  /** Below 256^n a stripped byte string has at most n bytes. */
  lemma CanonicalFits(bs: seq<Byte>)
    requires ElementsFit()
    ensures FromBytes(bs) < P ==> |Canonical(bs)| <= ELEMENT_LEN
  {
    hide Strip, FromBytes, Power256, Zeros;
    var n := StripDecomposition(bs);
    var c := Strip(bs);
    StripZeros(n, c);
    if c != [] && FromBytes(bs) < P {
      LeadingByte(c);
      if |c| > ELEMENT_LEN {
        PowersGrow(ELEMENT_LEN, |c| - 1);
      }
    }
  }

  /** What comes back: whenever enough shares pass the checks, the result is the value at zero of the
      one polynomial of degree below the threshold through the first threshold of them. */
  lemma ReconstructInterpolates(shares: seq<Share>, f: Poly)
    requires Wide() && ElementsFit() && SharesError(shares).None? && |f| == shares[0].threshold > 0
    requires forall i :: 0 <= i < |f| ==> Eval(f, Fe(shares[i].index)) == shares[i].value
    ensures ReconstructOutcome(shares) == Ok(Canonical(ToBytes(f[0], ELEMENT_LEN)))
  {
    hide Eval, Fe, InterpolateAtZero, Canonical, ToBytes;
    var used := shares[..|f|];
    var xs, ys := Abscissae(used), Ordinates(used);
    IndicesStayDistinct(used);
    forall i | 0 <= i < |used|
      ensures Eval(f, xs[i]) == ys[i]
    {
      assert used[i] == shares[i];
    }
    UniqueInterpolation(xs, ys, f);
    InterpolantAtZero(xs, ys, |xs|);
    ValueAtZero(f);
    OutcomeOfPassing(shares);
  }

  /** Which shares pass: at least one and at most 1000 of them, of one version, threshold and count, with
      distinct indices from one up to that count, and at least as many as the threshold. */
  lemma SharesAccepted(shares: seq<Share>)
    ensures SharesError(shares).None? <==>
              && 1 <= |shares| <= 1000 && shares[0].threshold <= |shares|
              && (forall i :: 0 <= i < |shares| ==>
                    && 1 <= shares[i].index <= shares[0].shareCount && shares[i].version == shares[0].version
                    && shares[i].threshold == shares[0].threshold && shares[i].shareCount == shares[0].shareCount)
              && (forall i, j :: 0 <= i < |shares| && 0 <= j < |shares| && shares[i].index == shares[j].index ==> i == j)
  {
    assert HasDuplicate(shares) <==>
      exists i, j :: 0 <= i < |shares| && 0 <= j < |shares| && shares[i].index == shares[j].index && i != j;
  }

  /** What a change to shares that pass is refused for: too few, the same share twice, a share of
      another split, or an index outside the split. */
  lemma SharesTampered(shares: seq<Share>, k: nat, s: Share)
    requires SharesError(shares).None? && k < |shares|
    ensures 0 < k < shares[0].threshold ==> SharesError(shares[..k]) == Some(InsufficientShares)
    ensures |shares| < 1000 ==> SharesError(shares + [shares[k]]) == Some(DuplicateShareIndex)
    ensures k > 0 && !SameMetadata(s, shares[0]) ==> SharesError(shares[k := s]) == Some(IncompatibleMetadata)
    ensures k > 0 && SameMetadata(s, shares[0]) && (s.index == 0 || s.index > s.shareCount) ==>
              SharesError(shares[k := s]) == Some(InvalidShareIndex)
    ensures SharesError([]) == Some(EmptyInput)
  {
    if |shares| < 1000 {
      var more := shares + [shares[k]];
      assert more[0] == shares[0] && more[k].index == more[|shares|].index;
      assert forall i :: 0 <= i < |shares| ==> more[i] == shares[i];
    }
    if k > 0 {
      assert shares[k := s][k] == s && shares[k := s][0] == shares[0] && (0 < |shares[..k]| ==> shares[..k][0] == shares[0]);
      assert forall i :: 0 <= i < k ==> shares[..k][i] == shares[i];
    }
  }
}
