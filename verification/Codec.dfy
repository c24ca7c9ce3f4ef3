/** Self-delimiting byte formats: concatenations and fixed-count lists of prefix-free parts. */
module Codec {
  import opened Wrappers
  import opened PrimeField
  import opened BigEndian

  /** Field elements are written with 32 bytes. */
  const ELEMENT_LEN: nat := 32

  /** The modulus has a 32-byte form, so every element does. */
  ghost predicate ElementsFit() {
    P < Power256(ELEMENT_LEN)
  }

  const TWO_32: nat := 0x1_0000_0000

  type U32 = x: int | 0 <= x < 0x1_0000_0000

  /** Whether a byte string starts with another. */
  predicate Starts(a: seq<Byte>, b: seq<Byte>) {
    a <= b
  }

  lemma StartsSplit(a: seq<Byte>, c: seq<Byte>, b: seq<Byte>)
    ensures Starts(a + c, b) <==> Starts(a, b) && Starts(c, b[|a|..])
  {
    if a + c <= b {
      assert a == (a + c)[..|a|] == b[..|a|];
      assert c == (a + c)[|a|..] == b[|a|..][..|c|];
    }
  }

  lemma StartsShorter(a: seq<Byte>, b: seq<Byte>)
    requires Starts(a, b)
    ensures |a| <= |b|
  {
  }

  lemma StartsWhole(a: seq<Byte>)
    ensures Starts(a, a)
  {
  }

  /** A 32-bit integer; longer counts are cut as a cast cuts them. */
  function PrintU32(n: nat): (bs: seq<Byte>)
    ensures |bs| == 4
  {
    ToBytes(n % TWO_32, 4)
  }

  lemma ReadU32(n: nat, b: seq<Byte>)
    requires n < TWO_32 && Starts(PrintU32(n), b)
    ensures |b| >= 4 && FromBytes(b[..4]) == n
  {
    WidthOf32();
    BytesOfInteger(n, 4);
    assert b[..4] == PrintU32(n);
  }

  lemma WidthOf32()
    ensures Power256(4) == TWO_32
  {
    assert Power256(1) == 256 && Power256(2) == 0x1_0000 && Power256(3) == 0x100_0000;
  }

  function PrintAll<T>(show: T -> seq<Byte>, xs: seq<T>): seq<Byte> {
    if xs == [] then [] else PrintAll(show, xs[..|xs| - 1]) + show(xs[|xs| - 1])
  }

  /** No print of an admissible value starts with the print of another. */
  ghost predicate PrefixFree<T(!new)>(show: T -> seq<Byte>, ok: T -> bool) {
    forall x: T, y: T, b: seq<Byte> :: ok(x) && ok(y) && Starts(show(x), b) && Starts(show(y), b) ==> x == y
  }

  /** Lists of one length over a prefix-free format are prefix-free. */
  lemma {:induction false} ListPrefixFree<T(!new)>(show: T -> seq<Byte>, ok: T -> bool, xs: seq<T>, ys: seq<T>, b: seq<Byte>)
    requires PrefixFree(show, ok) && |xs| == |ys| && (forall i :: 0 <= i < |xs| ==> ok(xs[i]) && ok(ys[i]))
    requires Starts(PrintAll(show, xs), b) && Starts(PrintAll(show, ys), b)
    ensures xs == ys
  {
    hide Starts;
    if xs != [] {
      var n := |xs| - 1;
      StartsSplit(PrintAll(show, xs[..n]), show(xs[n]), b);
      StartsSplit(PrintAll(show, ys[..n]), show(ys[n]), b);
      ListPrefixFree(show, ok, xs[..n], ys[..n], b);
      StartsShorter(PrintAll(show, xs[..n]), b);
      var rest := b[|PrintAll(show, xs[..n])|..];
      assert Starts(show(xs[n]), rest) && Starts(show(ys[n]), rest);
      assert ok(xs[n]) && ok(ys[n]);
      assert xs == xs[..n] + [xs[n]] && ys == ys[..n] + [ys[n]];
    }
  }

  /** Prints of one width that differ for different values are prefix-free. */
  lemma FixedWidthPrefixFree<T(!new)>(show: T -> seq<Byte>, ok: T -> bool, width: nat)
    requires forall x: T :: |show(x)| == width
    requires forall x: T, y: T :: ok(x) && ok(y) && show(x) == show(y) ==> x == y
    ensures PrefixFree(show, ok)
  {
    forall x: T, y: T, b: seq<Byte> | ok(x) && ok(y) && Starts(show(x), b) && Starts(show(y), b)
      ensures x == y
    {
      assert show(x) == b[..width] == show(y);
    }
  }

  lemma {:induction false} PartStarts<T>(show: T -> seq<Byte>, xs: seq<T>, i: nat)
    requires i < |xs|
    ensures Starts(PrintAll(show, xs[..i]) + show(xs[i]), PrintAll(show, xs))
    decreases |xs|
  {
    var n := |xs| - 1;
    if i < n {
      PartStarts(show, xs[..n], i);
      assert xs[..n][..i] == xs[..i];
    }
  }

  lemma SumStarts(a: seq<Byte>, b: seq<Byte>)
    ensures Starts(a, a + b) && (a + b)[|a|..] == b
  {
  }

  lemma SameCount(m: nat, a: seq<Byte>, n: nat, b: seq<Byte>)
    requires m < TWO_32 && n < TWO_32 && PrintU32(m) + a == PrintU32(n) + b
    ensures m == n && a == b
  {
    hide Starts, PrintU32, FromBytes;
    SumStarts(PrintU32(m), a);
    SumStarts(PrintU32(n), b);
    ReadU32(m, PrintU32(m) + a);
    ReadU32(n, PrintU32(m) + a);
  }

  lemma NothingAfter(a: seq<Byte>)
    ensures a + [] == a
  {
  }

  predicate IdFits(id: nat) {
    id < TWO_32
  }

  function PrintElement(x: Elem): (bs: seq<Byte>)
    ensures |bs| == ELEMENT_LEN
  {
    ToBytes(x, ELEMENT_LEN)
  }

  method AppendElements(out: seq<Byte>, xs: seq<Elem>) returns (out': seq<Byte>)
    ensures out' == out + PrintAll(PrintElement, xs)
  {
    hide PrintElement;
    out' := out;
    for i := 0 to |xs|
      invariant out' == out + PrintAll(PrintElement, xs[..i])
    {
      out' := out' + PrintElement(xs[i]);
      assert xs[..i + 1][..i] == xs[..i];
    }
    assert xs[..|xs|] == xs;
  }

  // ---- reading one value, then the next ------------------------------------------------------------

  /** The outcome of reading one value off the front of a byte string: the value and what is left,
      or nothing. No admissible value other than the one read starts the byte string. */
  ghost predicate Reads<T(!new)>(show: T -> seq<Byte>, ok: T -> bool, r: Option<T>, before: seq<Byte>, after: seq<Byte>) {
    && (r.Some? ==> ok(r.value) && before == show(r.value) + after)
    && forall x: T :: ok(x) && Starts(show(x), before) ==> r == Some(x)
  }

  /** Whatever admissible value stands here, followed by more, is the one that was read. */
  lemma Follows<T(!new)>(show: T -> seq<Byte>, ok: T -> bool, r: Option<T>, x: T, more: seq<Byte>, before: seq<Byte>, after: seq<Byte>)
    requires Reads(show, ok, r, before, after) && ok(x) && Starts(show(x) + more, before)
    ensures r == Some(x) && Starts(more, after)
  {
    StartsSplit(show(x), more, before);
    SumStarts(show(x), after);
  }

  predicate AllOk<T>(ok: T -> bool, xs: seq<T>) {
    forall i :: 0 <= i < |xs| ==> ok(xs[i])
  }

  /** The outcome of reading n values. */
  ghost predicate ReadsMany<T(!new)>(show: T -> seq<Byte>, ok: T -> bool, n: nat, r: Option<seq<T>>, before: seq<Byte>, after: seq<Byte>) {
    && (r.Some? ==> |r.value| == n && AllOk(ok, r.value) && before == PrintAll(show, r.value) + after)
    && forall xs: seq<T> :: |xs| == n && AllOk(ok, xs) && Starts(PrintAll(show, xs), before) ==> r == Some(xs)
  }

  lemma FollowsMany<T(!new)>(show: T -> seq<Byte>, ok: T -> bool, n: nat, r: Option<seq<T>>, xs: seq<T>, more: seq<Byte>, before: seq<Byte>, after: seq<Byte>)
    requires ReadsMany(show, ok, n, r, before, after) && |xs| == n && AllOk(ok, xs) && Starts(PrintAll(show, xs) + more, before)
    ensures r == Some(xs) && Starts(more, after)
  {
    hide PrintAll, AllOk;
    StartsSplit(PrintAll(show, xs), more, before);
    SumStarts(PrintAll(show, xs), after);
  }

  /** Part of n values has been read. */
  ghost predicate ReadSoFar<T(!new)>(show: T -> seq<Byte>, ok: T -> bool, n: nat, got: seq<T>, start: seq<Byte>, rest: seq<Byte>) {
    && |got| <= n && AllOk(ok, got) && start == PrintAll(show, got) + rest
    && forall xs: seq<T> :: |xs| == n && AllOk(ok, xs) && Starts(PrintAll(show, xs), start) ==> xs[..|got|] == got
  }

  lemma NothingRead<T(!new)>(show: T -> seq<Byte>, ok: T -> bool, n: nat, start: seq<Byte>)
    ensures ReadSoFar(show, ok, n, [], start, start)
  {
  }

  lemma ReadOne<T(!new)>(show: T -> seq<Byte>, ok: T -> bool, n: nat, got: seq<T>, r: Option<T>, start: seq<Byte>, rest: seq<Byte>, rest': seq<Byte>)
    requires ReadSoFar(show, ok, n, got, start, rest) && |got| < n && Reads(show, ok, r, rest, rest')
    ensures r.Some? ==> ReadSoFar(show, ok, n, got + [r.value], start, rest')
    ensures r.None? ==> ReadsMany(show, ok, n, None, start, rest')
  {
    hide Starts;
    var k := |got|;
    forall xs: seq<T> | |xs| == n && AllOk(ok, xs) && Starts(PrintAll(show, xs), start)
      ensures r == Some(xs[k]) && xs[..k] == got
    {
      PartStarts(show, xs, k);
      hide PrintAll;
      StartsTrans(PrintAll(show, xs[..k]) + show(xs[k]), PrintAll(show, xs), start);
      StartsSplit(PrintAll(show, got), show(xs[k]), start);
      SumStarts(PrintAll(show, got), rest);
    }
    if r.Some? {
      var more := got + [r.value];
      assert more[..k] == got;
      assert PrintAll(show, more) == PrintAll(show, got) + show(r.value);
      forall xs: seq<T> | |xs| == n && AllOk(ok, xs) && Starts(PrintAll(show, xs), start)
        ensures xs[..k + 1] == more
      {
        assert xs[..k + 1] == xs[..k] + [xs[k]];
      }
    }
  }

  lemma StartsTrans(a: seq<Byte>, b: seq<Byte>, c: seq<Byte>)
    requires Starts(a, b) && Starts(b, c)
    ensures Starts(a, c)
  {
  }

  lemma ReadAll<T(!new)>(show: T -> seq<Byte>, ok: T -> bool, n: nat, got: seq<T>, start: seq<Byte>, rest: seq<Byte>)
    requires ReadSoFar(show, ok, n, got, start, rest) && |got| == n
    ensures ReadsMany(show, ok, n, Some(got), start, rest)
  {
    hide Starts, PrintAll;
    forall xs: seq<T> | |xs| == n && AllOk(ok, xs) && Starts(PrintAll(show, xs), start)
      ensures xs == got
    {
      assert xs[..n] == xs;
    }
  }

  /** A list after its length. */
  function PrintCounted<T>(show: T -> seq<Byte>, xs: seq<T>): seq<Byte> {
    PrintU32(|xs|) + PrintAll(show, xs)
  }

  predicate CountedFits<T>(ok: T -> bool, xs: seq<T>) {
    |xs| < TWO_32 && AllOk(ok, xs)
  }

  /** The outcome of reading a list after its length. */
  ghost predicate ReadsCounted<T(!new)>(show: T -> seq<Byte>, ok: T -> bool, r: Option<seq<T>>, before: seq<Byte>, after: seq<Byte>) {
    && (r.Some? ==> CountedFits(ok, r.value) && before == PrintCounted(show, r.value) + after)
    && forall xs: seq<T> :: CountedFits(ok, xs) && Starts(PrintCounted(show, xs), before) ==> r == Some(xs)
  }

  lemma CountedRead<T(!new)>(show: T -> seq<Byte>, ok: T -> bool, count: Option<U32>, r: Option<seq<T>>, before: seq<Byte>, middle: seq<Byte>, after: seq<Byte>)
    requires Reads<nat>(PrintU32, IdFits, count, before, middle)
    requires count.Some? ==> ReadsMany(show, ok, count.value, r, middle, after)
    ensures ReadsCounted(show, ok, if count.Some? then r else None, before, after)
  {
    hide Starts, PrintAll, PrintU32, AllOk;
    forall xs: seq<T> | CountedFits(ok, xs) && Starts(PrintCounted(show, xs), before)
      ensures count == Some(|xs|) && r == Some(xs)
    {
      Follows<nat>(PrintU32, IdFits, count, |xs|, PrintAll(show, xs), before, middle);
    }
  }

  lemma FollowsCounted<T(!new)>(show: T -> seq<Byte>, ok: T -> bool, r: Option<seq<T>>, xs: seq<T>, more: seq<Byte>, before: seq<Byte>, after: seq<Byte>)
    requires ReadsCounted(show, ok, r, before, after) && CountedFits(ok, xs) && Starts(PrintCounted(show, xs) + more, before)
    ensures r == Some(xs) && Starts(more, after)
  {
    hide PrintCounted, CountedFits;
    StartsSplit(PrintCounted(show, xs), more, before);
    SumStarts(PrintCounted(show, xs), after);
  }

  lemma ManyRead<T(!new)>(show: T -> seq<Byte>, ok: T -> bool, n: nat, r: Option<seq<T>>, before: seq<Byte>, after: seq<Byte>)
    requires ReadsMany(show, ok, n, r, before, after) && r.Some?
    ensures |r.value| == n && AllOk(ok, r.value) && before == PrintAll(show, r.value) + after
  {
  }

  lemma CountedDone<T(!new)>(show: T -> seq<Byte>, ok: T -> bool, r: Option<seq<T>>, before: seq<Byte>, after: seq<Byte>)
    requires ReadsCounted(show, ok, r, before, after) && r.Some?
    ensures CountedFits(ok, r.value) && before == PrintCounted(show, r.value) + after
  {
  }

  lemma OneByte(b: Byte, s: seq<Byte>)
    requires Starts([b], s)
    ensures |s| > 0 && s[0] == b
  {
  }

  lemma IntegerReads(r: Option<U32>, before: seq<Byte>, after: seq<Byte>)
    requires r.Some? ==> before == PrintU32(r.value) + after
    requires r.None? ==> forall n: nat :: !Starts(PrintU32(n), before)
    ensures Reads<nat>(PrintU32, IdFits, r, before, after)
  {
    hide PrintU32, Starts, FromBytes;
    forall n: nat | IdFits(n) && Starts(PrintU32(n), before)
      ensures r == Some(n)
    {
      SumStarts(PrintU32(r.value), after);
      ReadU32(n, before);
      ReadU32(r.value, before);
    }
  }

  predicate AnyElement(x: Elem) {
    true
  }

  lemma AllElements(xs: seq<Elem>)
    ensures AllOk(AnyElement, xs)
  {
  }

  lemma ElementReads(r: Option<Elem>, before: seq<Byte>, after: seq<Byte>)
    requires ElementsFit()
    requires r.Some? ==> before == PrintElement(r.value) + after
    requires r.None? ==> |before| < ELEMENT_LEN || FromBytes(before[..ELEMENT_LEN]) >= P
    ensures Reads(PrintElement, AnyElement, r, before, after)
  {
    hide ToBytes, FromBytes;
    forall x: Elem | Starts(PrintElement(x), before)
      ensures r == Some(x)
    {
      BytesOfInteger(x, ELEMENT_LEN);
      assert before[..ELEMENT_LEN] == PrintElement(x);
      if r.Some? {
        BytesOfInteger(r.value, ELEMENT_LEN);
        assert before[..ELEMENT_LEN] == PrintElement(r.value);
      }
    }
  }

  /** A cursor over a byte string. */
  class Cursor {
    const bytes: seq<Byte>
    var pos: nat

    ghost predicate Valid()
      reads this
    {
      pos <= |bytes|
    }

    /** What is still to be read. */
    ghost function Rest(): seq<Byte>
      reads this
      requires Valid()
    {
      bytes[pos..]
    }

    constructor (bytes: seq<Byte>)
      ensures Valid() && this.bytes == bytes && pos == 0
    {
      this.bytes, pos := bytes, 0;
    }

    method ReadBytes(len: nat) returns (r: Option<seq<Byte>>)
      requires Valid()
      modifies this
      ensures Valid() && pos >= old(pos)
      ensures r.None? <==> len > |old(Rest())|
      ensures r.Some? ==> |r.value| == len && r.value == bytes[old(pos)..pos] && old(Rest()) == r.value + Rest()
    {
      if |bytes| - pos < len {
        return None;
      }
      r := Some(bytes[pos..pos + len]);
      pos := pos + len;
    }

    /** A 32-bit integer: the one whose print stands here. */
    method ReadInteger() returns (r: Option<U32>)
      requires Valid()
      modifies this
      ensures Valid() && pos >= old(pos)
      ensures r.Some? ==> old(Rest()) == PrintU32(r.value) + Rest()
      ensures r.None? ==> forall n: nat :: !Starts(PrintU32(n), old(Rest()))
      ensures Reads<nat>(PrintU32, IdFits, r, old(Rest()), Rest())
    {
      hide FromBytes, ToBytes;
      ghost var before := Rest();
      var raw := ReadBytes(4);
      if raw.None? {
        IntegerReads(None, before, Rest());
        return None;
      }
      WidthOf32();
      IntegerOfBytes(raw.value);
      r := Some(FromBytes(raw.value));
      IntegerReads(r, before, Rest());
    }

    /** A field element in 32 bytes; integers from the modulus up are refused. */
    method ReadElement() returns (r: Option<Elem>)
      requires Valid() && ElementsFit()
      modifies this
      ensures Valid() && pos >= old(pos)
      ensures Reads(PrintElement, AnyElement, r, old(Rest()), Rest())
    {
      hide FromBytes, ToBytes, ElementsFit;
      ghost var before := Rest();
      var raw := ReadBytes(ELEMENT_LEN);
      if raw.None? {
        ElementReads(None, before, Rest());
        return None;
      }
      assert before[..ELEMENT_LEN] == raw.value;
      if FromBytes(raw.value) >= P {
        ElementReads(None, before, Rest());
        return None;
      }
      IntegerOfBytes(raw.value);
      r := Some(FromBytes(raw.value));
      ElementReads(r, before, Rest());
    }

    method ReadElements(n: nat) returns (r: Option<seq<Elem>>)
      requires Valid() && ElementsFit()
      modifies this
      ensures Valid() && pos >= old(pos)
      ensures ReadsMany(PrintElement, AnyElement, n, r, old(Rest()), Rest())
    {
      hide ReadSoFar, ReadsMany, Reads, ElementsFit;
      ghost var start := Rest();
      var got: seq<Elem> := [];
      NothingRead(PrintElement, AnyElement, n, start);
      for i := 0 to n
        invariant Valid() && pos >= old(pos) && |got| == i
        invariant ReadSoFar(PrintElement, AnyElement, n, got, start, Rest())
      {
        ghost var rest := Rest();
        var x := ReadElement();
        ReadOne(PrintElement, AnyElement, n, got, x, start, rest, Rest());
        if x.None? {
          return None;
        }
        got := got + [x.value];
      }
      ReadAll(PrintElement, AnyElement, n, got, start, Rest());
      return Some(got);
    }

    /** Elements after their count. */
    method ReadCountedElements() returns (r: Option<seq<Elem>>)
      requires Valid() && ElementsFit()
      modifies this
      ensures Valid() && pos >= old(pos)
      ensures ReadsCounted(PrintElement, AnyElement, r, old(Rest()), Rest())
    {
      hide ReadsMany, Reads, ReadsCounted, ElementsFit;
      ghost var before := Rest();
      var count := ReadInteger();
      ghost var middle := Rest();
      r := None;
      if count.Some? {
        r := ReadElements(count.value);
      }
      CountedRead(PrintElement, AnyElement, count, r, before, middle, Rest());
    }

    method ReadIntegers(n: nat) returns (r: Option<seq<nat>>)
      requires Valid()
      modifies this
      ensures Valid() && pos >= old(pos)
      ensures ReadsMany<nat>(PrintU32, IdFits, n, r, old(Rest()), Rest())
    {
      hide ReadSoFar, ReadsMany, Reads;
      ghost var start := Rest();
      var got: seq<nat> := [];
      NothingRead<nat>(PrintU32, IdFits, n, start);
      for i := 0 to n
        invariant Valid() && pos >= old(pos) && |got| == i
        invariant ReadSoFar<nat>(PrintU32, IdFits, n, got, start, Rest())
      {
        ghost var rest := Rest();
        var x := ReadInteger();
        ReadOne<nat>(PrintU32, IdFits, n, got, x, start, rest, Rest());
        if x.None? {
          return None;
        }
        got := got + [x.value];
      }
      ReadAll<nat>(PrintU32, IdFits, n, got, start, Rest());
      return Some(got);
    }

    /** Integers after their count. */
    method ReadCountedIntegers() returns (r: Option<seq<nat>>)
      requires Valid()
      modifies this
      ensures Valid() && pos >= old(pos)
      ensures ReadsCounted<nat>(PrintU32, IdFits, r, old(Rest()), Rest())
    {
      hide ReadsMany, Reads, ReadsCounted;
      ghost var before := Rest();
      var count := ReadInteger();
      ghost var middle := Rest();
      r := None;
      if count.Some? {
        r := ReadIntegers(count.value);
      }
      CountedRead<nat>(PrintU32, IdFits, count, r, before, middle, Rest());
    }
  }
}
