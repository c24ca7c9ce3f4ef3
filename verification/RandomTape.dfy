/** Randomness as an explicit tape: a run is a function of its inputs and of the tape. */
module RandomTape {
  import opened PrimeField

  /** A random tape read from left to right. */
  class Tape {
    const draws: nat -> Elem
    var pos: nat

    constructor (draws: nat -> Elem)
      ensures this.draws == draws && pos == 0
    {
      this.draws := draws;
      pos := 0;
    }

    method Rand() returns (x: Elem)
      modifies this
      ensures x == draws(old(pos)) && pos == old(pos) + 1
    {
      x := draws(pos);
      pos := pos + 1;
    }
  }

  function Drawn(draws: nat -> Elem, from: nat, k: nat): (xs: seq<Elem>)
    ensures |xs| == k
  {
    seq(k, i requires 0 <= i < k => draws(from + i))
  }
}
