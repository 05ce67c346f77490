/** The per-lock element counters: 64-bit words that wrap, of which only the sum means anything. */
module Counters {
  import opened Hashing

  ghost function Sum(elems: seq<nat>): nat
  {
    if elems == [] then 0 else Sum(elems[..|elems| - 1]) + elems[|elems| - 1]
  }

  /** The counters add up to n, modulo 2^64. */
  ghost predicate AddUpTo(elems: seq<nat>, n: nat)
  {
    (Sum(elems) - n) % WORD == 0 && forall l :: 0 <= l < |elems| ==> elems[l] < WORD
  }

  function Increment(elems: seq<nat>, l: nat): (r: seq<nat>)
    requires l < |elems|
    ensures |r| == |elems|
  {
    elems[l := (1 + elems[l]) % WORD]
  }

  function Decrement(elems: seq<nat>, l: nat): (r: seq<nat>)
    requires l < |elems|
    ensures |r| == |elems|
  {
    elems[l := (WORD - 1 + elems[l]) % WORD]
  }

  lemma {:induction false} SumUpdate(elems: seq<nat>, l: nat, x: nat)
    requires l < |elems|
    ensures Sum(elems[l := x]) == Sum(elems) - elems[l] + x
    decreases |elems|
  {
    var n := |elems| - 1;
    if l == n {
      assert elems[l := x][..n] == elems[..n];
    } else {
      assert elems[l := x][..n] == elems[..n][l := x];
      SumUpdate(elems[..n], l, x);
    }
  }

  lemma {:induction false} SumZeros(elems: seq<nat>)
    requires forall l :: 0 <= l < |elems| ==> elems[l] == 0
    ensures Sum(elems) == 0
  {
    if elems != [] {
      SumZeros(elems[..|elems| - 1]);
    }
  }

  lemma {:induction false} SumAppendZeros(elems: seq<nat>, zeros: seq<nat>)
    requires forall l :: 0 <= l < |zeros| ==> zeros[l] == 0
    ensures Sum(elems + zeros) == Sum(elems)
    decreases |zeros|
  {
    if zeros == [] {
      assert elems + zeros == elems;
    } else {
      var n := |zeros| - 1;
      assert (elems + zeros)[..|elems| + n] == elems + zeros[..n];
      SumAppendZeros(elems, zeros[..n]);
    }
  }

  lemma IncrementAddsOne(elems: seq<nat>, n: nat, l: nat)
    requires AddUpTo(elems, n) && l < |elems|
    ensures AddUpTo(Increment(elems, l), n + 1)
  {
    SumUpdate(elems, l, (1 + elems[l]) % WORD);
  }

  /** The counter itself may be zero and wrap to 2^64 - 1; the sum is right all the same. */
  lemma DecrementTakesOne(elems: seq<nat>, n: nat, l: nat)
    requires AddUpTo(elems, n) && l < |elems| && n > 0
    ensures AddUpTo(Decrement(elems, l), n - 1)
  {
    SumUpdate(elems, l, (WORD - 1 + elems[l]) % WORD);
  }

  lemma {:induction false} SumIsCount(elems: seq<nat>, n: nat)
    requires AddUpTo(elems, n)
    ensures Sum(elems) % WORD == n % WORD
  {
    var q := (Sum(elems) - n) / WORD;
    assert Sum(elems) == WORD * q + n;
    SameResidueShift(n, q);
  }

  lemma SameResidueShift(n: nat, q: int)
    requires n + WORD * q >= 0
    ensures (n + WORD * q) % WORD == n % WORD
  {
  }

  lemma AppendZeros(elems: seq<nat>, n: nat, more: nat)
    requires AddUpTo(elems, n)
    ensures AddUpTo(elems + seq(more, i => 0), n)
  {
    SumAppendZeros(elems, seq(more, i => 0));
  }
}
