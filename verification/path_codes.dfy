/** Path codes: a start bucket (0 or 1) followed by base-`slots` digits, one for every slot kicked out. */
module PathCodes {
  import opened Bits

  function Pow(a: nat, n: nat): nat
  {
    if n == 0 then 1 else a * Pow(a, n - 1)
  }

  predicate IsDigits(slots: nat, path: seq<nat>)
  {
    forall i :: 0 <= i < |path| ==> path[i] < slots
  }

  /** The code of a path one slot longer. */
  function Extend(slots: nat, code: nat, slot: nat): nat
  {
    code * slots + slot
  }

  lemma ExtendSplits(slots: nat, code: nat, slot: nat)
    requires slot < slots
    ensures Extend(slots, code, slot) / slots == code && Extend(slots, code, slot) % slots == slot
  {
    ModUnique(code * slots + slot, slots, code, slot);
  }

  function Encode(slots: nat, root: nat, path: seq<nat>): nat
  {
    if path == [] then root else Extend(slots, Encode(slots, root, path[..|path| - 1]), path[|path| - 1])
  }

  function DecodeSlots(slots: nat, code: nat, n: nat): (path: seq<nat>)
    requires slots > 0
    ensures |path| == n && IsDigits(slots, path)
    decreases n
  {
    if n == 0 then [] else DecodeSlots(slots, code / slots, n - 1) + [code % slots]
  }

  function DecodeRoot(slots: nat, code: nat, n: nat): nat
    requires slots > 0
    decreases n
  {
    if n == 0 then code else DecodeRoot(slots, code / slots, n - 1)
  }

  lemma DigitBound(slots: nat, prefix: nat, digit: nat, n: nat)
    requires digit < slots && prefix < 2 * Pow(slots, n)
    ensures Extend(slots, prefix, digit) < 2 * Pow(slots, n + 1)
  {
    var p := Pow(slots, n);
    MulOrder(2 * p, prefix + 1, slots);
    assert (prefix + 1) * slots == prefix * slots + slots;
    assert (2 * p) * slots == 2 * (slots * p);
  }

  /** Decoding recovers exactly what was encoded, and codes stay below 2 * slots^n. */
  lemma {:induction false} DecodeEncode(slots: nat, root: nat, path: seq<nat>)
    requires slots > 0 && root < 2 && IsDigits(slots, path)
    ensures DecodeSlots(slots, Encode(slots, root, path), |path|) == path
    ensures DecodeRoot(slots, Encode(slots, root, path), |path|) == root
    ensures Encode(slots, root, path) < 2 * Pow(slots, |path|)
    decreases |path|
  {
    if path != [] {
      var n := |path| - 1;
      var prefix := Encode(slots, root, path[..n]);
      DecodeEncode(slots, root, path[..n]);
      ExtendSplits(slots, prefix, path[n]);
      DigitBound(slots, prefix, path[n], n);
      assert path[..n] + [path[n]] == path;
    }
  }

  lemma DecodeStep(slots: nat, code: nat, n: nat)
    requires slots > 0
    ensures DecodeSlots(slots, code, n + 1) == DecodeSlots(slots, code / slots, n) + [code % slots]
    ensures DecodeRoot(slots, code, n + 1) == DecodeRoot(slots, code / slots, n)
  {
  }

  lemma SplitExtends(slots: nat, code: nat)
    requires slots > 0
    ensures Extend(slots, code / slots, code % slots) == code
  {
  }

  /** Every code below the bound is the code of the path it decodes to. */
  lemma {:induction false} EncodeDecode(slots: nat, code: nat, n: nat)
    requires slots > 0
    ensures Encode(slots, DecodeRoot(slots, code, n), DecodeSlots(slots, code, n)) == code
    ensures code < 2 * Pow(slots, n) ==> DecodeRoot(slots, code, n) < 2
    decreases n
  {
    if n > 0 {
      hide Pow, Extend;
      SplitExtends(slots, code);
      var path := DecodeSlots(slots, code, n);
      assert path[..n - 1] == DecodeSlots(slots, code / slots, n - 1);
      EncodeDecode(slots, code / slots, n - 1);
      if code < 2 * Pow(slots, n) {
        PrefixBound(slots, code, n);
      }
    }
  }

  lemma PrefixBound(slots: nat, code: nat, n: nat)
    requires slots > 0 && n > 0 && code < 2 * Pow(slots, n)
    ensures code / slots < 2 * Pow(slots, n - 1)
  {
    var q, p := code / slots, Pow(slots, n - 1);
    assert q * slots <= code < (2 * p) * slots by {
      assert 2 * (slots * p) == (2 * p) * slots;
    }
    MulOrder(q, 2 * p, slots);
  }
}
