/** How a key's 64-bit hash picks its two candidate buckets. */
module Hashing {
  import opened Bits

  const WORD := 0x1_0000_0000_0000_0000

  /** The 64-bit MurmurHash2 multiplier. */
  const MURMUR := 0xc6a4_a793_5bd1_e995

  /** The bound on hash powers under which every bucket index fits a 64-bit word. */
  const MAX_HASHPOWER := 63

  type Word = n: nat | n < WORD

  /** A key: its identity, together with the value an arbitrary hash function gives it.
    * Equal keys therefore hash equally; nothing else is known about the hash. */
  datatype Key = Key(id: int, hash: Word)

  function HashSize(hp: nat): nat { Pow2(hp) }

  function HashMask(hp: nat): nat { HashSize(hp) - 1 }

  /** The hash folded to eight bits: 64 to 32, 32 to 16, 16 to 8. */
  function PartialKey(hash: Word): (p: nat)
    ensures p < 256
  {
    var h32 := Xor(hash % 0x1_0000_0000, hash / 0x1_0000_0000 % 0x1_0000_0000);
    var h16 := Xor(h32 % 0x1_0000, h32 / 0x1_0000 % 0x1_0000);
    var low, high := h16 % 0x100, h16 / 0x100 % 0x100;
    XorBound(low, high, 8);
    Xor(low, high)
  }

  function IndexHash(hp: nat, hash: nat): (i: nat)
    ensures i < HashSize(hp)
  {
    MaskIsMod(hash, hp);
    And(hash, HashMask(hp))
  }

  /** The tag of a partial, spread over a word; the product wraps at 64 bits. */
  function Spread(partial: nat): Word
  {
    (partial + 1) * MURMUR % WORD
  }

  /** The other candidate bucket of a key with this partial found at `index`. */
  function AltIndex(hp: nat, partial: nat, index: nat): (i: nat)
    ensures i < HashSize(hp)
  {
    MaskIsMod(Xor(index, Spread(partial)), hp);
    And(Xor(index, Spread(partial)), HashMask(hp))
  }

  lemma AltIsXor(hp: nat, partial: nat, index: nat)
    ensures AltIndex(hp, partial, index) == Xor(index % Pow2(hp), Spread(partial) % Pow2(hp))
  {
    MaskIsMod(Xor(index, Spread(partial)), hp);
    XorMod(index, Spread(partial), hp);
  }

  /** The other candidate of the other candidate is where we started. */
  lemma AltUndoes(hp: nat, partial: nat, index: nat)
    requires index < HashSize(hp)
    ensures AltIndex(hp, partial, AltIndex(hp, partial, index)) == index
  {
    var m := Spread(partial) % Pow2(hp);
    AltIsXor(hp, partial, index);
    AltIsXor(hp, partial, AltIndex(hp, partial, index));
    ModUnique(index, Pow2(hp), 0, index);
    ModUnique(Xor(index, m), Pow2(hp), 0, Xor(index, m));
    XorCancels(index, m);
  }

  /** Doubling only adds a bit at the top of either candidate index. */
  lemma DoublingAddsTopBit(hp: nat, hash: Word, partial: nat, index: nat)
    ensures IndexHash(hp + 1, hash) % Pow2(hp) == IndexHash(hp, hash)
    ensures AltIndex(hp + 1, partial, index) % Pow2(hp) == AltIndex(hp, partial, index % Pow2(hp))
  {
    hide Xor, And, Pow2, Spread;
    MaskIsMod(hash, hp);
    MaskIsMod(hash, hp + 1);
    ModNested(hash, hp, hp + 1);
    var x, y := Xor(index, Spread(partial)), Xor(index % Pow2(hp), Spread(partial));
    MaskIsMod(x, hp + 1);
    MaskIsMod(y, hp);
    ModNested(x, hp, hp + 1);
    XorMod(index, Spread(partial), hp);
    XorMod(index % Pow2(hp), Spread(partial), hp);
    ModNested(index, hp, hp);
  }

  /** The two candidates coincide exactly when the table size divides the tag. */
  lemma CandidatesCoincide(hp: nat, partial: nat, index: nat)
    requires hp <= 64 && index < HashSize(hp)
    ensures AltIndex(hp, partial, index) == index <==> (partial + 1) % HashSize(hp) == 0
  {
    var m := Spread(partial) % Pow2(hp);
    AltIsXor(hp, partial, index);
    ModUnique(index, Pow2(hp), 0, index);
    assert AltIndex(hp, partial, index) == Xor(index, m);
    assert Xor(index, m) == index <==> m == 0 by {
      XorCommutes(index, m);
      XorCancels(m, index);
      XorZero(index);
      XorCancels(0, index);
      XorCommutes(0, index);
    }
    WordIsPow2();
    ModNested((partial + 1) * MURMUR, hp, 64);
    OddFactor(partial + 1, MURMUR, hp);
  }

  lemma EightMore(k: nat)
    ensures Pow2(k + 8) == 0x100 * Pow2(k)
  {
    assert Pow2(k + 2) == 2 * Pow2(k + 1) == 4 * Pow2(k);
    assert Pow2(k + 4) == 2 * Pow2(k + 3) == 4 * Pow2(k + 2);
    assert Pow2(k + 6) == 2 * Pow2(k + 5) == 4 * Pow2(k + 4);
    assert Pow2(k + 8) == 2 * Pow2(k + 7) == 4 * Pow2(k + 6);
  }

  lemma WordIsPow2()
    ensures Pow2(64) == WORD && Pow2(16) == 0x1_0000 && Pow2(8) == 0x100
  {
    assert Pow2(0) == 1;
    hide Pow2;
    EightMore(0);
    EightMore(8);
    EightMore(16);
    EightMore(24);
    EightMore(32);
    EightMore(40);
    EightMore(48);
    EightMore(56);
  }

  /** With at least 2^9 buckets every key has two distinct candidates. */
  lemma CandidatesDifferFrom9(hp: nat, hash: Word, index: nat)
    requires 9 <= hp <= 64 && index < HashSize(hp)
    ensures AltIndex(hp, PartialKey(hash), index) != index
  {
    var p := PartialKey(hash);
    CandidatesCoincide(hp, p, index);
    Pow2Monotone(9, hp);
    assert Pow2(9) == 2 * Pow2(8);
    WordIsPow2();
    ModUnique(p + 1, HashSize(hp), 0, p + 1);
  }

  lemma PartialOfSmallHash(hash: Word)
    requires hash < 256
    ensures PartialKey(hash) == hash
  {
    hide Xor;
    XorZero(hash);
  }

  /** At every smaller size some tag makes them coincide, so 9 is the exact threshold. */
  lemma CandidatesCoincideBelow9(hp: nat, index: nat)
    requires hp <= 8 && index < HashSize(hp)
    ensures exists hash: Word :: AltIndex(hp, PartialKey(hash), index) == index
  {
    Pow2Monotone(hp, 8);
    assert Pow2(8) == 256;
    var hash: Word := Pow2(hp) - 1;
    CoincidesAt(hp, hash, index);
  }

  lemma CoincidesAt(hp: nat, hash: Word, index: nat)
    requires hp <= 64 && index < HashSize(hp) && hash < 256 && hash + 1 == Pow2(hp)
    ensures AltIndex(hp, PartialKey(hash), index) == index
  {
    PartialOfSmallHash(hash);
    ModUnique(hash + 1, Pow2(hp), 1, 0);
    CandidatesCoincide(hp, hash, index);
  }

  /** `b` is one of the two buckets the key may occupy. */
  predicate Cand(hp: nat, k: Key, b: nat)
  {
    b == First(hp, k) || b == Second(hp, k)
  }

  function First(hp: nat, k: Key): (i: nat)
    ensures i < HashSize(hp)
  {
    IndexHash(hp, k.hash)
  }

  function Second(hp: nat, k: Key): (i: nat)
    ensures i < HashSize(hp)
  {
    AltIndex(hp, PartialKey(k.hash), First(hp, k))
  }

  /** The home bucket of a key is its hash modulo the number of buckets. */
  lemma HomeIsHashModulo(hp: nat, k: Key)
    ensures First(hp, k) == k.hash % Pow2(hp)
  {
    MaskIsMod(k.hash, hp);
  }

  /** The other bucket is the home bucket xor the spread of the partial plus one, modulo the number of buckets. */
  lemma OtherIsXor(hp: nat, k: Key)
    ensures Second(hp, k)
         == Xor(k.hash % Pow2(hp),
                (PartialKey(k.hash) + 1) * 0xc6a4_a793_5bd1_e995 % 0x1_0000_0000_0000_0000 % Pow2(hp))
  {
    HomeIsHashModulo(hp, k);
    hide PartialKey, Xor, IndexHash, And;
    AltIsXor(hp, PartialKey(k.hash), First(hp, k));
    ModUnique(First(hp, k), Pow2(hp), 0, First(hp, k));
  }

  /** Byte i of a number. */
  function Byte(x: nat, i: nat): (b: nat)
    ensures b < 256
  {
    QuotientIsNat(x, Pow2(8 * i));
    x / Pow2(8 * i) % 0x100
  }

  lemma ByteOfXor(a: nat, b: nat, i: nat)
    ensures Byte(Xor(a, b), i) == Xor(Byte(a, i), Byte(b, i))
  {
    WordIsPow2();
    XorDiv(a, b, 8 * i);
    XorMod(a / Pow2(8 * i), b / Pow2(8 * i), 8);
  }

  lemma ByteOfLow(x: nat, n: nat, i: nat)
    requires i < n
    ensures Byte(x % Pow2(8 * n), i) == Byte(x, i)
  {
    WordIsPow2();
    hide Pow2;
    DivOfMod(x, 8 * n, 8 * i, 8);
  }

  lemma ByteOfHigh(x: nat, n: nat, i: nat)
    ensures x / Pow2(8 * n) >= 0 && Byte(x / Pow2(8 * n), i) == Byte(x, n + i)
  {
    hide Pow2;
    DivTwice(x, 8 * n, 8 * i);
  }

  /** One folding step: the byte of the folded number is the exclusive or of two bytes. */
  lemma ByteOfFold(x: nat, n: nat, i: nat)
    requires i < n
    ensures x / Pow2(8 * n) >= 0
    ensures Byte(Xor(x % Pow2(8 * n), x / Pow2(8 * n) % Pow2(8 * n)), i) == Xor(Byte(x, i), Byte(x, n + i))
  {
    QuotientIsNat(x, Pow2(8 * n));
    hide Pow2, Xor, Byte;
    ByteOfXor(x % Pow2(8 * n), x / Pow2(8 * n) % Pow2(8 * n), i);
    ByteOfLow(x, n, i);
    ByteOfLow(x / Pow2(8 * n), n, i);
    ByteOfHigh(x, n, i);
  }

  lemma LowBytes(x: nat)
    ensures Byte(x, 0) == x % 0x100 && Byte(x, 1) == x / 0x100 % 0x100
  {
    assert Pow2(0) == 1;
    WordIsPow2();
  }

  lemma WordsArePow2()
    ensures Pow2(8 * 4) == 0x1_0000_0000 && Pow2(8 * 2) == 0x1_0000
  {
    WordIsPow2();
    EightMore(16);
    EightMore(24);
  }

  /** The partial is the exclusive or of the eight bytes of the hash. */
  lemma PartialFoldsBytes(hash: Word)
    ensures PartialKey(hash) ==
      Xor(Xor(Xor(Byte(hash, 0), Byte(hash, 4)), Xor(Byte(hash, 2), Byte(hash, 6))),
          Xor(Xor(Byte(hash, 1), Byte(hash, 5)), Xor(Byte(hash, 3), Byte(hash, 7))))
  {
    var h32 := Xor(hash % 0x1_0000_0000, hash / 0x1_0000_0000 % 0x1_0000_0000);
    var h16 := Xor(h32 % 0x1_0000, h32 / 0x1_0000 % 0x1_0000);
    WordsArePow2();
    LowBytes(h16);
    hide Xor, Byte, Pow2;
    ByteOfFold(h32, 2, 0);
    ByteOfFold(h32, 2, 1);
    ByteOfFold(hash, 4, 0);
    ByteOfFold(hash, 4, 1);
    ByteOfFold(hash, 4, 2);
    ByteOfFold(hash, 4, 3);
  }

  /** Kicking a key out of either candidate sends it to the other one. */
  lemma KickLandsOnCandidate(hp: nat, k: Key, b: nat)
    requires Cand(hp, k, b)
    ensures Cand(hp, k, AltIndex(hp, PartialKey(k.hash), b))
    ensures b == First(hp, k) ==> AltIndex(hp, PartialKey(k.hash), b) == Second(hp, k)
    ensures b == Second(hp, k) ==> AltIndex(hp, PartialKey(k.hash), b) == First(hp, k)
  {
    AltUndoes(hp, PartialKey(k.hash), First(hp, k));
  }

  /** Both candidates after a doubling lie at, or exactly 2^hp above, the ones before it. */
  lemma CandidatesAfterDoubling(hp: nat, k: Key)
    ensures First(hp + 1, k) % Pow2(hp) == First(hp, k)
    ensures Second(hp + 1, k) % Pow2(hp) == Second(hp, k)
    ensures First(hp + 1, k) in {First(hp, k), First(hp, k) + Pow2(hp)}
    ensures Second(hp + 1, k) in {Second(hp, k), Second(hp, k) + Pow2(hp)}
  {
    DoublingAddsTopBit(hp, k.hash, PartialKey(k.hash), First(hp + 1, k));
    NextBitOf(First(hp + 1, k), hp);
    NextBitOf(Second(hp + 1, k), hp);
  }

  lemma NextBitOf(x: nat, hp: nat)
    requires x < Pow2(hp + 1)
    ensures x == x % Pow2(hp) || x == x % Pow2(hp) + Pow2(hp)
  {
    ModUnique(x, Pow2(hp + 1), 0, x);
    ModNextBit(x, hp);
  }
}
