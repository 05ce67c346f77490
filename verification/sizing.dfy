/** How large a table is made: the least hash power with room for n entries, as it would be with unbounded numbers
  * and as it is computed with 64-bit words. */
module Sizing {
  import opened Bits
  import opened Hashing
  import opened PathCodes
  import opened Bfs

  // ----- Unbounded numbers -----

  /** hp is the least hash power, from 1 up, whose table has n slots. */
  predicate LeastFor(slots: nat, n: nat, hp: nat)
  {
    hp >= 1 && n <= HashSize(hp) * slots && (hp > 1 ==> HashSize(hp - 1) * slots < n)
  }

  lemma SlotsGrow(slots: nat, a: nat, b: nat)
    requires a <= b
    ensures HashSize(a) * slots <= HashSize(b) * slots
    ensures a < b && slots > 0 ==> HashSize(a) * slots < HashSize(b) * slots
  {
    Pow2Monotone(a, b);
    var d := HashSize(b) - HashSize(a);
    assert HashSize(b) * slots == HashSize(a) * slots + slots * d;
    if a < b {
      MulGap(slots, d);
    }
  }

  /** The hash powers from hp on are exactly those that are large enough. */
  lemma LeastDecides(slots: nat, n: nat, hp: nat, other: nat)
    requires LeastFor(slots, n, hp) && other >= 1
    ensures n <= HashSize(other) * slots <==> hp <= other
  {
    if hp <= other {
      SlotsGrow(slots, hp, other);
    } else {
      SlotsGrow(slots, other, hp - 1);
    }
  }

  /** Asking for the slots of a table of hash power hp gives that table, or the smallest one there is. */
  lemma LeastForWholeTable(slots: nat, hp: nat, least: nat)
    requires slots > 0 && LeastFor(slots, HashSize(hp) * slots, least)
    ensures least == if hp > 1 then hp else 1
  {
    if hp >= 1 {
      LeastDecides(slots, HashSize(hp) * slots, least, hp);
      SlotsGrow(slots, least, hp);
    } else {
      SlotsGrow(slots, 0, least - 1);
    }
  }

  /** m buckets hold n entries exactly when m is at least n / slots rounded up. */
  lemma BucketsNeeded(slots: nat, n: nat, m: nat)
    requires slots > 0
    ensures n <= m * slots <==> (n + slots - 1) / slots <= m
  {
    var q := (n + slots - 1) / slots;
    assert n + slots - 1 == slots * q + (n + slots - 1) % slots;
    MulGap(slots, m - q);
    assert m * slots == slots * q + slots * (m - q);
  }

  // ----- Words -----

  /** A bucket has few enough slots that five of their numbers fit a word as digits. */
  predicate SlotsFit(slots: nat)
  {
    slots > 0 && Pow(slots, MAX_BFS_PATH_LEN) < WORD - 1
  }

  lemma FewSlots(slots: nat)
    requires SlotsFit(slots)
    ensures 4 * slots <= WORD
  {
    if slots > 1 {
      FourthPower(slots);
      MulGap(slots, Pow(slots, 4) - 3);
    }
  }

  lemma FourthPower(slots: nat)
    requires slots > 1
    ensures Pow(slots, 4) >= 4
  {
    assert Pow(slots, 1) == slots;
    assert Pow(slots, 2) == slots * slots >= 4;
    MulOrder(slots, 1, Pow(slots, 2));
    MulOrder(slots, 1, Pow(slots, 3));
  }

  /** n entries in buckets, rounded up; the sum wraps. */
  function BucketsFor(slots: nat, n: nat): nat
    requires slots > 0
  {
    QuotientIsNat((n + slots - 1) % WORD, slots);
    (n + slots - 1) % WORD / slots
  }

  /** The least hash power, from hp up, with that many buckets. */
  function LeastPower(buckets: nat, hp: nat): (r: nat)
    ensures r >= hp && buckets <= HashSize(r) && (r > hp ==> HashSize(r - 1) < buckets)
    decreases if HashSize(hp) < buckets then buckets - HashSize(hp) else 0
  {
    if HashSize(hp) < buckets then LeastPower(buckets, hp + 1) else hp
  }

  lemma LeastPowerAtMost(buckets: nat, hp: nat)
    requires hp >= 1
    ensures LeastPower(buckets, 1) <= hp <==> buckets <= HashSize(hp)
  {
    var r := LeastPower(buckets, 1);
    if r <= hp {
      Pow2Monotone(r, hp);
    } else {
      Pow2Monotone(hp, r - 1);
    }
  }

  /** The hash power computed for n entries. */
  function PowerFor(slots: nat, n: nat): (hp: nat)
    requires slots > 0
    ensures hp >= 1
  {
    LeastPower(BucketsFor(slots, n), 1)
  }

  /** The number of slots computed for a table of this hash power; the product wraps. */
  function SlotsOf(slots: nat, hp: nat): nat
  {
    HashSize(hp) * slots % WORD
  }

  /** The hash power at which rebuilding for hash power hp starts. */
  function StartPower(slots: nat, hp: nat): (start: nat)
    requires slots > 0
    ensures start >= 1
  {
    PowerFor(slots, SlotsOf(slots, hp))
  }

  /** Rounding the slots of a table of this hash power up to buckets stays within a word. */
  predicate NoWrap(slots: nat, hp: nat)
  {
    HashSize(hp) * slots + slots - 1 < WORD
  }

  /** The computed hash power is the least one with room for n entries exactly if the rounded sum fits a word; when
    * it does not, the smallest table comes out, which has no room for them. */
  lemma PowerForIsLeast(slots: nat, n: nat)
    requires SlotsFit(slots) && n < WORD
    ensures LeastFor(slots, n, PowerFor(slots, n)) <==> n + slots - 1 < WORD
    ensures n <= HashSize(PowerFor(slots, n)) * slots <==> n + slots - 1 < WORD
    ensures n + slots - 1 >= WORD ==> PowerFor(slots, n) == 1
  {
    FewSlots(slots);
    hide Pow;
    var hp := PowerFor(slots, n);
    if n + slots - 1 < WORD {
      ModUnique(n + slots - 1, WORD, 0, n + slots - 1);
      BucketsNeeded(slots, n, HashSize(hp));
      if hp > 1 {
        BucketsNeeded(slots, n, HashSize(hp - 1));
      }
    } else {
      SumWraps(slots, n);
      assert HashSize(1) == 2;
    }
  }

  lemma SumWraps(slots: nat, n: nat)
    requires slots > 0 && n < WORD <= n + slots - 1
    ensures BucketsFor(slots, n) == 0 && PowerFor(slots, n) == 1
  {
    var rest := n + slots - 1 - WORD;
    assert rest < slots;
    SmallMod(rest, slots);
    ModUnique(rest, slots, 0, rest);
  }

  lemma SmallMod(rest: nat, slots: nat)
    requires rest < slots
    ensures rest < WORD ==> (rest + WORD) % WORD == rest
  {
  }

  lemma WholeBuckets(slots: nat, m: nat)
    requires slots > 0
    ensures (m * slots + slots - 1) / slots == m
  {
    var q, r := (m * slots + slots - 1) / slots, (m * slots + slots - 1) % slots;
    assert m * slots + slots - 1 == slots * q + r;
    MulGap(slots, q - m);
    assert slots * (q - m) == slots - 1 - r;
  }

  /** What is left of a product that wraps is at most half of it. */
  lemma WrapHalves(p: nat, half: nat)
    requires p >= WORD && p == 2 * half
    ensures p % WORD <= half
  {
    var q, r := p / WORD, p % WORD;
    assert p == WORD * q + r;
    assert q >= 1;
    assert WORD * q >= WORD > r;
  }

  /** When the rounded product wraps, at most half of the buckets are computed. */
  lemma WrappedBuckets(slots: nat, hp: nat)
    requires SlotsFit(slots) && !NoWrap(slots, hp)
    ensures hp >= 2 && BucketsFor(slots, SlotsOf(slots, hp)) <= HashSize(hp - 1)
  {
    FewSlots(slots);
    hide Pow;
    assert HashSize(0) == 1 && HashSize(1) == 2;
    if hp >= 2 {
      var p, half := HashSize(hp) * slots, HashSize(hp - 1) * slots;
      assert p == 2 * half;
      if p < WORD {
        ModUnique(p, WORD, 0, p);
        SumWraps(slots, p);
      } else {
        WrapHalves(p, half);
        HalfTheBuckets(slots, p % WORD, HashSize(hp - 1));
      }
    }
  }

  lemma HalfTheBuckets(slots: nat, n: nat, m: nat)
    requires slots > 0 && n <= m * slots
    ensures BucketsFor(slots, n) <= m
  {
    var sum := n + slots - 1;
    assert sum % WORD <= sum by { ModAtMost(sum, WORD); }
    DivMonotone(sum % WORD, m * slots + slots - 1, slots);
    WholeBuckets(slots, m);
  }

  lemma ModAtMost(x: nat, m: nat)
    requires m > 0
    ensures 0 <= x % m <= x
  {
    QuotientIsNat(x, m);
    assert x == m * (x / m) + x % m;
    MulGap(m, x / m);
  }

  /** A rebuild for hash power hp starts exactly there, or at the smallest size there is, exactly if the rounded
    * product fits a word; otherwise it starts below. */
  lemma StartPowerIsExact(slots: nat, hp: nat)
    requires SlotsFit(slots)
    ensures StartPower(slots, hp) == (if hp > 1 then hp else 1) <==> NoWrap(slots, hp)
    ensures StartPower(slots, hp) <= if hp > 1 then hp else 1
  {
    hide SlotsFit;
    Positive(slots);
    if NoWrap(slots, hp) {
      var p := HashSize(hp) * slots;
      ModUnique(p, WORD, 0, p);
      PowerForIsLeast(slots, p);
      LeastForWholeTable(slots, hp, StartPower(slots, hp));
    } else {
      WrappedBuckets(slots, hp);
      LeastPowerAtMost(BucketsFor(slots, SlotsOf(slots, hp)), hp - 1);
    }
  }

  lemma Positive(slots: nat)
    requires SlotsFit(slots)
    ensures slots > 0
  {
  }

  /** Reserving leaves room for n entries in the new table exactly if neither rounding up n nor rounding up the
    * slots of the table chosen for it wraps. */
  lemma ReserveIsExact(slots: nat, n: nat)
    requires SlotsFit(slots) && n < WORD
    ensures n <= HashSize(StartPower(slots, PowerFor(slots, n))) * slots <==>
      n + slots - 1 < WORD && NoWrap(slots, PowerFor(slots, n))
  {
    hide SlotsFit, NoWrap;
    Positive(slots);
    var p := PowerFor(slots, n);
    var start := StartPower(slots, p);
    PowerForIsLeast(slots, n);
    StartPowerIsExact(slots, p);
    if n + slots - 1 < WORD && start < p {
      SlotsGrow(slots, start, p - 1);
    }
  }

  /** The shifts that compute a size are defined: no hash power above 63 comes up, whatever is asked for with two
    * slots or more, and whatever hash power up to 63 is asked for. */
  lemma ShiftsDefined(slots: nat, n: nat, hp: nat)
    requires SlotsFit(slots) && n < WORD && hp <= MAX_HASHPOWER
    ensures slots >= 2 ==> BucketsFor(slots, n) <= HashSize(MAX_HASHPOWER)
    ensures BucketsFor(slots, SlotsOf(slots, hp)) <= HashSize(MAX_HASHPOWER)
  {
    hide SlotsFit, StartPower, BucketsFor, SlotsOf, NoWrap, HashSize;
    Positive(slots);
    FewBuckets(slots, n);
    StartPowerIsExact(slots, hp);
    BucketsOfStart(slots, hp);
    Pow2Monotone(StartPower(slots, hp), MAX_HASHPOWER);
    SizeIsPow2(StartPower(slots, hp));
    SizeIsPow2(MAX_HASHPOWER);
  }

  lemma SizeIsPow2(hp: nat)
    ensures HashSize(hp) == Pow2(hp)
  {
  }

  lemma BucketsOfStart(slots: nat, hp: nat)
    requires slots > 0
    ensures BucketsFor(slots, SlotsOf(slots, hp)) <= HashSize(StartPower(slots, hp))
  {
  }

  lemma FewBuckets(slots: nat, n: nat)
    requires slots > 0
    ensures slots >= 2 ==> BucketsFor(slots, n) <= HashSize(MAX_HASHPOWER)
  {
    WordIsPow2();
    assert HashSize(MAX_HASHPOWER) == WORD / 2 by {
      assert Pow2(64) == 2 * Pow2(63);
    }
    hide HashSize, Pow2;
    HalfQuotient((n + slots - 1) % WORD, slots);
  }

  lemma HalfQuotient(x: nat, slots: nat)
    requires slots > 0
    ensures slots >= 2 ==> 0 <= 2 * (x / slots) <= x
  {
    QuotientIsNat(x, slots);
    var q := x / slots;
    assert x == slots * q + x % slots;
    if slots >= 2 {
      MulOrder(slots, 2, q);
    }
  }

  // ----- No size that the allocator grants wraps -----

  lemma SlotsBelow16Bits(slots: nat)
    requires SlotsFit(slots)
    ensures slots < 0x1_0000
  {
    if slots >= 0x1_0000 {
      assert Pow(slots, 1) == slots;
      MulOrder(slots, 0x1_0000, slots);
      assert Pow(slots, 2) == slots * slots >= 0x1_0000_0000;
      MulOrder(slots, 0x1_0000, Pow(slots, 2));
      assert Pow(slots, 3) == slots * Pow(slots, 2) >= 0x1_0000_0000_0000;
      MulOrder(slots, 0x1_0000, Pow(slots, 3));
      assert Pow(slots, 4) == slots * Pow(slots, 3) >= WORD;
      MulOrder(slots, 1, Pow(slots, 4));
    }
  }

  /** A table whose slots fit a word can be rounded up to buckets without a wrap. */
  lemma GrantedFits(slots: nat, hp: nat)
    requires SlotsFit(slots) && hp <= MAX_HASHPOWER && slots * HashSize(hp) < WORD
    ensures NoWrap(slots, hp)
  {
    SlotsBelow16Bits(slots);
    WordIsMultiple(hp);
    hide Pow, SlotsFit, HashSize;
    var m := HashSize(hp);
    assert m * slots == slots * m;
    if m < slots {
      SmallProduct(m, slots);
    } else {
      var q: nat :| WORD == m * q;
      RoomBelowMultiple(m, slots, q);
    }
  }

  lemma SmallProduct(m: nat, slots: nat)
    requires m < slots < 0x1_0000
    ensures m * slots + slots - 1 < WORD
  {
    MulOrder(0x1_0000, m, slots);
  }

  lemma RoomBelowMultiple(m: nat, slots: nat, q: nat)
    requires slots <= m && m * slots < m * q
    ensures m * slots + slots - 1 < m * q
  {
    MulGap(m, q - slots);
    assert m * q == m * slots + m * (q - slots);
  }

  lemma WordIsMultiple(hp: nat)
    requires hp <= 64
    ensures exists q: nat :: WORD == HashSize(hp) * q
  {
    WordIsPow2();
    Pow2Adds(hp, 64 - hp);
    hide Pow2;
    assert WORD == HashSize(hp) * Pow2(64 - hp);
  }

  /** In a table that the allocator grants, reserving has left room for n entries exactly if neither rounding wraps,
    * however large the table has become. */
  lemma RoomInGranted(slots: nat, n: nat, hp: nat, granted: nat)
    requires SlotsFit(slots) && n < WORD && hp <= granted <= MAX_HASHPOWER && slots * HashSize(granted) < WORD
    requires StartPower(slots, PowerFor(slots, n)) <= hp
    ensures n <= HashSize(hp) * slots <==> n + slots - 1 < WORD && NoWrap(slots, PowerFor(slots, n))
  {
    var p := PowerFor(slots, n);
    PowerForIsLeast(slots, n);
    ReserveIsExact(slots, n);
    GrantedFits(slots, granted);
    SlotsGrow(slots, hp, granted);
    hide SlotsFit, StartPower, PowerFor, HashSize, Pow;
    SlotsGrow(slots, StartPower(slots, p), hp);
    if n + slots - 1 < WORD && !NoWrap(slots, p) {
      if p <= granted {
        SlotsGrow(slots, p, granted);
      } else {
        SlotsGrow(slots, granted, p - 1);
      }
    }
  }

  // ----- Sizes at which the computation goes wrong -----

  /** With four slots, asking for hash power 62 computes 2^64 slots, which wraps to none: the table shrinks to the
    * smallest size there is. */
  lemma HashPower62Wraps()
    ensures SlotsFit(4) && SlotsOf(4, 62) == 0 && StartPower(4, 62) == 1 && !NoWrap(4, 62)
  {
    WordIsPow2();
    assert Pow2(64) == 4 * Pow2(62);
    assert Pow(4, 5) == 1024;
    hide Pow, Pow2;
    assert SlotsOf(4, 62) == 0;
    assert BucketsFor(4, 0) == 0;
    hide HashSize, BucketsFor, SlotsOf;
    LeastPowerAtMost(0, 1);
  }

  /** With four slots, reserving room for 2^64 - 1 entries computes the smallest size as well, and reserving it for
    * 2^63 + 1 computes hash power 62 and then, from that, the smallest size. */
  lemma LargeReservesWrap()
    ensures PowerFor(4, WORD - 1) == 1
    ensures PowerFor(4, WORD / 2 + 1) == 62 && StartPower(4, 62) == 1
  {
    HashPower62Wraps();
    PowerForIsLeast(4, WORD - 1);
    WordIsPow2();
    assert HashSize(62) == WORD / 4 && HashSize(61) == WORD / 8 by {
      assert Pow2(64) == 4 * Pow2(62) && Pow2(62) == 2 * Pow2(61);
    }
    hide HashSize, Pow2;
    LeastPowerAtMost(BucketsFor(4, WORD / 2 + 1), 62);
    LeastPowerAtMost(BucketsFor(4, WORD / 2 + 1), 61);
  }
}
