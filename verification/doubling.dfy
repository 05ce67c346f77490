/** Which buckets a doubling has dealt with, and where entries of the doubled table come from. */
module Doubling {
  import opened Bits
  import opened Hashing
  import opened Tables
  import opened TableSteps
  import opened Migration
  import opened Locks

  /** The old buckets guarded by the locks from `start` up to `lock`, and those of `lock` itself below `bucket`. */
  ghost function Dealt(hp: nat, start: nat, lock: nat, bucket: nat): (bs: set<nat>)
    ensures forall b :: b in bs <==>
      b in Below(HashSize(hp)) && (start <= LockInd(b) < lock || (LockInd(b) == lock && b < bucket))
  {
    set b | b in Below(HashSize(hp)) && (start <= LockInd(b) < lock || (LockInd(b) == lock && b < bucket))
  }

  lemma DealtStarts(hp: nat, start: nat, lock: nat)
    requires lock < NUM_LOCKS
    ensures Dealt(hp, start, lock, lock) == Dealt(hp, start, lock, 0)
  {
    hide LockInd;
    forall b: nat | LockInd(b) == lock
      ensures b >= lock
    {
      LockOf(b);
    }
  }

  lemma LockOf(b: nat)
    ensures LockInd(b) == b % NUM_LOCKS && b >= LockInd(b)
  {
  }

  /** Striding by the number of locks visits the buckets of one lock. */
  lemma DealtNext(hp: nat, start: nat, lock: nat, bucket: nat)
    requires bucket < HashSize(hp) && LockInd(bucket) == lock && start <= lock
    ensures Dealt(hp, start, lock, bucket + NUM_LOCKS) == Dealt(hp, start, lock, bucket) + {bucket}
    ensures LockInd(bucket + NUM_LOCKS) == lock
    ensures bucket !in Dealt(hp, start, lock, bucket)
  {
    hide LockInd, HashSize;
    NextOfLock(bucket);
  }

  /** The next bucket with the same lock is one stride away. */
  lemma NextOfLock(bucket: nat)
    ensures LockInd(bucket + NUM_LOCKS) == LockInd(bucket)
    ensures forall b: nat :: LockInd(b) == LockInd(bucket) ==> (b < bucket + NUM_LOCKS <==> b < bucket || b == bucket)
  {
    hide LockInd;
    LockOf(bucket + NUM_LOCKS);
    LockOf(bucket);
    forall b: nat | LockInd(b) == LockInd(bucket)
      ensures b < bucket + NUM_LOCKS <==> b < bucket || b == bucket
    {
      LockOf(b);
      SameResidue(b, bucket, NUM_LOCKS);
    }
  }

  lemma SameResidue(a: nat, b: nat, m: nat)
    requires m > 0 && a % m == b % m
    ensures a < b + m <==> a < b || a == b
  {
    var d := a / m - b / m;
    assert a - b == m * d;
    MulGap(m, d);
  }

  lemma DealtEnds(hp: nat, start: nat, lock: nat, bucket: nat)
    requires bucket >= HashSize(hp) && start <= lock
    ensures Dealt(hp, start, lock, bucket) == Dealt(hp, start, lock + 1, 0)
  {
    hide LockInd, HashSize;
  }

  /** Dealing with every lock of the old table deals with every old bucket. */
  lemma AllDealt(hp: nat)
    ensures Below(HashSize(hp)) - Dealt(hp, 0, LocksFor(hp), 0) == {}
  {
    hide LockInd, LocksFor;
    forall b | b in Below(HashSize(hp))
      ensures LockInd(b) < LocksFor(hp)
    {
      LockIndInRange(hp, b);
    }
  }

  lemma NoneDealt(hp: nat, start: nat)
    ensures Dealt(hp, start, start, 0) == {}
  {
  }

  /** Every entry of t comes, partial and value included, from the bucket of the old table that its index
    * modulo 2^hp names: it stayed where it was or moved up by exactly 2^hp. */
  ghost predicate ComesFrom(old': Table, t: Table, hp: nat)
  {
    forall b, s :: Occupied(t, b, s) ==> HasEntry(old', b % HashSize(hp), t[b][s])
  }

  ghost predicate HasEntry(t: Table, b: nat, x: Slot)
  {
    exists s :: Occupied(t, b, s) && t[b][s] == x
  }

  lemma ComesFromAtStart(t: Table, hp: nat, slots: nat)
    requires |t| == HashSize(hp)
    ensures ComesFrom(t, t + EmptyTable(HashSize(hp), slots), hp)
  {
    var t' := t + EmptyTable(HashSize(hp), slots);
    forall b, s | Occupied(t', b, s)
      ensures HasEntry(t, b % HashSize(hp), t'[b][s])
    {
      ModUnique(b, HashSize(hp), 0, b);
      assert Occupied(t, b, s);
    }
  }

  lemma ComesFromAfterMove(old': Table, t: Table, hp: nat, b: nat, s: nat, r: nat)
    requires ComesFrom(old', t, hp) && b < HashSize(hp) && Occupied(t, b, s)
    requires b + HashSize(hp) < |t| && r < |t[b + HashSize(hp)]| && t[b + HashSize(hp)][r].Empty?
    ensures ComesFrom(old', Move(t, b, s, b + HashSize(hp), r), hp)
  {
    hide Move, HasEntry;
    var c := b + HashSize(hp);
    MoveFrame(t, b, s, c, r);
    ModUnique(c, HashSize(hp), 1, b);
    ModUnique(b, HashSize(hp), 0, b);
    var t' := Move(t, b, s, c, r);
    forall d, q | Occupied(t', d, q)
      ensures HasEntry(old', d % HashSize(hp), t'[d][q])
    {
      if d == c && q == r {
        assert t'[d][q] == t[b][s];
      } else {
        assert Occupied(t, d, q);
      }
    }
  }

  // ----- The doubled table as a function of the old one -----

  /** The table that a doubling produces: every old bucket split into itself and the bucket 2^hp above. */
  function Grown(t: Table, hp: nat, slots: nat): (t': Table)
    requires Shape(t, hp, slots)
    ensures Shape(t', hp + 1, slots)
  {
    seq(HashSize(hp + 1), c requires 0 <= c < HashSize(hp + 1) => GrownBucket(t, hp, slots, c))
  }

  function GrownBucket(t: Table, hp: nat, slots: nat, c: nat): (bucket: Bucket)
    requires Shape(t, hp, slots) && c < HashSize(hp + 1)
    ensures |bucket| == slots
  {
    assert HashSize(hp + 1) == 2 * HashSize(hp);
    MigrateBucket(t + EmptyTable(HashSize(hp), slots), hp, slots, if c < HashSize(hp) then c else c - HashSize(hp))[c]
  }

  /** The buckets in `pending` are still as they were, the others as they will be. */
  ghost predicate PartlyGrown(before: Table, t: Table, hp: nat, slots: nat, pending: set<nat>)
  {
    && Shape(before, hp, slots) && |t| == HashSize(hp + 1)
    && forall b :: 0 <= b < HashSize(hp) ==> PairAt(before, t, hp, slots, pending, b)
  }

  ghost predicate PairAt(before: Table, t: Table, hp: nat, slots: nat, pending: set<nat>, b: nat)
    requires Shape(before, hp, slots) && |t| == HashSize(hp + 1) && b < HashSize(hp)
  {
    var half := HashSize(hp);
    assert HashSize(hp + 1) == 2 * half;
    if b in pending then t[b] == before[b] && t[b + half] == EmptyBucket(slots)
    else t[b] == Grown(before, hp, slots)[b] && t[b + half] == Grown(before, hp, slots)[b + half]
  }

  lemma GrownAtStart(before: Table, hp: nat, slots: nat)
    requires Shape(before, hp, slots)
    ensures PartlyGrown(before, before + EmptyTable(HashSize(hp), slots), hp, slots, Below(HashSize(hp)))
  {
    assert HashSize(hp + 1) == 2 * HashSize(hp);
  }

  lemma GrownAtEnd(before: Table, t: Table, hp: nat, slots: nat)
    requires PartlyGrown(before, t, hp, slots, {})
    ensures t == Grown(before, hp, slots)
  {
    hide Grown;
    var half := HashSize(hp);
    assert HashSize(hp + 1) == 2 * half;
    forall c | 0 <= c < |t|
      ensures t[c] == Grown(before, hp, slots)[c]
    {
      var b := if c < half then c else c - half;
      assert PairAt(before, t, hp, slots, {}, b);
    }
  }

  /** The two tables agree on a bucket and on the one 2^hp above. */
  predicate SamePair(t: Table, u: Table, hp: nat, b: nat)
  {
    && b + HashSize(hp) < |t| && b + HashSize(hp) < |u|
    && t[b] == u[b] && t[b + HashSize(hp)] == u[b + HashSize(hp)]
  }

  lemma MoveIsLocal(t: Table, u: Table, hp: nat, slots: nat, b: nat, slot: nat, used: nat)
    requires Doubled(t, hp, slots, b) && Doubled(u, hp, slots, b) && slot < slots && used < slots
    requires SamePair(t, u, hp, b)
    ensures var t', u' := Move(t, b, slot, b + HashSize(hp), used), Move(u, b, slot, b + HashSize(hp), used);
      Doubled(t', hp, slots, b) && Doubled(u', hp, slots, b) && SamePair(t', u', hp, b)
  {
    hide HashSize;
  }

  lemma SameChoice(t: Table, u: Table, hp: nat, slots: nat, b: nat, slot: nat)
    requires Doubled(t, hp, slots, b) && Doubled(u, hp, slots, b) && slot < slots && SamePair(t, u, hp, b)
    ensures b < |t| && b < |u| && slot < |t[b]| && slot < |u[b]| && t[b][slot] == u[b][slot]
    ensures b + HashSize(hp) < |t| && |t[b + HashSize(hp)]| == slots
    ensures b + HashSize(hp) < |u| && |u[b + HashSize(hp)]| == slots
  {
    hide HashSize;
  }

  /** Splitting a bucket depends on that bucket and the one above alone. */
  lemma {:induction false} SplitIsLocal(t: Table, u: Table, hp: nat, slots: nat, b: nat, slot: nat, used: nat)
    requires Doubled(t, hp, slots, b) && Doubled(u, hp, slots, b) && used <= slot <= slots
    requires SamePair(t, u, hp, b)
    ensures SamePair(MigrateFrom(t, hp, slots, b, slot, used), MigrateFrom(u, hp, slots, b, slot, used), hp, b)
    decreases slots - slot
  {
    hide MigrateFrom, Moves, Move, HashSize, SamePair, Doubled;
    MigrateStep(t, hp, slots, b, slot, used);
    MigrateStep(u, hp, slots, b, slot, used);
    if slot < slots {
      SameChoice(t, u, hp, slots, b, slot);
      if t[b][slot].Full? && Moves(hp, t[b][slot].key, b) {
        var c := b + HashSize(hp);
        MoveIsLocal(t, u, hp, slots, b, slot, used);
        SplitIsLocal(Move(t, b, slot, c, used), Move(u, b, slot, c, used), hp, slots, b, slot + 1, used + 1);
      } else {
        SplitIsLocal(t, u, hp, slots, b, slot + 1, used);
      }
    }
  }

  lemma GrownNext(before: Table, t: Table, hp: nat, slots: nat, pending: set<nat>, b: nat)
    requires PartlyGrown(before, t, hp, slots, pending) && b in pending && Doubled(t, hp, slots, b)
    ensures PartlyGrown(before, MigrateBucket(t, hp, slots, b), hp, slots, pending - {b})
  {
    var half, t' := HashSize(hp), MigrateBucket(t, hp, slots, b);
    assert HashSize(hp + 1) == 2 * half;
    assert PairAt(before, t, hp, slots, pending, b);
    SplitIsLocal(t, before + EmptyTable(half, slots), hp, slots, b, 0, 0);
    GrownAt(before, hp, slots, b);
    hide Grown, MigrateFrom, HashSize, Shape;
    forall c | 0 <= c < half
      ensures PairAt(before, t', hp, slots, pending - {b}, c)
    {
      assert PairAt(before, t, hp, slots, pending, c);
    }
  }

  lemma GrownAt(before: Table, hp: nat, slots: nat, b: nat)
    requires Shape(before, hp, slots) && b < HashSize(hp)
    ensures var doubled, half := before + EmptyTable(HashSize(hp), slots), HashSize(hp);
      && HashSize(hp + 1) == 2 * half && Doubled(doubled, hp, slots, b)
      && Grown(before, hp, slots)[b] == MigrateBucket(doubled, hp, slots, b)[b]
      && Grown(before, hp, slots)[b + half] == MigrateBucket(doubled, hp, slots, b)[b + half]
  {
  }

  /** What holds of the table while the buckets in `pending` wait to be split: where its entries come from, and which
    * buckets are what they will be. */
  ghost predicate Growing(before: Table, t: Table, hp: nat, slots: nat, pending: set<nat>)
  {
    ComesFrom(before, t, hp) && PartlyGrown(before, t, hp, slots, pending)
  }

  lemma GrowingStarts(before: Table, hp: nat, slots: nat)
    requires Shape(before, hp, slots)
    ensures Growing(before, before + EmptyTable(HashSize(hp), slots), hp, slots, Below(HashSize(hp)))
  {
    ComesFromAtStart(before, hp, slots);
    GrownAtStart(before, hp, slots);
  }

  lemma GrowingNext(before: Table, t: Table, t': Table, hp: nat, slots: nat, pending: set<nat>, b: nat)
    requires Growing(before, t, hp, slots, pending) && b in pending && Doubled(t, hp, slots, b)
    requires t' == MigrateBucket(t, hp, slots, b) && ComesFrom(before, t', hp)
    ensures Growing(before, t', hp, slots, pending - {b})
  {
    hide PartlyGrown, ComesFrom;
    GrownNext(before, t, hp, slots, pending, b);
  }

  lemma GrowingEnds(before: Table, t: Table, hp: nat, slots: nat)
    requires Growing(before, t, hp, slots, {})
    ensures Shape(before, hp, slots) && t == Grown(before, hp, slots) && ComesFrom(before, t, hp)
  {
    GrownAtEnd(before, t, hp, slots);
  }

  // ----- Which of its two places an entry takes -----

  /** Where the entries of bucket b belong once it is split: in the upper bucket those for which that is a candidate
    * then, all others where they are. */
  predicate GoesUp(hp: nat, k: Key, b: nat)
  {
    Cand(hp + 1, k, b + HashSize(hp))
  }

  function NewPlace(hp: nat, k: Key, b: nat): nat
  {
    if GoesUp(hp, k, b) then b + HashSize(hp) else b
  }

  /** Every entry of the old table is in its new place, with its partial and value. */
  ghost predicate AllInPlace(before: Table, t: Table, hp: nat)
  {
    forall b, s :: Occupied(before, b, s) ==> HasEntry(t, NewPlace(hp, before[b][s].key, b), before[b][s])
  }

  /** What splitting bucket b from `slot` on does to its entries, those still to come and those dealt with. */
  ghost predicate SplitPlaces(t: Table, t': Table, hp: nat, b: nat, slot: nat)
  {
    && (forall s :: Occupied(t, b, s) && s < slot ==> HasEntry(t', b, t[b][s]))
    && (forall s :: Occupied(t, b, s) && s >= slot ==> HasEntry(t', NewPlace(hp, t[b][s].key, b), t[b][s]))
    && KeepsEntries(t, t', b + HashSize(hp))
  }

  ghost predicate KeepsEntries(t: Table, t': Table, c: nat)
  {
    forall s :: Occupied(t, c, s) ==> HasEntry(t', c, t[c][s])
  }

  lemma SplittingAt(t: Table, hp: nat, slots: nat, pending: set<nat>, b: nat, slot: nat, used: nat)
    requires Splitting(t, hp, slots, pending, b, slot, used)
    ensures Doubled(t, hp, slots, b) && used <= slot <= slots
    ensures Occupied(t, b, slot) ==> Cand(hp, t[b][slot].key, b)
    ensures slot < slots ==> b < |t| && slot < |t[b]|
  {
    hide Cand, PartialKey, Unique;
    assert HashSize(hp + 1) == 2 * HashSize(hp);
  }

  lemma {:induction false} SplitPutsInPlace(
      t: Table, hp: nat, slots: nat, pending: set<nat>, b: nat, slot: nat, used: nat)
    requires Splitting(t, hp, slots, pending, b, slot, used)
    ensures SplitPlaces(t, MigrateFrom(t, hp, slots, b, slot, used), hp, b, slot)
    decreases slots - slot
  {
    hide MigrateFrom, Moves, Move, Cand, Unique, Splitting, SplitPlaces, Doubled, HashSize, Contents, Count;
    SplittingAt(t, hp, slots, pending, b, slot, used);
    MigrateStep(t, hp, slots, b, slot, used);
    if slot == slots {
      StaysPut(t, hp, slots, b);
    } else if t[b][slot].Full? && Moves(hp, t[b][slot].key, b) {
      var u := SplitUp(t, hp, slots, pending, b, slot, used);
      SplitPutsInPlace(u, hp, slots, pending, b, slot + 1, used + 1);
      MovedPlaces(t, MigrateFrom(u, hp, slots, b, slot + 1, used + 1), hp, slots, b, slot, used);
    } else {
      SplitKeepsEntry(t, hp, slots, pending, b, slot, used);
      SplitPutsInPlace(t, hp, slots, pending, b, slot + 1, used);
      KeptPlaces(t, MigrateFrom(t, hp, slots, b, slot + 1, used), hp, b, slot);
    }
  }

  lemma SplitUp(t: Table, hp: nat, slots: nat, pending: set<nat>, b: nat, slot: nat, used: nat) returns (u: Table)
    requires Splitting(t, hp, slots, pending, b, slot, used) && slot < slots
    requires Occupied(t, b, slot) && Moves(hp, t[b][slot].key, b)
    ensures b + HashSize(hp) < |t| && used < |t[b + HashSize(hp)]| && t[b + HashSize(hp)][used].Empty?
    ensures u == Move(t, b, slot, b + HashSize(hp), used) && Splitting(u, hp, slots, pending, b, slot + 1, used + 1)
    ensures Doubled(u, hp, slots, b)
  {
    hide Splitting, Moves, Move, Cand, HashSize, Contents, Count, Unique, Doubled, Shape;
    SplitTargetIsFree(t, hp, slots, pending, b, slot, used);
    SplitMovesEntry(t, hp, slots, pending, b, slot, used);
    u := Move(t, b, slot, b + HashSize(hp), used);
    SplittingAt(u, hp, slots, pending, b, slot + 1, used + 1);
  }

  lemma StaysPut(t: Table, hp: nat, slots: nat, b: nat)
    requires Doubled(t, hp, slots, b)
    ensures SplitPlaces(t, t, hp, b, slots)
  {
    hide Cand, HashSize;
    assert forall c, s :: Occupied(t, c, s) ==> HasEntry(t, c, t[c][s]);
  }

  lemma MovedPlaces(t: Table, t': Table, hp: nat, slots: nat, b: nat, slot: nat, used: nat)
    requires Doubled(t, hp, slots, b) && Occupied(t, b, slot) && Cand(hp, t[b][slot].key, b)
    requires Moves(hp, t[b][slot].key, b)
    requires b + HashSize(hp) < |t| && used < |t[b + HashSize(hp)]| && t[b + HashSize(hp)][used].Empty?
    requires SplitPlaces(Move(t, b, slot, b + HashSize(hp), used), t', hp, b, slot + 1)
    ensures SplitPlaces(t, t', hp, b, slot)
  {
    hide Cand, HashSize, Move, HasEntry;
    var c := b + HashSize(hp);
    MovesIsRight(hp, t[b][slot].key, b);
    MoveFrame(t, b, slot, c, used);
    var u := Move(t, b, slot, c, used);
    assert Occupied(u, c, used) && u[c][used] == t[b][slot];
  }

  lemma KeptPlaces(t: Table, t': Table, hp: nat, b: nat, slot: nat)
    requires SplitPlaces(t, t', hp, b, slot + 1)
    requires Occupied(t, b, slot) ==> Cand(hp, t[b][slot].key, b) && !Moves(hp, t[b][slot].key, b)
    ensures SplitPlaces(t, t', hp, b, slot)
  {
    hide Cand, HashSize, HasEntry, Moves, KeepsEntries;
    if Occupied(t, b, slot) {
      MovesIsRight(hp, t[b][slot].key, b);
    }
  }

  /** The doubled table has every entry in its place. */
  lemma GrownPutsInPlace(t: Table, hp: nat, slots: nat)
    requires TableOk(t, hp, slots, {})
    ensures AllInPlace(t, Grown(t, hp, slots), hp)
  {
    hide Grown, HashSize, PlacedExcept, Unique, HasEntry;
    forall b, s | Occupied(t, b, s)
      ensures HasEntry(Grown(t, hp, slots), NewPlace(hp, t[b][s].key, b), t[b][s])
    {
      EntryInPlace(t, hp, slots, b, s);
    }
  }

  lemma EntryInPlace(t: Table, hp: nat, slots: nat, b: nat, s: nat)
    requires TableOk(t, hp, slots, {}) && Occupied(t, b, s)
    ensures HasEntry(Grown(t, hp, slots), NewPlace(hp, t[b][s].key, b), t[b][s])
  {
    var doubled := t + EmptyTable(HashSize(hp), slots);
    DoubledPlaces(t, hp, slots, b);
    GrownAt(t, hp, slots, b);
    hide Grown, MigrateFrom, Cand, PlacedExcept, Unique, HashSize, EmptyTable, HasEntry, KeepsEntries;
    assert Occupied(doubled, b, s) && doubled[b][s] == t[b][s];
    var place := NewPlace(hp, t[b][s].key, b);
    var t' := MigrateBucket(doubled, hp, slots, b);
    assert HasEntry(t', place, t[b][s]);
    SameBucketSameEntry(t', Grown(t, hp, slots), place, t[b][s]);
  }

  lemma DoubledPlaces(t: Table, hp: nat, slots: nat, b: nat)
    requires TableOk(t, hp, slots, {}) && b < HashSize(hp)
    ensures var doubled := t + EmptyTable(HashSize(hp), slots);
      Doubled(doubled, hp, slots, b) && SplitPlaces(doubled, MigrateBucket(doubled, hp, slots, b), hp, b, 0)
  {
    var doubled := t + EmptyTable(HashSize(hp), slots);
    hide Cand, PlacedExcept, Unique, Splitting, Contents, Count, EmptyTable, SplitPlaces, MigrateFrom;
    DoubleStarts(t, hp, slots);
    SplitStart(doubled, hp, slots, Below(HashSize(hp)), b);
    SplitPutsInPlace(doubled, hp, slots, Below(HashSize(hp)), b, 0, 0);
  }

  lemma SameBucketSameEntry(t: Table, u: Table, b: nat, x: Slot)
    requires HasEntry(t, b, x) && b < |u| && t[b] == u[b]
    ensures HasEntry(u, b, x)
  {
    var s :| Occupied(t, b, s) && t[b][s] == x;
    assert Occupied(u, b, s);
  }

  // ----- The doubled table holds the same map -----

  /** The table with the first n buckets split, in order. */
  function SplitUpTo(t: Table, hp: nat, slots: nat, n: nat): (t': Table)
    requires Shape(t, hp, slots) && n <= HashSize(hp)
    ensures Shape(t', hp + 1, slots)
  {
    if n == 0 then Widened(t, hp, slots) else MigrateBucket(SplitUpTo(t, hp, slots, n - 1), hp, slots, n - 1)
  }

  function Widened(t: Table, hp: nat, slots: nat): (t': Table)
    requires Shape(t, hp, slots)
    ensures Shape(t', hp + 1, slots) && t' == t + EmptyTable(HashSize(hp), slots)
  {
    assert HashSize(hp + 1) == 2 * HashSize(hp);
    t + EmptyTable(HashSize(hp), slots)
  }

  lemma {:induction false} SplitUpToKeepsMap(t: Table, hp: nat, slots: nat, n: nat)
    requires TableOk(t, hp, slots, {}) && n <= HashSize(hp)
    ensures var t' := SplitUpTo(t, hp, slots, n);
      && Unique(t') && PlacedExcept(t', hp + 1, Below(HashSize(hp)) - Below(n))
      && Contents(t') == Contents(t) && Count(t') == Count(t)
      && PartlyGrown(t, t', hp, slots, Below(HashSize(hp)) - Below(n))
  {
    hide HashSize, Cand, PartialKey, Unique, PlacedExcept, Contents, Count, PartlyGrown, MigrateBucket;
    if n == 0 {
      DoubleStarts(t, hp, slots);
      GrownAtStart(t, hp, slots);
      assert Below(HashSize(hp)) - Below(0) == Below(HashSize(hp));
    } else {
      var u, pending := SplitUpTo(t, hp, slots, n - 1), Below(HashSize(hp)) - Below(n - 1);
      SplitUpToKeepsMap(t, hp, slots, n - 1);
      MigrateBucketKeepsMap(u, hp, slots, pending, n - 1);
      GrownNext(t, u, hp, slots, pending, n - 1);
      assert pending - {n - 1} == Below(HashSize(hp)) - Below(n);
    }
  }

  /** A doubled table satisfies the table invariant and holds the same map. */
  lemma GrownKeepsMap(t: Table, hp: nat, slots: nat)
    requires TableOk(t, hp, slots, {})
    ensures TableOk(Grown(t, hp, slots), hp + 1, slots, {})
    ensures Contents(Grown(t, hp, slots)) == Contents(t)
  {
    hide HashSize, Cand, PartialKey, Unique, PlacedExcept, Contents, Count, PartlyGrown, Grown, SplitUpTo;
    SplitUpToKeepsMap(t, hp, slots, HashSize(hp));
    assert Below(HashSize(hp)) - Below(HashSize(hp)) == {};
    GrownAtEnd(t, SplitUpTo(t, hp, slots, HashSize(hp)), hp, slots);
  }
}
