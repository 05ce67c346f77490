/** Splitting the buckets of a table whose bucket array has just been doubled. */
module Migration {
  import opened Hashing
  import opened Tables

  /** The test under which a key of bucket `b` is moved when the hash power grows from `hp` to `hp + 1`. */
  predicate Moves(hp: nat, k: Key, b: nat)
  {
    || (b == First(hp, k) && First(hp + 1, k) == b + HashSize(hp))
    || (b == Second(hp, k) && Second(hp + 1, k) == b + HashSize(hp))
  }

  /** A key is moved exactly if the upper bucket is one of its candidates afterwards; if not, the bucket it is in is
    * one. This includes the keys whose two candidates coincided, and are kept apart by the doubling or not. */
  lemma MovesIsRight(hp: nat, k: Key, b: nat)
    requires Cand(hp, k, b)
    ensures Moves(hp, k, b) <==> Cand(hp + 1, k, b + HashSize(hp))
    ensures !Moves(hp, k, b) ==> Cand(hp + 1, k, b)
  {
    CandidatesAfterDoubling(hp, k);
  }

  predicate Doubled(t: Table, hp: nat, slots: nat, b: nat)
  {
    Shape(t, hp + 1, slots) && b < HashSize(hp)
  }

  /** The table once slots `slot..` of bucket `b` have been dealt with, when `used` entries already moved. */
  function MigrateFrom(t: Table, hp: nat, slots: nat, b: nat, slot: nat, used: nat): (t': Table)
    requires Doubled(t, hp, slots, b) && used <= slot <= slots
    ensures Shape(t', hp + 1, slots)
    ensures forall c :: 0 <= c < |t| && c != b && c != b + HashSize(hp) ==> t'[c] == t[c]
    decreases slots - slot
  {
    if slot == slots then t
    else if Occupied(t, b, slot) && Moves(hp, t[b][slot].key, b)
    then MigrateFrom(Move(t, b, slot, b + HashSize(hp), used), hp, slots, b, slot + 1, used + 1)
    else MigrateFrom(t, hp, slots, b, slot + 1, used)
  }

  function MigrateBucket(t: Table, hp: nat, slots: nat, b: nat): (t': Table)
    requires Doubled(t, hp, slots, b)
    ensures Shape(t', hp + 1, slots)
    ensures forall c :: 0 <= c < |t| && c != b && c != b + HashSize(hp) ==> t'[c] == t[c]
  {
    MigrateFrom(t, hp, slots, b, 0, 0)
  }

  lemma MigrateStep(t: Table, hp: nat, slots: nat, b: nat, slot: nat, used: nat)
    requires Doubled(t, hp, slots, b) && used <= slot <= slots
    ensures slot == slots ==> MigrateFrom(t, hp, slots, b, slot, used) == t
    ensures slot < slots && t[b][slot].Full? && Moves(hp, t[b][slot].key, b) ==>
      MigrateFrom(t, hp, slots, b, slot, used)
        == MigrateFrom(Move(t, b, slot, b + HashSize(hp), used), hp, slots, b, slot + 1, used + 1)
    ensures slot < slots && !(t[b][slot].Full? && Moves(hp, t[b][slot].key, b)) ==>
      MigrateFrom(t, hp, slots, b, slot, used) == MigrateFrom(t, hp, slots, b, slot + 1, used)
  {
    hide Moves, Move;
  }

  /** What holds while bucket `b` is being split: slots below `slot` are settled, `used` entries moved. */
  ghost predicate Splitting(t: Table, hp: nat, slots: nat, pending: set<nat>, b: nat, slot: nat, used: nat)
  {
    && Doubled(t, hp, slots, b) && b in pending && used <= slot <= slots && Unique(t)
    && (forall c :: c in pending ==> c < HashSize(hp))
    && (forall c, s :: Occupied(t, c, s) ==>
         && t[c][s].partial == PartialKey(t[c][s].key.hash)
         && if c in pending && (c != b || s >= slot) then Cand(hp, t[c][s].key, c) else Cand(hp + 1, t[c][s].key, c))
    && (forall c, s :: Occupied(t, c, s) && c - HashSize(hp) in pending ==> c == b + HashSize(hp) && s < used)
  }

  lemma SplitStart(t: Table, hp: nat, slots: nat, pending: set<nat>, b: nat)
    requires Shape(t, hp + 1, slots) && Unique(t) && PlacedExcept(t, hp + 1, pending) && b in pending
    ensures Splitting(t, hp, slots, pending, b, 0, 0)
  {
  }

  lemma SplitEnd(t: Table, hp: nat, slots: nat, pending: set<nat>, b: nat, used: nat)
    requires Splitting(t, hp, slots, pending, b, slots, used)
    ensures Shape(t, hp + 1, slots) && Unique(t) && PlacedExcept(t, hp + 1, pending - {b})
  {
  }

  lemma SplitKeepsEntry(t: Table, hp: nat, slots: nat, pending: set<nat>, b: nat, slot: nat, used: nat)
    requires Splitting(t, hp, slots, pending, b, slot, used) && slot < slots
    requires Occupied(t, b, slot) ==> !Moves(hp, t[b][slot].key, b)
    ensures Splitting(t, hp, slots, pending, b, slot + 1, used)
  {
    if Occupied(t, b, slot) {
      MovesIsRight(hp, t[b][slot].key, b);
    }
  }

  /** The target slot is free: fewer entries have moved than slots have been looked at. */
  lemma SplitTargetIsFree(t: Table, hp: nat, slots: nat, pending: set<nat>, b: nat, slot: nat, used: nat)
    requires Splitting(t, hp, slots, pending, b, slot, used) && slot < slots
    ensures b + HashSize(hp) < |t| && used < |t[b + HashSize(hp)]| && t[b + HashSize(hp)][used].Empty?
  {
    hide Cand, PartialKey, Unique;
    var c := b + HashSize(hp);
    assert HashSize(hp + 1) == 2 * HashSize(hp);
    assert c - HashSize(hp) == b;
    assert Occupied(t, c, used) ==> used < used;
  }

  /** Moving the entry to the free slot keeps the map and settles one more slot. */
  lemma SplitMovesEntry(t: Table, hp: nat, slots: nat, pending: set<nat>, b: nat, slot: nat, used: nat)
    requires Splitting(t, hp, slots, pending, b, slot, used) && slot < slots
    requires Occupied(t, b, slot) && Moves(hp, t[b][slot].key, b)
    ensures !Occupied(t, b + HashSize(hp), used)
    ensures var t' := Move(t, b, slot, b + HashSize(hp), used);
      && Splitting(t', hp, slots, pending, b, slot + 1, used + 1)
      && Contents(t') == Contents(t)
      && Count(t') == Count(t)
  {
    SplitTargetIsFree(t, hp, slots, pending, b, slot, used);
    SplitIsUnique(t, hp, slots, pending, b, slot, used);
    hide Splitting, Moves, Move, Contents, Count, Unique, HashSize;
    var c := b + HashSize(hp);
    MoveKeepsContents(t, b, slot, c, used);
    CountMove(t, b, slot, c, used);
    SplitMoveSettles(t, hp, slots, pending, b, slot, used);
  }

  lemma SplitIsUnique(t: Table, hp: nat, slots: nat, pending: set<nat>, b: nat, slot: nat, used: nat)
    requires Splitting(t, hp, slots, pending, b, slot, used)
    ensures Unique(t)
  {
    hide Cand, PartialKey, Unique, HashSize;
  }

  lemma SplitMoveSettles(t: Table, hp: nat, slots: nat, pending: set<nat>, b: nat, slot: nat, used: nat)
    requires Splitting(t, hp, slots, pending, b, slot, used) && slot < slots
    requires Occupied(t, b, slot) && Moves(hp, t[b][slot].key, b) && !Occupied(t, b + HashSize(hp), used)
    requires Unique(Move(t, b, slot, b + HashSize(hp), used))
    ensures Splitting(Move(t, b, slot, b + HashSize(hp), used), hp, slots, pending, b, slot + 1, used + 1)
  {
    hide Cand, PartialKey, Unique, Move;
    MovesIsRight(hp, t[b][slot].key, b);
    MoveFrame(t, b, slot, b + HashSize(hp), used);
  }

  /** Splitting one bucket keeps the map, settles that bucket and leaves the other pending ones alone. */
  lemma {:induction false} MigrateFromKeepsMap(
      t: Table, hp: nat, slots: nat, pending: set<nat>, b: nat, slot: nat, used: nat)
    requires Splitting(t, hp, slots, pending, b, slot, used)
    ensures var t' := MigrateFrom(t, hp, slots, b, slot, used);
      && Unique(t') && PlacedExcept(t', hp + 1, pending - {b})
      && Contents(t') == Contents(t)
      && Count(t') == Count(t)
    decreases slots - slot
  {
    hide Contents, Count, Unique, PlacedExcept, Cand, PartialKey, Moves, Move, MigrateFrom;
    MigrateStep(t, hp, slots, b, slot, used);
    if slot == slots {
      SplitEnd(t, hp, slots, pending, b, used);
    } else if Occupied(t, b, slot) && Moves(hp, t[b][slot].key, b) {
      SplitMovesEntry(t, hp, slots, pending, b, slot, used);
      MigrateFromKeepsMap(Move(t, b, slot, b + HashSize(hp), used), hp, slots, pending, b, slot + 1, used + 1);
    } else {
      SplitKeepsEntry(t, hp, slots, pending, b, slot, used);
      MigrateFromKeepsMap(t, hp, slots, pending, b, slot + 1, used);
    }
  }

  lemma MigrateBucketKeepsMap(t: Table, hp: nat, slots: nat, pending: set<nat>, b: nat)
    requires Shape(t, hp + 1, slots) && Unique(t) && PlacedExcept(t, hp + 1, pending) && b in pending
    requires b < HashSize(hp)
    ensures var t' := MigrateBucket(t, hp, slots, b);
      && Unique(t') && PlacedExcept(t', hp + 1, pending - {b})
      && Contents(t') == Contents(t)
      && Count(t') == Count(t)
  {
    SplitStart(t, hp, slots, pending, b);
    MigrateFromKeepsMap(t, hp, slots, pending, b, 0, 0);
  }

  /** Doubling the bucket array makes every old bucket pending and keeps the map. */
  lemma DoubleStarts(t: Table, hp: nat, slots: nat)
    requires Shape(t, hp, slots) && Unique(t) && Placed(t, hp)
    ensures var t' := t + EmptyTable(HashSize(hp), slots);
      && Shape(t', hp + 1, slots) && Unique(t')
      && PlacedExcept(t', hp + 1, Below(HashSize(hp)))
      && Contents(t') == Contents(t)
      && Count(t') == Count(t)
  {
    hide Cand, PartialKey, Contents, Count, Unique;
    var t' := t + EmptyTable(HashSize(hp), slots);
    AppendEmptyKeepsContents(t, HashSize(hp), slots);
    assert forall b, s :: Occupied(t', b, s) ==> b < HashSize(hp) && Occupied(t, b, s) && t'[b][s] == t[b][s];
  }
}
