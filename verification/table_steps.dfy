/** The elementary writes to a table and the invariant they keep. Each is stated for a table that may be in
  * the middle of a doubling, with some buckets still to be migrated. */
module TableSteps {
  import opened Hashing
  import opened Tables

  /** The table invariant: bucket array of the right shape, no key twice, every key in its place. */
  ghost predicate TableOk(t: Table, hp: nat, slots: nat, pending: set<nat>)
  {
    hp > 0 && Shape(t, hp, slots) && Unique(t) && PlacedExcept(t, hp, pending)
  }

  /** Bucket b is neither waiting to be migrated nor the upper half of one that is. */
  predicate Settled(hp: nat, pending: set<nat>, b: nat)
    requires hp > 0
  {
    b !in pending && b - HashSize(hp - 1) !in pending
  }

  function Entry(k: Key, v: Value): Slot
  {
    Full(PartialKey(k.hash), k, v)
  }

  lemma InsertKeepsOk(t: Table, hp: nat, slots: nat, pending: set<nat>, b: nat, s: nat, k: Key, v: Value)
    requires TableOk(t, hp, slots, pending) && b < |t| && s < slots && t[b][s].Empty? && k !in Contents(t)
    requires Settled(hp, pending, b) && Cand(hp, k, b)
    ensures var t' := Put(t, b, s, Entry(k, v));
      && TableOk(t', hp, slots, pending)
      && Contents(t') == Contents(t)[k := v]
      && Count(t') == Count(t) + 1
  {
    hide Cand, PartialKey, Contents, Count, Unique;
    PutNewEntry(t, b, s, Entry(k, v));
    PutFrame(t, b, s, Entry(k, v));
    CountPut(t, b, s, Entry(k, v));
  }

  lemma EraseKeepsOk(t: Table, hp: nat, slots: nat, pending: set<nat>, b: nat, s: nat)
    requires TableOk(t, hp, slots, pending) && Occupied(t, b, s)
    ensures var t' := Put(t, b, s, Empty);
      && TableOk(t', hp, slots, pending)
      && Contents(t') == Contents(t) - {t[b][s].key}
      && Count(t') == Count(t) - 1
  {
    hide Cand, PartialKey, Contents, Count, Unique;
    EraseEntry(t, b, s);
    PutFrame(t, b, s, Empty);
    CountPut(t, b, s, Empty);
  }

  lemma UpdateKeepsOk(t: Table, hp: nat, slots: nat, pending: set<nat>, b: nat, s: nat, v: Value)
    requires TableOk(t, hp, slots, pending) && Occupied(t, b, s)
    ensures var t' := Put(t, b, s, t[b][s].(val := v));
      && TableOk(t', hp, slots, pending)
      && Contents(t') == Contents(t)[t[b][s].key := v]
      && Count(t') == Count(t)
  {
    hide Cand, PartialKey, Contents, Count, Unique;
    SetEntryValue(t, b, s, v);
    PutFrame(t, b, s, t[b][s].(val := v));
    CountPut(t, b, s, t[b][s].(val := v));
  }

  /** One kick. Only the hash of the entry moved has to be the expected one: a different key with the same
    * hash is just as welcome in the target bucket. */
  lemma KickKeepsOk(
      t: Table, hp: nat, slots: nat, pending: set<nat>, b: nat, s: nat, c: nat, r: nat, hash: Word)
    requires TableOk(t, hp, slots, pending) && Occupied(t, b, s) && c < |t| && r < slots && t[c][r].Empty?
    requires t[b][s].key.hash == hash && c == AltIndex(hp, PartialKey(hash), b)
    requires Settled(hp, pending, b) && Settled(hp, pending, c)
    ensures var t' := Move(t, b, s, c, r);
      && TableOk(t', hp, slots, pending)
      && Contents(t') == Contents(t)
      && Count(t') == Count(t)
  {
    hide Cand, PartialKey, Contents, Count, AltIndex, Move, Unique;
    KickLandsOnCandidate(hp, t[b][s].key, b);
    MoveKeepsContents(t, b, s, c, r);
    MoveKeepsPlaced(t, hp, pending, b, s, c, r);
    MoveFrame(t, b, s, c, r);
    CountMove(t, b, s, c, r);
  }

  lemma MoveKeepsPlaced(t: Table, hp: nat, pending: set<nat>, b: nat, s: nat, c: nat, r: nat)
    requires hp > 0 && PlacedExcept(t, hp, pending) && Occupied(t, b, s)
    requires c < |t| && r < |t[c]| && t[c][r].Empty? && Settled(hp, pending, c) && Cand(hp, t[b][s].key, c)
    ensures PlacedExcept(Move(t, b, s, c, r), hp, pending)
  {
    hide Cand, PartialKey, Move;
    MoveFrame(t, b, s, c, r);
  }

  /** A key whose two buckets are settled is stored exactly when one of them holds it: no key hides in a
    * bucket that still waits to be migrated. */
  lemma LookupMidDoubling(t: Table, hp: nat, slots: nat, pending: set<nat>, k: Key)
    requires TableOk(t, hp, slots, pending)
    requires First(hp, k) % HashSize(hp - 1) !in pending && Second(hp, k) % HashSize(hp - 1) !in pending
    ensures k in Contents(t) <==> SlotOf(t[First(hp, k)], k) >= 0 || SlotOf(t[Second(hp, k)], k) >= 0
  {
    hide First, Second, PartialKey, Unique, SlotOf, HashSize;
    var i1, i2 := First(hp, k), Second(hp, k);
    assert SlotOf(t[i1], k) >= 0 ==> Occupied(t, i1, SlotOf(t[i1], k));
    assert SlotOf(t[i2], k) >= 0 ==> Occupied(t, i2, SlotOf(t[i2], k));
    if k in Contents(t) {
      assert Stores(t, k);
      var b, s :| Occupied(t, b, s) && t[b][s].key == k;
      StoredInCandidate(t, hp, pending, b, s);
    }
  }

  lemma StoredInCandidate(t: Table, hp: nat, pending: set<nat>, b: nat, s: nat)
    requires hp > 0 && PlacedExcept(t, hp, pending) && Occupied(t, b, s)
    requires First(hp, t[b][s].key) % HashSize(hp - 1) !in pending
    requires Second(hp, t[b][s].key) % HashSize(hp - 1) !in pending
    ensures b !in pending && Cand(hp, t[b][s].key, b)
  {
    hide First, Second, PartialKey;
    CandidatesAfterDoubling(hp - 1, t[b][s].key);
  }
}
