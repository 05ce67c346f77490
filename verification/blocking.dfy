/** Hash powers at which a rebuild may get stuck: some table of that size holds part of the entries and has no room for
  * another one of them. */
module Blocking {
  import opened Hashing
  import opened Tables
  import opened TableSteps
  import opened Bfs
  import opened SearchOrder
  import opened Crowding

  ghost predicate PartOf(part: map<Key, Value>, m: map<Key, Value>)
  {
    forall k :: k in part ==> k in m && m[k] == part[k]
  }

  /** The table holds part of m, and no room for this further key of m. */
  ghost predicate Blocks(t: Table, hp: nat, slots: nat, m: map<Key, Value>, key: Key)
  {
    && TableOk(t, hp, slots, {}) && PartOf(Contents(t), m)
    && key in m && key !in Contents(t) && NoRoomIn(t, hp, slots, key)
  }

  ghost predicate Blocked(hp: nat, slots: nat, m: map<Key, Value>)
  {
    exists t, key :: Blocks(t, hp, slots, m, key)
  }

  /** Every hash power from `low` up to, but not including, `high` is blocked. */
  ghost predicate BlockedBelow(low: nat, high: nat, slots: nat, m: map<Key, Value>)
  {
    forall hp: nat :: low <= hp < high ==> Blocked(hp, slots, m)
  }

  lemma BlockedNowhere(hp: nat, slots: nat, m: map<Key, Value>)
    ensures BlockedBelow(hp, hp, slots, m)
  {
  }

  lemma BlockedUpTo(low: nat, high: nat, slots: nat, m: map<Key, Value>)
    requires BlockedBelow(low, high, slots, m) && Blocked(high, slots, m)
    ensures BlockedBelow(low, high + 1, slots, m)
  {
  }

  lemma BlockedOnwards(low: nat, mid: nat, high: nat, slots: nat, m: map<Key, Value>)
    requires BlockedBelow(low, mid, slots, m) && BlockedBelow(mid, high, slots, m)
    ensures BlockedBelow(low, high, slots, m)
  {
  }

  /** Two full buckets bound the number of entries from below. */
  lemma {:induction false} TwoFullBuckets(t: Table, b: nat, c: nat)
    requires b < |t| && c < |t| && b != c && Crowding.Full(t[b]) && Crowding.Full(t[c])
    ensures Count(t) >= |t[b]| + |t[c]|
    decreases |t|
  {
    hide Crowding.Full, BucketCount;
    var n := |t| - 1;
    if b == n {
      FullBucketCount(t[b]);
      FullBucketBound(t[..n], c);
    } else if c == n {
      FullBucketCount(t[c]);
      FullBucketBound(t[..n], b);
    } else {
      TwoFullBuckets(t[..n], b, c);
    }
  }

  lemma FullIsFull(t: Table, slots: nat, b: nat)
    requires b < |t| && |t[b]| == slots && BucketFull(t, slots, b)
    ensures Crowding.Full(t[b])
  {
    forall s | 0 <= s < |t[b]|
      ensures t[b][s].Full?
    {
      assert Occupied(t, b, s);
    }
  }

  lemma {:induction false} PartSize(part: map<Key, Value>, m: map<Key, Value>, key: Key)
    requires PartOf(part, m) && key in m && key !in part
    ensures |part| < |m|
  {
    assert part.Keys + {key} <= m.Keys;
    SubsetSize(part.Keys + {key}, m.Keys);
  }

  /** A hash power blocks a rebuild only if there are more entries than a bucket has slots, and from 2^9 buckets on
    * only if there are more than two buckets have. */
  lemma BlockedNeedsEntries(hp: nat, slots: nat, m: map<Key, Value>)
    requires Blocked(hp, slots, m)
    ensures |m| > slots
    ensures 9 <= hp <= 64 ==> |m| > 2 * slots
  {
    var t, key :| Blocks(t, hp, slots, m, key);
    PartSize(Contents(t), m, key);
    var b, c := First(hp, key), Second(hp, key);
    FullPair(t, hp, slots, key);
    hide First, Second, PlacedExcept, Unique, Contents, NoRoomIn;
    CountIsSize(t);
    FullBucketBound(t, b);
    if 9 <= hp <= 64 {
      CandidatesDifferFrom9(hp, key.hash, b);
      OtherCandidate(hp, key);
      TwoFullBuckets(t, b, c);
    }
  }

  lemma OtherCandidate(hp: nat, k: Key)
    ensures Second(hp, k) == AltIndex(hp, PartialKey(k.hash), First(hp, k))
  {
  }

  lemma FullPair(t: Table, hp: nat, slots: nat, key: Key)
    requires Shape(t, hp, slots) && NoRoomIn(t, hp, slots, key)
    ensures First(hp, key) < |t| && Crowding.Full(t[First(hp, key)]) && |t[First(hp, key)]| == slots
    ensures Second(hp, key) < |t| && Crowding.Full(t[Second(hp, key)]) && |t[Second(hp, key)]| == slots
  {
    hide First, Second, NothingFree, BucketFull;
    FullIsFull(t, slots, First(hp, key));
    FullIsFull(t, slots, Second(hp, key));
  }
}
