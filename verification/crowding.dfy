/** How many entries a table can hold, in all and with one hash. */
module Crowding {
  import opened Hashing
  import opened Tables
  import opened TableSteps

  lemma {:induction false} BucketCountBound(bucket: Bucket)
    ensures BucketCount(bucket) <= |bucket|
  {
    if bucket != [] {
      BucketCountBound(bucket[..|bucket| - 1]);
    }
  }

  lemma {:induction false} CountBound(t: Table, slots: nat)
    requires forall b :: 0 <= b < |t| ==> |t[b]| == slots
    ensures Count(t) <= slots * |t|
  {
    if t != [] {
      var n := |t| - 1;
      CountBound(t[..n], slots);
      BucketCountBound(t[n]);
      assert slots * |t| == slots * n + slots;
    }
  }

  ghost predicate Full(bucket: Bucket)
  {
    forall s :: 0 <= s < |bucket| ==> bucket[s].Full?
  }

  lemma {:induction false} FullBucketCount(bucket: Bucket)
    requires Full(bucket)
    ensures BucketCount(bucket) == |bucket|
  {
    if bucket != [] {
      FullBucketCount(bucket[..|bucket| - 1]);
    }
  }

  /** A table with a full bucket has at least as many entries as that bucket has slots. */
  lemma {:induction false} FullBucketBound(t: Table, b: nat)
    requires b < |t| && Full(t[b])
    ensures Count(t) >= |t[b]|
  {
    hide Full, BucketCount;
    var n := |t| - 1;
    if b == n {
      FullBucketCount(t[b]);
    } else {
      FullBucketBound(t[..n], b);
    }
  }

  /** The keys of m with this hash. */
  ghost function Colliding(m: map<Key, Value>, hash: Word): (ks: set<Key>)
    ensures forall k :: k in ks <==> k in m && k.hash == hash
  {
    set k | k in m && k.hash == hash
  }

  ghost function KeysIn(bucket: Bucket): (ks: set<Key>)
    ensures forall s :: 0 <= s < |bucket| && bucket[s].Full? ==> bucket[s].key in ks
  {
    if bucket == [] then {}
    else
      var rest, last := KeysIn(bucket[..|bucket| - 1]), bucket[|bucket| - 1];
      if last.Full? then rest + {last.key} else rest
  }

  lemma {:induction false} KeysInBound(bucket: Bucket)
    ensures |KeysIn(bucket)| <= |bucket|
  {
    if bucket != [] {
      KeysInBound(bucket[..|bucket| - 1]);
    }
  }

  lemma SubsetSize(a: set<Key>, b: set<Key>)
    requires a <= b
    ensures |a| <= |b|
  {
    assert b == a + (b - a);
  }

  /** The keys of this hash numbered from 0 to n. */
  ghost function Numbered(hash: Word, n: nat): (ks: set<Key>)
    ensures |ks| == n
    ensures forall k :: k in ks ==> 0 <= k.id < n && k.hash == hash
  {
    if n == 0 then {} else Numbered(hash, n - 1) + {Key(n - 1, hash)}
  }

  lemma NumberedKeys(m: map<Key, Value>, hash: Word, n: nat)
    requires forall j :: 0 <= j < n ==> Key(j, hash) in m
    ensures |Colliding(m, hash)| >= n
  {
    forall k | k in Numbered(hash, n)
      ensures k in Colliding(m, hash)
    {
      assert k == Key(k.id, hash);
    }
    SubsetSize(Numbered(hash, n), Colliding(m, hash));
  }

  lemma StoredInBuckets(t: Table, hp: nat, k: Key)
    requires Placed(t, hp) && |t| == HashSize(hp) && Stores(t, k)
    ensures k in KeysIn(t[First(hp, k)]) + KeysIn(t[Second(hp, k)])
  {
    hide PartialKey, First, Second;
    var b, s :| Occupied(t, b, s) && t[b][s].key == k;
    assert Cand(hp, k, b);
  }

  /** Keys with one hash share their two buckets, so no table, however large, holds more than 2 * slots of them. */
  lemma CollidingBound(t: Table, hp: nat, slots: nat, hash: Word)
    requires TableOk(t, hp, slots, {})
    ensures |Colliding(Contents(t), hash)| <= 2 * slots
  {
    hide PartialKey, First, Second, PlacedExcept, Unique, KeysIn;
    var any := Key(0, hash);
    var b0, b1 := t[First(hp, any)], t[Second(hp, any)];
    forall k | k in Colliding(Contents(t), hash)
      ensures k in KeysIn(b0) + KeysIn(b1)
    {
      assert Stores(t, k);
      StoredInBuckets(t, hp, k);
      SameBuckets(hp, any, k);
    }
    SubsetSize(Colliding(Contents(t), hash), KeysIn(b0) + KeysIn(b1));
    KeysInBound(b0);
    KeysInBound(b1);
  }

  lemma SameBuckets(hp: nat, j: Key, k: Key)
    requires j.hash == k.hash
    ensures First(hp, j) == First(hp, k) && Second(hp, j) == Second(hp, k)
  {
  }

  /** A table with nothing in it. */
  lemma NothingStored(t: Table, hp: nat, slots: nat)
    requires hp > 0 && Shape(t, hp, slots) && forall b, s :: !Occupied(t, b, s)
    ensures TableOk(t, hp, slots, {}) && Contents(t) == map[] && Count(t) == 0
  {
    hide PartialKey, Cand;
    EmptyTableCount(t);
    SameContents(t, map[]);
  }
}
