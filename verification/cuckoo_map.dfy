/** The hash table as one thread sees it when no other thread runs: a mutable object that refines a map. */
module CuckooMaps {
  import opened Options
  import opened Bits
  import opened Hashing
  import opened Tables
  import opened TableSteps
  import opened Migration
  import opened Locks
  import opened LazyArrays
  import opened Counters
  import opened Bfs
  import opened SearchOrder
  import opened SlotSearches
  import opened CuckooPaths
  import opened Doubling
  import opened Crowding
  import opened Rebuilding
  import opened Sizing
  import opened Blocking

  datatype Status = Success | Failure | KeyDuplicated | TableFull | UnderExpansion

  /** No limit on the hash power. */
  const NO_MAXIMUM_HASHPOWER := 0

  /** Every stored partial is that of its key, so comparing partials first never hides a key. */
  ghost predicate PartialsOk(bucket: Bucket)
  {
    forall s :: 0 <= s < |bucket| && bucket[s].Full? ==> bucket[s].partial == PartialKey(bucket[s].key.hash)
  }

  ghost predicate FreeOf(bucket: Bucket, k: Key, n: nat)
    requires n <= |bucket|
  {
    forall s :: 0 <= s < n && bucket[s].Full? ==> bucket[s].key != k
  }

  lemma SlotOfIsFirst(bucket: Bucket, k: Key, s: nat)
    requires s < |bucket| && bucket[s].Full? && bucket[s].key == k && FreeOf(bucket, k, s)
    ensures SlotOf(bucket, k) == s
    decreases |bucket|
  {
    var n := |bucket| - 1;
    if s < n {
      SlotOfIsFirst(bucket[..n], k, s);
    } else {
      assert SlotOf(bucket[..n], k) < 0;
    }
  }

  lemma NoSlotOf(bucket: Bucket, k: Key)
    requires FreeOf(bucket, k, |bucket|)
    ensures SlotOf(bucket, k) == -1
  {
  }

  lemma EmptySlotIsFirst(bucket: Bucket, s: nat)
    requires s < |bucket| && bucket[s].Empty? && forall r :: 0 <= r < s ==> bucket[r].Full?
    ensures EmptySlot(bucket) == s
  {
  }

  /** The search that every bucket operation makes: partials are compared first unless keys are simple. */
  method FindInBucket(simple: bool, partial: nat, key: Key, bucket: Bucket) returns (slot: int)
    requires partial == PartialKey(key.hash) && PartialsOk(bucket)
    ensures slot == SlotOf(bucket, key)
  {
    hide SlotOf, PartialKey;
    var i := 0;
    while i < |bucket|
      invariant 0 <= i <= |bucket| && FreeOf(bucket, key, i)
    {
      if bucket[i].Full? && (simple || partial == bucket[i].partial) && bucket[i].key == key {
        SlotOfIsFirst(bucket, key, i);
        return i;
      }
      i := i + 1;
    }
    NoSlotOf(bucket, key);
    return -1;
  }

  /** Looks for the key in the whole bucket and remembers the first free slot on the way. */
  method TryFindInsertBucket(simple: bool, partial: nat, key: Key, bucket: Bucket) returns (absent: bool, slot: int)
    requires partial == PartialKey(key.hash) && PartialsOk(bucket)
    ensures absent <==> SlotOf(bucket, key) < 0
    ensures absent ==> slot == EmptySlot(bucket)
  {
    hide SlotOf, PartialKey;
    slot := -1;
    var i := 0;
    while i < |bucket|
      invariant 0 <= i <= |bucket| && FreeOf(bucket, key, i) && -1 <= slot < i
      invariant slot >= 0 ==> bucket[slot].Empty? && forall r :: 0 <= r < slot ==> bucket[r].Full?
      invariant slot < 0 ==> forall r :: 0 <= r < i ==> bucket[r].Full?
    {
      if bucket[i].Full? {
        if (simple || partial == bucket[i].partial) && bucket[i].key == key {
          SlotOfIsFirst(bucket, key, i);
          return false, slot;
        }
      } else if slot < 0 {
        slot := i;
      }
      i := i + 1;
    }
    NoSlotOf(bucket, key);
    if slot >= 0 {
      EmptySlotIsFirst(bucket, slot);
    }
    return true, slot;
  }

  /** The hash power for n entries, in words: the sum that rounds n up may wrap. */
  method ReserveCalc(slots: nat, n: nat) returns (hp: nat)
    requires SlotsFit(slots) && n < WORD && BucketsFor(slots, n) <= HashSize(MAX_HASHPOWER)
    ensures hp == PowerFor(slots, n) && 1 <= hp <= MAX_HASHPOWER
    ensures LeastFor(slots, n, hp) <==> n + slots - 1 < WORD
  {
    hide SlotsFit, LeastFor;
    Positive(slots);
    PowerForIsLeast(slots, n);
    var buckets := (n + slots - 1) % WORD / slots;
    hp := 1;
    while HashSize(hp) < buckets
      invariant 1 <= hp <= MAX_HASHPOWER
      invariant LeastPower(buckets, 1) == LeastPower(buckets, hp)
      decreases MAX_HASHPOWER - hp
    {
      hp := hp + 1;
    }
  }

  /** What is fixed when a table type is built: the locks are allocated in equal segments, and the allocator never
    * grants more slots than a word can count. */
  predicate BuildOk(slots: nat, segment: nat, maxAlloc: nat): (ok: bool)
    ensures ok ==> slots > 0
  {
    && SlotsFit(slots) && segment > 0 && NUM_LOCKS % segment == 0
    && 0 < maxAlloc < MAX_HASHPOWER && slots * HashSize(maxAlloc) < WORD
  }

  class CuckooMap {
    const slots: nat
    const simple: bool     // small keys: partials are not compared
    const segment: nat     // how many locks are allocated together
    const maxAlloc: nat    // the largest hash power the allocator grants
    var hashpower: nat
    var buckets: Table
    var elems: seq<nat>    // the counter in each allocated lock
    var held: set<nat>     // the locks this thread holds
    var mlfNum: nat        // the minimum load factor, as a fraction
    var mlfDen: nat
    var mhp: nat

    /** The invariant while the buckets in `pending` wait to be migrated, except that the allocated locks cover
      * the table. */
    ghost predicate CoreExcept(pending: set<nat>)
      reads this`hashpower, this`buckets, this`elems, this`mlfNum, this`mlfDen
    {
      && BuildOk(slots, segment, maxAlloc)
      && hashpower <= maxAlloc
      && mlfNum <= mlfDen && mlfDen > 0
      && TableOk(buckets, hashpower, slots, pending)
      && |elems| <= NUM_LOCKS
      && AddUpTo(elems, Count(buckets))
    }

    ghost predicate Core(): (ok: bool)
      reads this`hashpower, this`buckets, this`elems, this`mlfNum, this`mlfDen
      ensures ok ==> Unique(buckets)
    {
      CoreExcept({})
    }

    ghost predicate Valid(): (ok: bool)
      reads this`hashpower, this`buckets, this`elems, this`mlfNum, this`mlfDen
      ensures ok ==> Unique(buckets) && Core()
    {
      Core() && LocksFor(hashpower) <= |elems|
    }

    ghost function Map(): map<Key, Value>
      requires Unique(buckets)
      reads this`buckets
    {
      Contents(buckets)
    }

    ghost function StartFor(key: Key): Start
      reads this`hashpower
    {
      Start(hashpower, slots, First(hashpower, key), Second(hashpower, key))
    }

    // ----- Locks: taken in ascending order only, never twice, and only given back by their holder -----

    method Lock(l: nat)
      requires l < |elems| && forall k :: k in held ==> k < l
      modifies this`held
      ensures held == old(held) + {l}
    {
      held := held + {l};
    }

    method Unlock(l: nat)
      requires l in held
      modifies this`held
      ensures held == old(held) - {l}
    {
      held := held - {l};
    }

    /** Drops the lock again if the hash power is not the expected one. */
    method CheckHashpower(hp: nat, l: nat) returns (ok: bool)
      requires l in held
      modifies this`held
      ensures ok <==> hashpower == hp
      ensures held == if ok then old(held) else old(held) - {l}
    {
      ok := hashpower == hp;
      if !ok {
        Unlock(l);
      }
    }

    method LockTwo(hp: nat, i1: nat, i2: nat) returns (ok: bool)
      requires held == {} && LockInd(i1) < |elems| && LockInd(i2) < |elems|
      modifies this`held
      ensures ok <==> hashpower == hp
      ensures held == if ok then {LockInd(i1), LockInd(i2)} else {}
    {
      hide LockInd;
      var l1, l2 := LockInd(i1), LockInd(i2);
      if l2 < l1 {
        l1, l2 := l2, l1;
      }
      Lock(l1);
      ok := CheckHashpower(hp, l1);
      if ok && l2 != l1 {
        Lock(l2);
      }
    }

    /** Sorts the three lock indices with three swaps and takes each distinct one once. The third bucket gets a
      * container of its own only if its lock is not one of the first two. */
    method LockThree(hp: nat, i1: nat, i2: nat, i3: nat) returns (ok: bool, extra: bool)
      requires held == {} && LockInd(i1) < |elems| && LockInd(i2) < |elems| && LockInd(i3) < |elems|
      modifies this`held
      ensures ok <==> hashpower == hp
      ensures held == if ok then {LockInd(i1), LockInd(i2), LockInd(i3)} else {}
      ensures extra <==> LockInd(i3) !in {LockInd(i1), LockInd(i2)}
    {
      hide LockInd;
      var l0, l1, l2 := LockInd(i1), LockInd(i2), LockInd(i3);
      if l2 < l1 { l2, l1 := l1, l2; }
      if l2 < l0 { l2, l0 := l0, l2; }
      if l1 < l0 { l1, l0 := l0, l1; }
      extra := !(LockInd(i3) == LockInd(i1) || LockInd(i3) == LockInd(i2));
      Lock(l0);
      ok := CheckHashpower(hp, l0);
      if ok {
        if l1 != l0 { Lock(l1); }
        if l2 != l1 { Lock(l2); }
      }
    }

    method UnlockTwo(i1: nat, i2: nat)
      requires LockInd(i1) in held && LockInd(i2) in held
      modifies this`held
      ensures held == old(held) - {LockInd(i1), LockInd(i2)}
    {
      hide LockInd;
      var l1, l2 := LockInd(i1), LockInd(i2);
      Unlock(l1);
      if l1 != l2 {
        Unlock(l2);
      }
    }

    /** The container of the third bucket gives its lock back, if it has one of its own: the locks of the first two
      * buckets stay held, whichever of the three coincide. */
    method UnlockExtra(i1: nat, i2: nat, i3: nat, extra: bool)
      requires held == {LockInd(i1), LockInd(i2), LockInd(i3)}
      requires extra <==> LockInd(i3) !in {LockInd(i1), LockInd(i2)}
      modifies this`held
      ensures held == {LockInd(i1), LockInd(i2)}
    {
      hide LockInd;
      if extra {
        Unlock(LockInd(i3));
      }
    }

    /** The two containers that LockThree fills release together exactly the locks it took, each once. */
    method UnlockThree(i1: nat, i2: nat, i3: nat, extra: bool)
      requires held == {LockInd(i1), LockInd(i2), LockInd(i3)}
      requires extra <==> LockInd(i3) !in {LockInd(i1), LockInd(i2)}
      modifies this`held
      ensures held == {}
    {
      hide LockInd;
      UnlockExtra(i1, i2, i3, extra);
      UnlockTwo(i1, i2);
    }

    method SnapshotAndLockAll()
      requires held == {}
      modifies this`held
      ensures held == Below(|elems|)
    {
      var i := 0;
      while i < |elems|
        invariant i <= |elems| && held == Below(i)
      {
        Lock(i);
        i := i + 1;
      }
    }

    method UnlockAll()
      requires held == Below(|elems|)
      modifies this`held
      ensures held == {}
    {
      var i := 0;
      while i < |elems|
        invariant i <= |elems| && held == Below(|elems|) - Below(i)
      {
        Unlock(i);
        i := i + 1;
      }
    }

    lemma CandidateLocks(key: Key)
      requires Valid()
      ensures LockInd(First(hashpower, key)) < |elems| && LockInd(Second(hashpower, key)) < |elems|
      ensures First(hashpower, key) < |buckets| && Second(hashpower, key) < |buckets|
      ensures PartialsOk(buckets[First(hashpower, key)]) && PartialsOk(buckets[Second(hashpower, key)])
      ensures |buckets[First(hashpower, key)]| == |buckets[Second(hashpower, key)]| == slots
    {
      hide AddUpTo, Count, Unique, PartialKey, LocksFor, LockInd, Cand, First, Second;
      LockIndInRange(hashpower, First(hashpower, key));
      LockIndInRange(hashpower, Second(hashpower, key));
      BucketPartials(buckets, hashpower, First(hashpower, key));
      BucketPartials(buckets, hashpower, Second(hashpower, key));
    }

    lemma CandidatesDecide(key: Key)
      requires Valid()
      ensures First(hashpower, key) < |buckets| && Second(hashpower, key) < |buckets|
      ensures key in Map() <==>
        SlotOf(buckets[First(hashpower, key)], key) >= 0 || SlotOf(buckets[Second(hashpower, key)], key) >= 0
    {
      hide AddUpTo, Count, Unique, PartialKey, LocksFor, LockInd, Cand, First, Second, SlotOf, PlacedExcept, Contents;
      LookupIsMembership(buckets, hashpower, slots, key);
    }

    lemma FoundValue(key: Key, b: nat, s: nat)
      requires Core() && Occupied(buckets, b, s) && buckets[b][s].key == key
      ensures key in Map() && Map()[key] == buckets[b][s].val
    {
      hide AddUpTo, Count, PlacedExcept;
    }

    method SnapshotAndLockTwo(key: Key) returns (i1: nat, i2: nat)
      requires Valid() && held == {}
      modifies this`held
      ensures i1 == First(hashpower, key) && i2 == Second(hashpower, key)
      ensures held == {LockInd(i1), LockInd(i2)}
    {
      hide First, Second, LockInd, LocksFor, TableOk, AddUpTo, Count, PartialsOk;
      var ok := false;
      i1, i2 := 0, 0;
      while !ok
        invariant ok ==> i1 == First(hashpower, key) && i2 == Second(hashpower, key)
        invariant held == if ok then {LockInd(i1), LockInd(i2)} else {}
        decreases if ok then 0 else 1
      {
        var hp := hashpower;
        i1 := First(hp, key);
        i2 := Second(hp, key);
        CandidateLocks(key);
        ok := LockTwo(hp, i1, i2);
      }
    }

    /** Looks the key up in the two locked buckets, the first one first. */
    method Locate(key: Key, i1: nat, i2: nat) returns (r: Option<(nat, nat)>)
      requires Valid() && i1 == First(hashpower, key) && i2 == Second(hashpower, key)
      requires LockInd(i1) in held && LockInd(i2) in held
      ensures r.Some? <==> key in Map()
      ensures r.Some? ==>
        && Occupied(buckets, r.value.0, r.value.1) && buckets[r.value.0][r.value.1].key == key
        && buckets[r.value.0][r.value.1].val == Map()[key]
        && r.value.0 in {i1, i2}
    {
      hide First, Second, LockInd, LocksFor, PlacedExcept, Unique, AddUpTo, Count, PartialsOk, SlotOf, PartialKey;
      CandidateLocks(key);
      CandidatesDecide(key);
      var partial := PartialKey(key.hash);
      var s := FindInBucket(simple, partial, key, buckets[i1]);
      if s >= 0 {
        FoundValue(key, i1, s);
        return Some((i1, s));
      }
      s := FindInBucket(simple, partial, key, buckets[i2]);
      if s >= 0 {
        FoundValue(key, i2, s);
        return Some((i2, s));
      }
      return None;
    }

    method Find(key: Key) returns (r: Option<Value>)
      requires Valid() && held == {}
      modifies this`held
      ensures Valid() && held == {}
      ensures r == if key in Map() then Some(Map()[key]) else None
    {
      hide First, Second, LockInd, LocksFor, PlacedExcept, Unique, AddUpTo, Count, Shape;
      var i1, i2 := SnapshotAndLockTwo(key);
      var at := Locate(key, i1, i2);
      r := if at.Some? then Some(buckets[at.value.0][at.value.1].val) else None;
      UnlockTwo(i1, i2);
    }

    method Contains(key: Key) returns (r: bool)
      requires Valid() && held == {}
      modifies this`held
      ensures Valid() && held == {}
      ensures r <==> key in Map()
    {
      hide First, Second, LockInd, LocksFor, PlacedExcept, Unique, AddUpTo, Count, Shape;
      var i1, i2 := SnapshotAndLockTwo(key);
      var at := Locate(key, i1, i2);
      r := at.Some?;
      UnlockTwo(i1, i2);
    }

    // ----- Writing one slot -----

    /** Sets a free slot and counts the entry on the lock of its bucket. */
    method AddToBucket(bucket: nat, slot: nat, key: Key, val: Value)
      requires Valid() && Cand(hashpower, key, bucket) && bucket < |buckets| && slot < |buckets[bucket]|
      requires buckets[bucket][slot].Empty? && key !in Map() && LockInd(bucket) in held
      modifies this`buckets, this`elems
      ensures Valid() && Map() == old(Map())[key := val]
      ensures buckets == Put(old(buckets), bucket, slot, Entry(key, val)) && |elems| == old(|elems|)
    {
      hide Cand, PartialKey, LocksFor, LockInd, AddUpTo, Count, Contents, Counters.Increment;
      LockOfBucket(bucket);
      InsertKeepsOk(buckets, hashpower, slots, {}, bucket, slot, key, val);
      IncrementAddsOne(elems, Count(buckets), LockInd(bucket));
      buckets := Put(buckets, bucket, slot, Full(PartialKey(key.hash), key, val));
      elems := Counters.Increment(elems, LockInd(bucket));
    }

    lemma LockOfBucket(bucket: nat)
      requires Valid() && bucket < |buckets|
      ensures LockInd(bucket) < |elems|
    {
      hide AddUpTo, Unique, PlacedExcept, LocksFor, LockInd;
      LockIndInRange(hashpower, bucket);
    }

    method EraseFromBucket(bucket: nat, slot: nat)
      requires Valid() && Occupied(buckets, bucket, slot) && LockInd(bucket) in held
      modifies this`buckets, this`elems
      ensures Valid() && Map() == old(Map()) - {old(buckets[bucket][slot].key)} && |elems| == old(|elems|)
    {
      hide Cand, PartialKey, LocksFor, LockInd, AddUpTo, Contents, Counters.Decrement, Count;
      LockOfBucket(bucket);
      EraseKeepsOk(buckets, hashpower, slots, {}, bucket, slot);
      DecrementTakesOne(elems, Count(buckets), LockInd(bucket));
      buckets := Put(buckets, bucket, slot, Empty);
      elems := Counters.Decrement(elems, LockInd(bucket));
    }

    method SetValue(bucket: nat, slot: nat, val: Value)
      requires Valid() && Occupied(buckets, bucket, slot) && LockInd(bucket) in held
      modifies this`buckets
      ensures Valid() && Map() == old(Map())[old(buckets[bucket][slot].key) := val]
      ensures |buckets| == old(|buckets|) && forall b, s :: Occupied(buckets, b, s) <==> Occupied(old(buckets), b, s)
    {
      hide Cand, PartialKey, LocksFor, AddUpTo, Count, Contents;
      PutFrame(buckets, bucket, slot, buckets[bucket][slot].(val := val));
      UpdateKeepsOk(buckets, hashpower, slots, {}, bucket, slot, val);
      buckets := Put(buckets, bucket, slot, buckets[bucket][slot].(val := val));
    }

    method Erase(key: Key) returns (r: bool)
      requires Valid() && held == {}
      modifies this`held, this`buckets, this`elems
      ensures Valid() && held == {}
      ensures r <==> key in old(Map())
      ensures Map() == old(Map()) - {key}
    {
      hide First, Second, LockInd, TableOk, AddUpTo, LocksFor, Contents, Count;
      var i1, i2 := SnapshotAndLockTwo(key);
      var at := Locate(key, i1, i2);
      r := at.Some?;
      if at.Some? {
        EraseFromBucket(at.value.0, at.value.1);
      }
      UnlockTwo(i1, i2);
    }

    method UpdateFn(key: Key, fn: Value -> Value) returns (r: bool)
      requires Valid() && held == {}
      modifies this`held, this`buckets
      ensures Valid() && held == {}
      ensures r <==> key in old(Map())
      ensures Map() == if r then old(Map())[key := fn(old(Map())[key])] else old(Map())
    {
      hide First, Second, LockInd, TableOk, AddUpTo, LocksFor, Contents, Count;
      var i1, i2 := SnapshotAndLockTwo(key);
      r := UpdateLocked(key, fn, i1, i2);
      UnlockTwo(i1, i2);
    }

    /** Applies fn to the value of the key under the two locks. */
    method UpdateLocked(key: Key, fn: Value -> Value, i1: nat, i2: nat) returns (r: bool)
      requires Valid() && i1 == First(hashpower, key) && i2 == Second(hashpower, key)
      requires held == {LockInd(i1), LockInd(i2)}
      modifies this`buckets
      ensures Valid()
      ensures r <==> key in old(Map())
      ensures Map() == if r then old(Map())[key := fn(old(Map())[key])] else old(Map())
      ensures !r ==> buckets == old(buckets)
    {
      hide First, Second, LockInd, TableOk, AddUpTo, LocksFor, Contents, Count;
      var at := Locate(key, i1, i2);
      r := at.Some?;
      if at.Some? {
        SetValue(at.value.0, at.value.1, fn(buckets[at.value.0][at.value.1].val));
      }
    }

    method Update(key: Key, val: Value) returns (r: bool)
      requires Valid() && held == {}
      modifies this`held, this`buckets
      ensures Valid() && held == {}
      ensures r <==> key in old(Map())
      ensures Map() == if r then old(Map())[key := val] else old(Map())
    {
      r := UpdateFn(key, (v: Value) => val);
    }

    // ----- Making room: the cuckoo moves -----

    /** Moves entries along a path, last one first. The path may be arbitrarily out of date: whatever it says,
      * the map stays the same and every key stays in one of its buckets. On success the first slot of the path
      * is free and the two insert buckets are locked; on failure nothing is locked. A path that still describes
      * the table succeeds. */
    method CuckooPathMove(key: Key, path: seq<Record>) returns (moved: bool)
      requires Valid() && held == {} && PathOk(StartFor(key), path)
      modifies this`held, this`buckets
      ensures Valid() && Map() == old(Map()) && Count(buckets) == old(Count(buckets))
      ensures moved ==>
        && held == {LockInd(First(hashpower, key)), LockInd(Second(hashpower, key))}
        && path[0].bucket < |buckets| && path[0].slot < |buckets[path[0].bucket]|
        && buckets[path[0].bucket][path[0].slot].Empty?
      ensures !moved ==> held == {}
      ensures buckets == Kicked(old(buckets), path, |path| - 1)
      ensures moved <==>
        AllKicks(old(buckets), path, |path| - 1) && !Occupied(buckets, path[0].bucket, path[0].slot)
      ensures LivePath(old(buckets), path) ==> moved
    {
      hide First, Second, LockInd, Unique, PlacedExcept, AddUpTo, LocksFor, Contents, Count, AltIndex, PartialKey,
        PathOk, LivePath, HashSize, Move, ShiftValid;
      var i1, i2 := First(hashpower, key), Second(hashpower, key);
      PathInRange(key, path);
      var depth := |path| - 1;
      CandidateLocks(key);
      assert path[..depth + 1] == path;
      if depth == 0 {
        var ok := LockTwo(hashpower, i1, i2);
        moved := buckets[path[0].bucket][path[0].slot].Empty?;
        LiveEnd(buckets, path, 0);
        if !moved {
          UnlockTwo(i1, i2);
        }
        return;
      }
      while depth > 0
        invariant 0 <= depth < |path|
        invariant Valid() && Map() == old(Map()) && Count(buckets) == old(Count(buckets))
        invariant held == if depth > 0 then {} else {LockInd(i1), LockInd(i2)}
        invariant depth == 0 ==>
          && path[0].bucket < |buckets| && path[0].slot < |buckets[path[0].bucket]|
          && buckets[path[0].bucket][path[0].slot].Empty?
        invariant LivePath(old(buckets), path) ==> LivePath(buckets, path[..depth + 1])
        invariant Kicked(old(buckets), path, |path| - 1) == Kicked(buckets, path, depth)
        invariant AllKicks(old(buckets), path, |path| - 1) <==> AllKicks(buckets, path, depth)
      {
        moved := MoveStep(key, path, depth);
        if !moved {
          return false;
        }
        depth := depth - 1;
      }
      return true;
    }

    /** One kick: locks what it needs, checks that the entry and the free slot are still there, and moves. The last
      * kick keeps the insert buckets locked. */
    method MoveStep(key: Key, path: seq<Record>, depth: nat) returns (moved: bool)
      requires Valid() && held == {} && PathOk(StartFor(key), path) && 0 < depth < |path|
      modifies this`held, this`buckets
      ensures Valid() && Map() == old(Map()) && Count(buckets) == old(Count(buckets))
      ensures moved ==>
        && held == (if depth > 1 then {} else {LockInd(First(hashpower, key)), LockInd(Second(hashpower, key))})
        && path[depth - 1].bucket < |buckets| && path[depth - 1].slot < |buckets[path[depth - 1].bucket]|
        && buckets[path[depth - 1].bucket][path[depth - 1].slot].Empty?
      ensures !moved ==> held == {} && buckets == old(buckets)
      ensures moved <==> ShiftValid(old(buckets), path, depth)
      ensures moved ==>
        buckets
        == Move(old(buckets), path[depth - 1].bucket, path[depth - 1].slot, path[depth].bucket, path[depth].slot)
      ensures LivePath(old(buckets), path[..depth + 1]) ==> moved && LivePath(buckets, path[..depth])
    {
      hide First, Second, LockInd, Unique, PlacedExcept, AddUpTo, LocksFor, Contents, Count, AltIndex, PartialKey,
        PathOk, LivePath, HashSize, Move;
      var i1, i2 := First(hashpower, key), Second(hashpower, key);
      var from, to := path[depth - 1], path[depth];
      CandidateLocks(key);
      PathInRange(key, path);
      PathStart(StartFor(key), key, path);
      var ok, extra := false, false;
      if depth == 1 {
        ok, extra := LockThree(hashpower, i1, i2, to.bucket);
      } else {
        ok := LockTwo(hashpower, from.bucket, to.bucket);
      }
      var entry := buckets[from.bucket][from.slot];
      LiveMoves(buckets, path, depth);
      moved := entry.Full? && entry.key.hash == from.hash && buckets[to.bucket][to.slot].Empty?;
      if moved {
        MoveOne(key, path, depth);
      }
      if depth > 1 {
        UnlockTwo(from.bucket, to.bucket);
      } else if moved {
        UnlockExtra(i1, i2, to.bucket, extra);
      } else {
        UnlockThree(i1, i2, to.bucket, extra);
      }
    }

    lemma PathInRange(key: Key, path: seq<Record>)
      requires Valid() && PathOk(StartFor(key), path)
      ensures |path| > 0
      ensures forall j :: 0 <= j < |path| ==>
        && path[j].bucket < |buckets| && path[j].slot < |buckets[path[j].bucket]|
        && LockInd(path[j].bucket) < |elems|
    {
      hide AddUpTo, Unique, PlacedExcept, LocksFor, LockInd, First, Second, AltIndex, PartialKey;
      forall j | 0 <= j < |path|
        ensures LockInd(path[j].bucket) < |elems|
      {
        LockIndInRange(hashpower, path[j].bucket);
      }
    }

    /** One validated move of a path. */
    method MoveOne(key: Key, path: seq<Record>, d: nat)
      requires Valid() && PathOk(StartFor(key), path) && 0 < d < |path|
      requires Occupied(buckets, path[d - 1].bucket, path[d - 1].slot)
      requires buckets[path[d - 1].bucket][path[d - 1].slot].key.hash == path[d - 1].hash
      requires path[d].bucket < |buckets| && path[d].slot < |buckets[path[d].bucket]|
      requires buckets[path[d].bucket][path[d].slot].Empty?
      requires LockInd(path[d - 1].bucket) in held && LockInd(path[d].bucket) in held
      modifies this`buckets
      ensures Valid() && Map() == old(Map()) && Count(buckets) == old(Count(buckets))
      ensures buckets == Move(old(buckets), path[d - 1].bucket, path[d - 1].slot, path[d].bucket, path[d].slot)
      ensures path[d - 1].bucket < |buckets| && path[d - 1].slot < |buckets[path[d - 1].bucket]|
      ensures buckets[path[d - 1].bucket][path[d - 1].slot].Empty?
    {
      hide First, Second, LocksFor, Contents, Count, AltIndex, PartialKey, Unique, PlacedExcept, Move, AddUpTo;
      var f, to := path[d - 1], path[d];
      KickKeepsOk(buckets, hashpower, slots, {}, f.bucket, f.slot, to.bucket, to.slot, f.hash);
      MoveFrame(buckets, f.bucket, f.slot, to.bucket, to.slot);
      buckets := Move(buckets, f.bucket, f.slot, to.bucket, to.slot);
    }

    /** Lets go of the insert buckets, searches for a path and moves entries along it until a slot of one of the
      * insert buckets is free. With nobody else around the first path found always works. */
    method RunCuckoo(key: Key) returns (status: Status, bucket: nat, slot: nat)
      requires Valid() && held == {LockInd(First(hashpower, key)), LockInd(Second(hashpower, key))}
      modifies this`held, this`buckets
      ensures Valid() && Map() == old(Map()) && Count(buckets) == old(Count(buckets))
      ensures status == Success || status == Failure
      ensures status == Success ==>
        && held == old(held) && Cand(hashpower, key, bucket)
        && bucket < |buckets| && slot < |buckets[bucket]| && buckets[bucket][slot].Empty?
      ensures status == Failure ==> held == {} && buckets == old(buckets)
      ensures status == Failure <==> old(NoPath(key))
    {
      hide First, Second, LockInd, Unique, PlacedExcept, AddUpTo, LocksFor, Contents, Count, LivePath, NothingFree,
        PathOk, HashSize;
      status, bucket, slot := Failure, 0, 0;
      var hp := hashpower;
      UnlockTwo(First(hp, key), Second(hp, key));
      var g := Start(hp, slots, First(hp, key), Second(hp, key));
      var done := false;
      while !done
        invariant Valid() && (!done ==> held == {} && buckets == old(buckets))
        invariant Map() == old(Map()) && Count(buckets) == old(Count(buckets))
        invariant done ==> !old(NoPath(key))
        invariant done ==>
          && status == Success && held == old(held) && Cand(hashpower, key, bucket)
          && bucket < |buckets| && slot < |buckets[bucket]| && buckets[bucket][slot].Empty?
        decreases if done then 0 else 1
      {
        var seen := Snapshot(hp, buckets);
        var env := (i: nat) => seen;
        SearchReady(key, env);
        var changed, path := PathSearch(g, env, env);
        if path == [] {
          return Failure, 0, 0;
        }
        done := CuckooPathMove(key, path);
        bucket, slot, status := path[0].bucket, path[0].slot, Success;
        PathStart(g, key, path);
      }
    }

    lemma SearchReady(key: Key, env: nat -> Snapshot)
      requires Valid() && forall i: nat :: env(i) == Snapshot(hashpower, buckets)
      ensures StartFor(key).Valid() && Unchanging(StartFor(key), env, buckets) && Placed(buckets, hashpower)
      ensures Shape(buckets, hashpower, slots)
    {
      hide AddUpTo, Unique, PlacedExcept, LocksFor, First, Second;
    }

    lemma PathStart(g: Start, key: Key, path: seq<Record>)
      requires PathOk(g, path) && g.i1 == First(g.hp, key) && g.i2 == Second(g.hp, key)
      ensures Cand(g.hp, key, path[0].bucket)
    {
      hide First, Second, AltIndex, PartialKey;
    }

    // ----- Inserting -----

    lemma FullTableSize(b: nat)
      requires Core() && b < |buckets| && forall s :: 0 <= s < |buckets[b]| ==> buckets[b][s].Full?
      ensures |Map()| >= slots
    {
      hide AddUpTo, Count, Unique, PlacedExcept, Contents;
      FullBucketBound(buckets, b);
      CountIsSize(buckets);
    }

    /** No path frees a slot for this key: everything the search looks at is occupied. */
    ghost predicate NoPath(key: Key)
      reads this`hashpower, this`buckets
    {
      StartFor(key).Valid() && NothingFree(buckets, StartFor(key))
    }

    /** Nor is there a free slot in either of its buckets. */
    ghost predicate NoRoom(key: Key)
      reads this`hashpower, this`buckets
    {
      NoRoomIn(buckets, hashpower, slots, key)
    }

    /** Inserts under the two locks, displacing other entries if both buckets are full; releases the locks. */
    method CuckooInsert(key: Key, val: Value, i1: nat, i2: nat) returns (status: Status)
      requires Valid() && i1 == First(hashpower, key) && i2 == Second(hashpower, key)
      requires held == {LockInd(i1), LockInd(i2)}
      modifies this`held, this`buckets, this`elems
      ensures Valid() && held == {}
      ensures status in {Success, KeyDuplicated, TableFull}
      ensures status == KeyDuplicated <==> key in old(Map())
      ensures Map() == if status == Success then old(Map())[key := val] else old(Map())
      ensures status != Success ==> buckets == old(buckets) && elems == old(elems)
      ensures status == TableFull ==> |Map()| >= slots
      ensures status == TableFull <==> key !in old(Map()) && old(NoRoom(key))
    {
      hide First, Second, LockInd, Valid, Core, AddUpTo, LocksFor, Contents, Count, NothingFree, PartialKey, HashSize,
        SlotOf, EmptySlot, PartialsOk, Put, Entry;
      var absent, slot1, slot2 := TryFindInsert(key, i1, i2);
      if !absent {
        UnlockTwo(i1, i2);
        return KeyDuplicated;
      }
      if slot1 >= 0 {
        AddToBucket(i1, slot1, key, val);
        UnlockTwo(i1, i2);
        return Success;
      }
      if slot2 >= 0 {
        AddToBucket(i2, slot2, key, val);
        UnlockTwo(i1, i2);
        return Success;
      }
      FullTableSize(i1);
      status := InsertAfterMoves(key, val, i1, i2);
    }

    /** Looks for the key and for a free slot in the first bucket and then in the second. */
    method TryFindInsert(key: Key, i1: nat, i2: nat) returns (absent: bool, slot1: int, slot2: int)
      requires Valid() && i1 == First(hashpower, key) && i2 == Second(hashpower, key)
      ensures absent <==> key !in Map()
      ensures absent ==>
        && i1 < |buckets| && slot1 == EmptySlot(buckets[i1])
        && i2 < |buckets| && slot2 == EmptySlot(buckets[i2])
      ensures absent ==> |buckets[i1]| == |buckets[i2]| == slots
    {
      hide First, Second, LockInd, Valid, Core, Contents, PartialKey, SlotOf, EmptySlot, PartialsOk;
      CandidateLocks(key);
      CandidatesDecide(key);
      slot2 := -1;
      absent, slot1 := TryFindInsertBucket(simple, PartialKey(key.hash), key, buckets[i1]);
      if !absent {
        return;
      }
      absent, slot2 := TryFindInsertBucket(simple, PartialKey(key.hash), key, buckets[i2]);
    }

    /** Makes room by moving other entries, and looks for the key again before using it. */
    method InsertAfterMoves(key: Key, val: Value, i1: nat, i2: nat) returns (status: Status)
      requires Valid() && i1 == First(hashpower, key) && i2 == Second(hashpower, key)
      requires held == {LockInd(i1), LockInd(i2)} && key !in Map()
      modifies this`held, this`buckets, this`elems
      ensures Valid() && held == {}
      ensures status in {Success, TableFull}
      ensures Map() == if status == Success then old(Map())[key := val] else old(Map())
      ensures status == TableFull ==> buckets == old(buckets) && elems == old(elems)
      ensures status == TableFull <==> old(NoPath(key))
    {
      hide First, Second, LockInd, Valid, Core, AddUpTo, LocksFor, Contents, Count, NoPath, PartialKey, HashSize,
        Put, Entry;
      var st, bucket, slot := RunCuckoo(key);
      if st == Failure {
        return TableFull;
      }
      // Only another thread could have inserted the key meanwhile.
      var at := Locate(key, i1, i2);
      assert at.None?;
      AddToBucket(bucket, slot, key, val);
      UnlockTwo(i1, i2);
      return Success;
    }

    lemma BucketSizes()
      requires Core()
      ensures |buckets| > 0 && slots > 0 && forall b :: 0 <= b < |buckets| ==> |buckets[b]| == slots
    {
      hide AddUpTo, Count, Unique, PlacedExcept;
    }

    // ----- The whole table at once -----

    /** The number of entries, added up from the counters with wrap-around. */
    method Size() returns (size: nat)
      requires Core()
      ensures size == |Map()|
    {
      hide TableOk, Count, Contents, Sum, AddUpTo, BuildOk;
      SumOfNone();
      size := 0;
      var i := 0;
      while i < |elems|
        invariant i <= |elems| && size == Sum(elems[..i]) % WORD
      {
        SumOfOneMore(elems, i);
        AddWraps(Sum(elems[..i]), elems[i]);
        size := (size + elems[i]) % WORD;
        i := i + 1;
      }
      assert elems[..i] == elems;
      SizeFits();
      ModUnique(Count(buckets), WORD, 0, Count(buckets));
      SumIsCount(elems, Count(buckets));
    }

    lemma SizeFits()
      requires Core()
      ensures Count(buckets) == |Map()| < WORD
    {
      hide AddUpTo, Count, Unique, PlacedExcept, HashSize, Contents;
      CountIsSize(buckets);
      CountBound(buckets, slots);
      SlotsGrow(slots, hashpower, maxAlloc);
    }

    method Clear()
      requires Valid() && held == {}
      modifies this`held, this`buckets, this`elems
      ensures Valid() && held == {} && Map() == map[]
    {
      hide LocksFor, Contents, Count, Unique, PlacedExcept, AddUpTo;
      SnapshotAndLockAll();
      var i := 0;
      while i < |buckets|
        invariant i <= |buckets| && Shape(buckets, hashpower, slots)
        invariant held == Below(|elems|) && elems == old(elems)
        invariant forall b, s :: Occupied(buckets, b, s) ==> b >= i
      {
        ClearBucket(i);
        i := i + 1;
      }
      ClearCounters();
      NothingStored(buckets, hashpower, slots);
      UnlockAll();
    }

    method ClearCounters()
      modifies this`elems
      ensures |elems| == old(|elems|) && AddUpTo(elems, 0)
    {
      var l := 0;
      while l < |elems|
        invariant l <= |elems| == |old(elems)| && forall k :: 0 <= k < l ==> elems[k] == 0
      {
        elems := elems[l := 0];
        l := l + 1;
      }
      ZerosAddUp(elems);
    }

    method ClearBucket(b: nat)
      requires Shape(buckets, hashpower, slots) && b < |buckets|
      modifies this`buckets
      ensures Shape(buckets, hashpower, slots)
      ensures forall c :: 0 <= c < |buckets| && c != b ==> buckets[c] == old(buckets)[c]
      ensures forall c, s :: Occupied(buckets, c, s) ==> c != b && Occupied(old(buckets), c, s)
    {
      var s := 0;
      while s < slots
        invariant s <= slots && Shape(buckets, hashpower, slots)
        invariant forall c :: 0 <= c < |buckets| && c != b ==> buckets[c] == old(buckets)[c]
        invariant forall r :: 0 <= r < s ==> buckets[b][r].Empty?
      {
        if buckets[b][s].Full? {
          buckets := Put(buckets, b, s, Empty);
        }
        s := s + 1;
      }
    }

    // ----- Doubling -----

    /** The counters of a moved entry: one less for the old bucket's lock, one more for the new one's. */
    method RecountMove(b: nat, c: nat, ghost n: nat)
      requires AddUpTo(elems, n) && n > 0 && LockInd(b) < |elems| && LockInd(c) < |elems|
      modifies this`elems
      ensures AddUpTo(elems, n) && |elems| == old(|elems|)
      ensures elems == Counters.Increment(Counters.Decrement(old(elems), LockInd(b)), LockInd(c))
    {
      hide AddUpTo, LockInd, Counters.Decrement, Counters.Increment;
      DecrementTakesOne(elems, n, LockInd(b));
      elems := Counters.Decrement(elems, LockInd(b));
      IncrementAddsOne(elems, n - 1, LockInd(c));
      elems := Counters.Increment(elems, LockInd(c));
    }

    /** Splits one bucket of the smaller table. The new bucket never runs out of slots, and an entry that leaves
      * goes to bucket b + 2^hp. */
    method MoveBucket(hp: nat, b: nat, ghost pending: set<nat>, ghost before: Table)
      requires CoreExcept(pending) && LocksFor(hashpower) <= |elems| && hashpower == hp + 1 && b in pending
      requires ComesFrom(before, buckets, hp)
      modifies this`buckets, this`elems
      ensures CoreExcept(pending - {b}) && Map() == old(Map()) && |elems| == old(|elems|)
      ensures ComesFrom(before, buckets, hp)
      ensures Doubled(old(buckets), hp, slots, b) && buckets == MigrateBucket(old(buckets), hp, slots, b)
    {
      hide AddUpTo, LocksFor, LockInd, Contents, Count, PlacedExcept, Unique, ComesFrom, Splitting, Moves, Move,
        MigrateFrom, BuildOk;
      BeginSplit(hp, b, pending);
      var c := b + HashSize(hp);
      var used, slot := 0, 0;
      while slot < slots
        invariant used <= slot <= slots && Splitting(buckets, hp, slots, pending, b, slot, used)
        invariant Doubled(buckets, hp, slots, b) && Unique(buckets)
        invariant MigrateFrom(buckets, hp, slots, b, slot, used) == MigrateBucket(old(buckets), hp, slots, b)
        invariant Map() == old(Map()) && AddUpTo(elems, Count(buckets)) && |elems| == old(|elems|)
        invariant ComesFrom(before, buckets, hp)
      {
        MigrateStep(buckets, hp, slots, b, slot, used);
        if buckets[b][slot].Full? && Moves(hp, buckets[b][slot].key, b) {
          MoveUp(hp, b, slot, used, pending, before);
          used := used + 1;
        } else {
          SplitKeepsEntry(buckets, hp, slots, pending, b, slot, used);
        }
        slot := slot + 1;
      }
      MigrateStep(buckets, hp, slots, b, slot, used);
      SplitEnd(buckets, hp, slots, pending, b, used);
    }

    lemma BeginSplit(hp: nat, b: nat, pending: set<nat>)
      requires CoreExcept(pending) && LocksFor(hashpower) <= |elems| && hashpower == hp + 1 && b in pending
      ensures Splitting(buckets, hp, slots, pending, b, 0, 0)
      ensures Doubled(buckets, hp, slots, b)
      ensures LockInd(b) < |elems| && LockInd(b + HashSize(hp)) < |elems|
    {
      hide AddUpTo, LocksFor, LockInd, Contents, Count, Unique;
      SplitStart(buckets, hp, slots, pending, b);
      LockIndInRange(hashpower, b);
      LockIndInRange(hashpower, b + HashSize(hp));
    }

    method MoveUp(hp: nat, b: nat, slot: nat, used: nat, ghost pending: set<nat>, ghost before: Table)
      requires Splitting(buckets, hp, slots, pending, b, slot, used) && slot < slots && Unique(buckets)
      requires Doubled(buckets, hp, slots, b)
      requires Occupied(buckets, b, slot) && Moves(hp, buckets[b][slot].key, b) && ComesFrom(before, buckets, hp)
      requires AddUpTo(elems, Count(buckets)) && LockInd(b) < |elems| && LockInd(b + HashSize(hp)) < |elems|
      modifies this`buckets, this`elems
      ensures Splitting(buckets, hp, slots, pending, b, slot + 1, used + 1) && Unique(buckets)
      ensures Doubled(buckets, hp, slots, b)
      ensures used < slots && buckets == Move(old(buckets), b, slot, b + HashSize(hp), used)
      ensures Map() == old(Map()) && AddUpTo(elems, Count(buckets)) && |elems| == old(|elems|)
      ensures ComesFrom(before, buckets, hp)
    {
      hide AddUpTo, LockInd, Contents, Count, Unique, ComesFrom, Moves, Move;
      var c := b + HashSize(hp);
      SplitMovesEntry(buckets, hp, slots, pending, b, slot, used);
      ComesFromAfterMove(before, buckets, hp, b, slot, used);
      OneIsStored(buckets, b, slot);
      buckets := Move(buckets, b, slot, c, used);
      RecountMove(b, c, Count(buckets));
    }

    /** Splits every bucket guarded by the locks from `first` up to `last` and gives each of these locks back when
      * its buckets are done. The ranges may be dealt with in any order. */
    method MoveBuckets(hp: nat, first: nat, last: nat, ghost pending: set<nat>, ghost before: Table)
      requires CoreExcept(pending) && LocksFor(hashpower) <= |elems| && hashpower == hp + 1
      requires first <= last <= LocksFor(hp) && Dealt(hp, first, last, 0) <= pending
      requires forall l :: first <= l < last ==> l in held
      requires Growing(before, buckets, hp, slots, pending)
      modifies this`buckets, this`elems, this`held
      ensures CoreExcept(pending - Dealt(hp, first, last, 0)) && Map() == old(Map()) && |elems| == old(|elems|)
      ensures Growing(before, buckets, hp, slots, pending - Dealt(hp, first, last, 0))
      ensures held == old(held) - (Below(last) - Below(first))
    {
      hide AddUpTo, LockInd, LocksFor, Contents, Count, Unique, PlacedExcept, Shape, Growing, BuildOk,
        MigrateBucket, MigrateFrom;
      NoneDealt(hp, first);
      assert pending - Dealt(hp, first, first, 0) == pending;
      var lock := first;
      while lock < last
        invariant first <= lock <= last && held == old(held) - (Below(lock) - Below(first))
        invariant CoreExcept(pending - Dealt(hp, first, lock, 0)) && Map() == old(Map()) && |elems| == old(|elems|)
        invariant Growing(before, buckets, hp, slots, pending - Dealt(hp, first, lock, 0))
      {
        MoveLock(hp, first, lock, pending, before);
        Unlock(lock);
        lock := lock + 1;
      }
    }

    /** Splits the buckets of one lock: its own index, and from there in strides of the number of locks. */
    method MoveLock(hp: nat, first: nat, lock: nat, ghost pending: set<nat>, ghost before: Table)
      requires CoreExcept(pending - Dealt(hp, first, lock, 0)) && LocksFor(hashpower) <= |elems| && hashpower == hp + 1
      requires first <= lock < NUM_LOCKS && Dealt(hp, first, lock + 1, 0) <= pending
      requires Growing(before, buckets, hp, slots, pending - Dealt(hp, first, lock, 0))
      modifies this`buckets, this`elems
      ensures CoreExcept(pending - Dealt(hp, first, lock + 1, 0)) && Map() == old(Map()) && |elems| == old(|elems|)
      ensures Growing(before, buckets, hp, slots, pending - Dealt(hp, first, lock + 1, 0))
    {
      hide AddUpTo, LockInd, LocksFor, Contents, Count, Unique, PlacedExcept, Shape, ComesFrom, PartlyGrown, BuildOk,
        MigrateBucket, MigrateFrom, Dealt;
      DealtStarts(hp, first, lock);
      var bucket := lock;
      LockOf(lock);
      ModUnique(lock, NUM_LOCKS, 0, lock);
      while bucket < HashSize(hp)
        invariant LockInd(bucket) == lock
        invariant CoreExcept(pending - Dealt(hp, first, lock, bucket)) && Map() == old(Map()) && |elems| == old(|elems|)
        invariant Growing(before, buckets, hp, slots, pending - Dealt(hp, first, lock, bucket))
        decreases HashSize(hp) - bucket
      {
        DealtNext(hp, first, lock, bucket);
        ghost var todo := pending - Dealt(hp, first, lock, bucket);
        assert bucket in Dealt(hp, first, lock + 1, 0);
        ghost var was := buckets;
        MoveBucket(hp, bucket, todo, before);
        GrowingNext(before, was, buckets, hp, slots, todo, bucket);
        assert todo - {bucket} == pending - Dealt(hp, first, lock, bucket + NUM_LOCKS);
        bucket := bucket + NUM_LOCKS;
      }
      DealtEnds(hp, first, lock, bucket);
    }

    /** Makes the locks that a table of this hash power needs available; new counters are zero. */
    method AllocateLocks(target: nat)
      requires CoreExcept({}) && target > 0 && LocksFor(hashpower) <= |elems|
      modifies this`elems
      ensures Core() && Map() == old(Map()) && LocksFor(target) <= |elems| && old(|elems|) <= |elems|
      ensures |elems| == AllocatedAfter(segment, old(|elems|), LocksFor(target)) && elems[..old(|elems|)] == old(elems)
    {
      hide AddUpTo, LocksFor, Contents, Count, TableOk, AllocatedAfter;
      AllocationCovers(segment, |elems|, target);
      var more := AllocatedAfter(segment, |elems|, LocksFor(target)) - |elems|;
      AppendZeros(elems, Count(buckets), more);
      elems := elems + seq(more, i => 0);
    }

    /** Doubles the table. Every lock is taken once and given back once, in two phases; nothing is held at the end,
      * whichever way it ends. */
    method FastDouble(currentHp: nat) returns (r: Result<Status>)
      requires Valid() && held == {}
      modifies this`hashpower, this`buckets, this`elems, this`held
      ensures Valid() && held == {} && Map() == old(Map())
      ensures r ==
        if mhp != NO_MAXIMUM_HASHPOWER && currentHp + 1 > mhp then Err(MaximumHashpowerExceeded)
        else if old(hashpower) != currentHp then Ok(UnderExpansion)
        else if currentHp == maxAlloc then Err(OutOfMemory)
        else Ok(Success)
      ensures r == Ok(Success) ==>
        && hashpower == old(hashpower) + 1 && ComesFrom(old(buckets), buckets, old(hashpower))
        && Shape(old(buckets), old(hashpower), slots) && buckets == Grown(old(buckets), old(hashpower), slots)
        && AllInPlace(old(buckets), buckets, old(hashpower))
      ensures r != Ok(Success) ==> hashpower == old(hashpower) && buckets == old(buckets)
    {
      hide AddUpTo, LocksFor, Contents, Count, Unique, PlacedExcept, Shape, ComesFrom, Growing, Grown, BuildOk, Dealt,
        AllocatedAfter, AllInPlace;
      var newHp := currentHp + 1;
      if mhp != NO_MAXIMUM_HASHPOWER && newHp > mhp {
        return Err(MaximumHashpowerExceeded);
      }
      if hashpower != currentHp {
        return Ok(UnderExpansion);
      }
      GrowsInPlace();
      AllocateLocks(newHp);
      SnapshotAndLockAll();
      if newHp > maxAlloc {
        UnlockAll();
        return Err(OutOfMemory);
      }
      StartDoubling(currentHp);
      MigrateAndUnlock(currentHp, old(buckets));
      return Ok(Success);
    }

    lemma GrowsInPlace()
      requires Core()
      ensures Shape(buckets, hashpower, slots) && AllInPlace(buckets, Grown(buckets, hashpower, slots), hashpower)
    {
      hide AddUpTo, Count, Unique, PlacedExcept, Shape, Grown, AllInPlace, BuildOk;
      GrownPutsInPlace(buckets, hashpower, slots);
    }

    /** The two unlocking phases: the locks of the old table as their buckets are split, then the rest. */
    method MigrateAndUnlock(hp: nat, ghost before: Table)
      requires CoreExcept(Below(HashSize(hp))) && LocksFor(hashpower) <= |elems| && hashpower == hp + 1
      requires held == Below(|elems|) && Growing(before, buckets, hp, slots, Below(HashSize(hp)))
      modifies this`buckets, this`elems, this`held
      ensures Valid() && held == {} && Map() == old(Map()) && ComesFrom(before, buckets, hp)
      ensures Shape(before, hp, slots) && buckets == Grown(before, hp, slots)
    {
      hide AddUpTo, LocksFor, Contents, Count, Unique, PlacedExcept, Shape, Growing, ComesFrom, BuildOk, Dealt, Grown;
      var locksToMove := LocksFor(hp);
      AllDealt(hp);
      LocksForGrows(hp);
      MoveBuckets(hp, 0, locksToMove, Below(HashSize(hp)), before);
      hide Below, CoreExcept;
      GrowingEnds(before, buckets, hp, slots);
      UnlockFrom(locksToMove);
    }

    /** Gives back the locks that the smaller table did not use. */
    method UnlockFrom(first: nat)
      requires first <= |elems| && held == Below(|elems|) - Below(first)
      modifies this`held
      ensures held == {}
    {
      var i := first;
      while i < |elems|
        invariant first <= i <= |elems| && held == Below(|elems|) - Below(i)
      {
        Unlock(i);
        i := i + 1;
      }
    }

    method StartDoubling(hp: nat)
      requires Core() && hashpower == hp < maxAlloc
      modifies this`buckets, this`hashpower
      ensures hashpower == hp + 1 && CoreExcept(Below(HashSize(hp)))
      ensures Map() == old(Map()) && Growing(old(buckets), buckets, hp, slots, Below(HashSize(hp)))
    {
      hide AddUpTo, Contents, Count, Unique, PlacedExcept, Growing, BuildOk;
      DoubleStarts(buckets, hp, slots);
      GrowingStarts(buckets, hp, slots);
      buckets := buckets + EmptyTable(|buckets|, slots);
      hashpower := hp + 1;
    }

    // ----- The public inserting operations -----

    /** With n entries, the load factor at this hash power is not below the minimum: doubling is allowed. */
    predicate MayDouble(n: nat, hp: nat)
      reads this`mlfNum, this`mlfDen
    {
      n * mlfDen >= mlfNum * slots * HashSize(hp)
    }

    /** Bounds how often the insert loop can still double a table of n entries. A positive minimum load factor
      * bounds it by the number of entries, a maximum hash power by what is left to it; without either only the
      * allocator does. */
    ghost function DoublingsLeft(n: nat): int
      reads this`hashpower, this`mlfNum, this`mlfDen, this`mhp
    {
      if mlfNum > 0 then n * mlfDen + 1 - HashSize(hashpower)
      else if mhp != NO_MAXIMUM_HASHPOWER then mhp - hashpower
      else maxAlloc - hashpower
    }

    /** A maximum hash power or the allocator does not let the table double. */
    predicate CappedAt(hp: nat)
      reads this`mhp
    {
      (mhp != NO_MAXIMUM_HASHPOWER && mhp <= hp) || hp == maxAlloc
    }

    predicate Capped()
      reads this`hashpower, this`mhp
    {
      CappedAt(hashpower)
    }

    /** A full table of n entries is not doubled at this hash power. */
    predicate StuckAt(n: nat, hp: nat)
      reads this`mhp, this`mlfNum, this`mlfDen
    {
      !MayDouble(n, hp) || CappedAt(hp)
    }

    predicate Stuck(n: nat)
      reads this`hashpower, this`mhp, this`mlfNum, this`mlfDen
    {
      StuckAt(n, hashpower)
    }

    /** Inserting this key into this table of n entries ends in an error: there is no room in it, and either it may not
      * be doubled or the doubled table refuses the key too. */
    ghost predicate Refuses(t: Table, hp: nat, key: Key, n: nat)
      reads this`mhp, this`mlfNum, this`mlfDen
      decreases if hp < maxAlloc then maxAlloc - hp else 0
    {
      && NoRoomIn(t, hp, slots, key)
      && (StuckAt(n, hp)
          || (hp < maxAlloc && Shape(t, hp, slots) && Refuses(Grown(t, hp, slots), hp + 1, key, n)))
    }

    /** The hash power at which an insertion of this key ends: the first one at which the table, doubled again and
      * again, has room for it or may not be doubled. */
    ghost function EndsAt(t: Table, hp: nat, key: Key, n: nat): (end: nat)
      reads this`mhp, this`mlfNum, this`mlfDen
      ensures end >= hp
      decreases if hp < maxAlloc then maxAlloc - hp else 0
    {
      if NoRoomIn(t, hp, slots, key) && !StuckAt(n, hp) && hp < maxAlloc && Shape(t, hp, slots)
      then EndsAt(Grown(t, hp, slots), hp + 1, key, n)
      else hp
    }

    lemma OneDoubling(t: Table, hp: nat, key: Key, n: nat)
      requires Shape(t, hp, slots) && NoRoomIn(t, hp, slots, key) && !StuckAt(n, hp) && hp < maxAlloc
      ensures Refuses(t, hp, key, n) <==> Refuses(Grown(t, hp, slots), hp + 1, key, n)
      ensures EndsAt(t, hp, key, n) == EndsAt(Grown(t, hp, slots), hp + 1, key, n)
    {
      hide NoRoomIn, Grown;
    }

    lemma NoDoubling(t: Table, hp: nat, key: Key, n: nat)
      requires !NoRoomIn(t, hp, slots, key) || StuckAt(n, hp)
      ensures Refuses(t, hp, key, n) <==> NoRoomIn(t, hp, slots, key)
      ensures EndsAt(t, hp, key, n) == hp
    {
      hide NoRoomIn, Grown;
    }

    /** Every hash power that an insertion leaves behind, and the one at which it is refused, blocks the entries of any
      * map that the table is part of. */
    lemma {:induction false} EndBlocks(t: Table, hp: nat, key: Key, n: nat, m: map<Key, Value>)
      requires hp <= maxAlloc
      requires TableOk(t, hp, slots, {}) && PartOf(Contents(t), m) && key in m && key !in Contents(t)
      ensures BlockedBelow(hp, EndsAt(t, hp, key, n), slots, m)
      ensures Refuses(t, hp, key, n) ==> Blocked(EndsAt(t, hp, key, n), slots, m)
      decreases if hp < maxAlloc then maxAlloc - hp else 0
    {
      RoundDecides(t, hp, key, n);
      hide Refuses, EndsAt, NoRoomIn, StuckAt, Grown, Contents, Unique, PlacedExcept, Shape, Blocked;
      if NoRoomIn(t, hp, slots, key) {
        ThisBlocks(t, hp, key, m);
        if !StuckAt(n, hp) && hp < maxAlloc {
          GrownKeepsMap(t, hp, slots);
          EndBlocks(Grown(t, hp, slots), hp + 1, key, n, m);
        } else {
          CappedAtEnd(n, hp);
        }
      }
    }

    lemma CappedAtEnd(n: nat, hp: nat)
      ensures hp == maxAlloc ==> StuckAt(n, hp)
    {
      hide MayDouble;
    }

    lemma ThisBlocks(t: Table, hp: nat, key: Key, m: map<Key, Value>)
      requires TableOk(t, hp, slots, {}) && PartOf(Contents(t), m) && key in m && key !in Contents(t)
      requires NoRoomIn(t, hp, slots, key)
      ensures Blocked(hp, slots, m)
    {
      hide TableOk, Contents, NoRoomIn, PartOf;
      assert Blocks(t, hp, slots, m, key);
    }

    /** The doubled table refuses the key. */
    ghost predicate RefusesDoubled(key: Key)
      reads this`hashpower, this`buckets, this`mhp, this`mlfNum, this`mlfDen
      requires Unique(buckets)
    {
      Shape(buckets, hashpower, slots) && Refuses(Grown(buckets, hashpower, slots), hashpower + 1, key, |Map()|)
    }

    /** The hash power was reached by doubling a table of n entries: it had at least a bucket's worth of them, its load
      * factor allowed it, and so does the maximum hash power. */
    predicate DoubledLast(n: nat)
      reads this`hashpower, this`mhp, this`mlfNum, this`mlfDen
    {
      && n >= slots && hashpower > 0 && MayDouble(n, hashpower - 1)
      && (mhp != NO_MAXIMUM_HASHPOWER ==> hashpower <= mhp)
    }

    /** Why a failed insert was not allowed to double the table once more. */
    ghost predicate Refused(n: nat, error: Error)
      reads this`hashpower, this`mlfNum, this`mlfDen, this`mhp
    {
      match error
      case LoadFactorTooLow => !MayDouble(n, hashpower)
      case MaximumHashpowerExceeded => MayDouble(n, hashpower) && mhp != NO_MAXIMUM_HASHPOWER && mhp <= hashpower
      case OutOfMemory =>
        MayDouble(n, hashpower) && hashpower == maxAlloc && (mhp != NO_MAXIMUM_HASHPOWER ==> hashpower < mhp)
      case InvalidArgument => false
    }

    lemma LoadFactorTest(n: nat, hp: nat)
      requires BuildOk(slots, segment, maxAlloc)
      ensures MayDouble(n, hp) <==> !(n * mlfDen < mlfNum * slots * HashSize(hp))
      ensures MayDouble(n, hp) && mlfNum > 0 ==> HashSize(hp) <= n * mlfDen
      ensures HashSize(hp + 1) > HashSize(hp)
    {
      if mlfNum > 0 {
        MulGap(mlfNum, slots);
        MulGap(HashSize(hp), mlfNum * slots);
        assert HashSize(hp) * (mlfNum * slots) == mlfNum * slots * HashSize(hp);
      }
    }

    /** No table holds the entries of m and one more with the same hash as 2 * slots of them. */
    lemma CrowdedNowhere(key: Key, m: map<Key, Value>, val: Value)
      requires Core() && key !in m && Map() == m[key := val]
      ensures |Colliding(m, key.hash)| < 2 * slots
    {
      hide AddUpTo, Count, Unique, PlacedExcept, Shape, BuildOk, Contents;
      CollidingBound(buckets, hashpower, slots, key.hash);
      assert Colliding(m[key := val], key.hash) == Colliding(m, key.hash) + {key};
    }

    /** Doubles a full table unless its load factor is too low for that. */
    method Grow(hp: nat) returns (r: Result<Status>)
      requires Valid() && held == {} && hashpower == hp
      modifies this`hashpower, this`buckets, this`elems, this`held
      ensures Valid() && held == {} && Map() == old(Map())
      ensures r.Err? <==> old(Stuck(|Map()|))
      ensures r.Err? ==> Refused(|Map()|, r.error) && hashpower == hp && buckets == old(buckets)
      ensures r.Ok? ==>
        hp < maxAlloc && Shape(old(buckets), hp, slots) && buckets == Grown(old(buckets), hp, slots)
      ensures r.Ok? ==>
        && hashpower == hp + 1 && MayDouble(|Map()|, hp) && (mhp != NO_MAXIMUM_HASHPOWER ==> hashpower <= mhp)
        && 0 <= old(DoublingsLeft(|Map()|)) && DoublingsLeft(|Map()|) < old(DoublingsLeft(|Map()|))
    {
      hide Unique, PlacedExcept, Shape, AddUpTo, LocksFor, Contents, Count, HashSize, MayDouble, BuildOk, ComesFrom,
        Grown, AllInPlace;
      var size := Size();
      LoadFactorTest(size, hp);
      if size * mlfDen < mlfNum * slots * HashSize(hp) {
        return Err(LoadFactorTooLow);
      }
      r := FastDouble(hp);
    }

    /** One round of the insert loop: the outcome of one attempt, after which a full table has been doubled. */
    method InsertOrGrow(key: Key, val: Value) returns (r: Result<Status>)
      requires Valid() && held == {}
      modifies this`hashpower, this`buckets, this`elems, this`held
      ensures Valid() && held == {}
      ensures r == Ok(KeyDuplicated) <==> key in old(Map())
      ensures Map() == if r == Ok(Success) then old(Map())[key := val] else old(Map())
      ensures r.Err? ==> Refused(|Map()|, r.error) && |Map()| >= slots && NoRoom(key)
      ensures r.Err? <==> key !in old(Map()) && old(NoRoom(key)) && old(Stuck(|Map()|))
      ensures r == Ok(TableFull) <==> key !in old(Map()) && old(NoRoom(key)) && !old(Stuck(|Map()|))
      ensures r == Ok(TableFull) ==>
        && old(hashpower) < maxAlloc && Shape(old(buckets), old(hashpower), slots)
        && buckets == Grown(old(buckets), old(hashpower), slots)
      ensures r.Ok? ==> r.value in {Success, KeyDuplicated, TableFull}
      ensures r == Ok(TableFull) ==>
        && hashpower == old(hashpower) + 1 && DoubledLast(|Map()|)
        && 0 <= old(DoublingsLeft(|Map()|)) && DoublingsLeft(|Map()|) < old(DoublingsLeft(|Map()|))
      ensures r != Ok(TableFull) ==> hashpower == old(hashpower)
      ensures r != Ok(TableFull) && r != Ok(Success) ==> buckets == old(buckets)
    {
      hide LockInd, Contents, NoRoomIn, MayDouble, Refused, DoublingsLeft, Valid, Core, First, Second, Stuck, Grown,
        Shape;
      var i1, i2 := SnapshotAndLockTwo(key);
      var hp := hashpower;
      var st := CuckooInsert(key, val, i1, i2);
      if st == TableFull {
        r := Grow(hp);
        return if r.Err? then r else Ok(TableFull);
      }
      return Ok(st);
    }

    /** What one round tells about the rest. */
    lemma RoundDecides(t: Table, hp: nat, key: Key, n: nat)
      ensures !NoRoomIn(t, hp, slots, key) || StuckAt(n, hp) ==>
        (Refuses(t, hp, key, n) <==> NoRoomIn(t, hp, slots, key)) && EndsAt(t, hp, key, n) == hp
      ensures Shape(t, hp, slots) && NoRoomIn(t, hp, slots, key) && !StuckAt(n, hp) && hp < maxAlloc ==>
        && (Refuses(t, hp, key, n) <==> Refuses(Grown(t, hp, slots), hp + 1, key, n))
        && EndsAt(t, hp, key, n) == EndsAt(Grown(t, hp, slots), hp + 1, key, n) > hp
    {
      hide NoRoomIn, StuckAt, Shape, Grown, Refuses, EndsAt;
      if !NoRoomIn(t, hp, slots, key) || StuckAt(n, hp) {
        NoDoubling(t, hp, key, n);
      } else if Shape(t, hp, slots) && hp < maxAlloc {
        OneDoubling(t, hp, key, n);
      }
    }

    /** Without a minimum load factor every load factor is high enough. */
    lemma CapOfMlfZero()
      ensures mlfNum == 0 ==> forall n: nat, hp: nat :: MayDouble(n, hp)
    {
      hide HashSize;
      if mlfNum == 0 {
        forall n: nat, hp: nat
          ensures MayDouble(n, hp)
        {
          assert n * mlfDen >= 0;
        }
      }
    }

    lemma TableShape()
      requires Core()
      ensures Shape(buckets, hashpower, slots) && hashpower <= maxAlloc
    {
      hide AddUpTo, Count, Unique, PlacedExcept, Shape;
    }

    /** Tries to insert, doubling the table as long as it is full and doubling is allowed. */
    method CuckooInsertLoop(key: Key, val: Value) returns (r: Result<bool>)
      requires Valid() && held == {}
      modifies this`hashpower, this`buckets, this`elems, this`held
      ensures Valid() && held == {}
      ensures r == Ok(false) <==> key in old(Map())
      ensures Map() == if r == Ok(true) then old(Map())[key := val] else old(Map())
      ensures r.Err? <==> key !in old(Map()) && old(Refuses(buckets, hashpower, key, |Map()|))
      ensures hashpower == if key in old(Map()) then old(hashpower) else old(EndsAt(buckets, hashpower, key, |Map()|))
      ensures r.Err? ==> Refused(|old(Map())|, r.error) && |old(Map())| >= slots && NoRoom(key)
      ensures old(hashpower) <= hashpower && (r == Ok(false) ==> hashpower == old(hashpower) && buckets == old(buckets))
      ensures hashpower > old(hashpower) ==> DoubledLast(|old(Map())|)
      ensures key !in old(Map()) && |Colliding(old(Map()), key.hash)| >= 2 * slots ==> r.Err?
    {
      hide LockInd, Unique, PlacedExcept, Shape, AddUpTo, Contents, Count, NothingFree, PartialKey, HashSize,
        MayDouble, BuildOk, Colliding, Refused, DoublingsLeft, Valid, Core, CoreExcept, First, Second, StuckAt,
        NoRoomIn, Refuses, EndsAt, Grown, CappedAt, LocksFor, DoubledLast;
      var st := TableFull;
      ghost var n := |Map()|;
      ghost var refused, end := Refuses(buckets, hashpower, key, n), EndsAt(buckets, hashpower, key, n);
      while st != Success
        invariant Valid() && held == {}
        invariant st == Success ==> key !in old(Map())
        invariant Map() == if st == Success then old(Map())[key := val] else old(Map())
        invariant old(hashpower) <= hashpower && (hashpower == old(hashpower) || key !in old(Map()))
        invariant st != Success && hashpower == old(hashpower) ==> buckets == old(buckets)
        invariant st == Success ==> !refused && hashpower == end
        invariant st != Success ==>
          (refused <==> Refuses(buckets, hashpower, key, n)) && end == EndsAt(buckets, hashpower, key, n)
        invariant hashpower > old(hashpower) ==> DoubledLast(n)
        decreases if st == Success then 0 else 1, DoublingsLeft(n)
      {
        RoundDecides(buckets, hashpower, key, n);
        var round := InsertOrGrow(key, val);
        if round.Err? {
          return Err(round.error);
        }
        st := round.value;
        if st == KeyDuplicated {
          return Ok(false);
        }
      }
      CrowdedNowhere(key, old(Map()), val);
      return Ok(true);
    }

    /** Inserts unless the key is there. If more keys collide than two buckets hold and neither a minimum load factor
      * nor a maximum hash power is set, nothing but the allocator ends the doubling. */
    method Insert(key: Key, val: Value) returns (r: Result<bool>)
      requires Valid() && held == {}
      modifies this`hashpower, this`buckets, this`elems, this`held
      ensures Valid() && held == {}
      ensures r == Ok(false) <==> key in old(Map())
      ensures Map() == if r == Ok(true) then old(Map())[key := val] else old(Map())
      ensures r.Err? <==> key !in old(Map()) && old(Refuses(buckets, hashpower, key, |Map()|))
      ensures hashpower == if key in old(Map()) then old(hashpower) else old(EndsAt(buckets, hashpower, key, |Map()|))
      ensures r.Err? ==> Refused(|old(Map())|, r.error) && |old(Map())| >= slots && NoRoom(key)
      ensures r.Err? && hashpower == old(hashpower) <==>
        key !in old(Map()) && old(NoRoom(key)) && old(Stuck(|Map()|))
      ensures hashpower > old(hashpower) ==> old(NoRoom(key)) && !old(Stuck(|Map()|))
      ensures old(hashpower) <= hashpower && (r == Ok(false) ==> hashpower == old(hashpower) && buckets == old(buckets))
      ensures hashpower > old(hashpower) ==> DoubledLast(|old(Map())|)
      ensures key !in old(Map()) && |Colliding(old(Map()), key.hash)| >= 2 * slots ==>
        r.Err? && (mlfNum == 0 && mhp == NO_MAXIMUM_HASHPOWER ==> hashpower == maxAlloc)
    {
      hide Unique, PlacedExcept, Shape, AddUpTo, LocksFor, Contents, Count, HashSize, Colliding, BuildOk, NoRoomIn,
        MayDouble, Refuses, EndsAt, Grown;
      CapOfMlfZero();
      TableShape();
      RoundDecides(buckets, hashpower, key, |Map()|);
      r := CuckooInsertLoop(key, val);
    }

    /** Updates the value of the key, or inserts it. The doubling after a full first attempt is not subject to the
      * minimum load factor. An absent key is refused exactly if there is no room for it and either the table is at
      * its cap or the doubled table refuses an insertion; so always if more keys collide than two buckets hold, and
      * never as long as there are fewer entries than a bucket has slots. */
    method Upsert(key: Key, fn: Value -> Value, val: Value) returns (r: Result<()>)
      requires Valid() && held == {}
      modifies this`hashpower, this`buckets, this`elems, this`held
      ensures Valid() && held == {}
      ensures Map() ==
        if key in old(Map()) then old(Map())[key := fn(old(Map())[key])]
        else if r.Ok? then old(Map())[key := val]
        else old(Map())
      ensures key in old(Map()) ==> r.Ok? && hashpower == old(hashpower)
      ensures |old(Map())| < slots ==> r.Ok?
      ensures key !in old(Map()) && |Colliding(old(Map()), key.hash)| >= 2 * slots ==> r.Err?
      ensures r.Err? <==> key !in old(Map()) && old(NoRoom(key)) && (old(Capped()) || old(RefusesDoubled(key)))
      ensures r.Err? && hashpower == old(hashpower) <==>
        key !in old(Map()) && old(NoRoom(key)) && old(Capped())
      ensures hashpower == old(hashpower) <==> key in old(Map()) || !old(NoRoom(key)) || old(Capped())
      ensures r.Err? ==> NoRoom(key)
      ensures r.Err? && hashpower == old(hashpower) ==>
        if r.error == MaximumHashpowerExceeded then mhp != NO_MAXIMUM_HASHPOWER && mhp <= hashpower
        else r.error == OutOfMemory && hashpower == maxAlloc && (mhp != NO_MAXIMUM_HASHPOWER ==> hashpower < mhp)
      ensures r.Err? && hashpower > old(hashpower) ==> Refused(|old(Map())|, r.error)
      ensures old(hashpower) <= hashpower
      ensures hashpower > old(hashpower) + 1 ==> MayDouble(|old(Map())|, hashpower - 1)
      ensures hashpower > old(hashpower) && mhp != NO_MAXIMUM_HASHPOWER ==> hashpower <= mhp
    {
      hide LockInd, Contents, MayDouble, Refused, Valid, Core, First, Second, NoRoom, Capped, Colliding,
        RefusesDoubled, Unique, HashSize, LocksFor;
      var st := TableFull;
      while st != Success
        invariant Valid() && held == {} && hashpower == old(hashpower)
        invariant st != Success ==> Map() == old(Map()) && buckets == old(buckets)
        invariant st == Success ==>
          Map() == old(Map())[key := if key in old(Map()) then fn(old(Map())[key]) else val]
        invariant st == Success ==> key in old(Map()) || !old(NoRoom(key))
        decreases if st == Success then 0 else 1
      {
        st := TryUpsert(key, fn, val);
        if st == TableFull {
          r := DoubleAndInsert(key, val);
          return;
        }
      }
      if key !in old(Map()) {
        CrowdedNowhere(key, old(Map()), val);
      }
      return Ok(());
    }

    /** One attempt under the two locks of the key: updates it, or inserts it. */
    method TryUpsert(key: Key, fn: Value -> Value, val: Value) returns (st: Status)
      requires Valid() && held == {}
      modifies this`buckets, this`elems, this`held
      ensures Valid() && held == {} && (st == Success || st == TableFull)
      ensures st == Success ==> Map() == old(Map())[key := if key in old(Map()) then fn(old(Map())[key]) else val]
      ensures st == TableFull ==>
        key !in old(Map()) && Map() == old(Map()) && buckets == old(buckets) && |Map()| >= slots
      ensures st == TableFull <==> key !in old(Map()) && old(NoRoom(key))
    {
      hide First, Second, LockInd, Valid, Core, Contents, NoRoom;
      var i1, i2 := SnapshotAndLockTwo(key);
      var updated := UpdateLocked(key, fn, i1, i2);
      if updated {
        UnlockTwo(i1, i2);
        return Success;
      }
      st := CuckooInsert(key, val, i1, i2);
    }

    /** What upsert does when its first attempt finds the table full: double once, then insert in a loop. */
    method DoubleAndInsert(key: Key, val: Value) returns (r: Result<()>)
      requires Valid() && held == {} && key !in Map() && |Map()| >= slots && NoRoom(key)
      modifies this`hashpower, this`buckets, this`elems, this`held
      ensures Valid() && held == {}
      ensures Map() == if r.Ok? then old(Map())[key := val] else old(Map())
      ensures |Colliding(old(Map()), key.hash)| >= 2 * slots ==> r.Err?
      ensures r.Err? <==> old(Capped()) || old(RefusesDoubled(key))
      ensures hashpower == old(hashpower) <==> old(Capped())
      ensures old(Capped()) ==> r.Err?
      ensures r.Err? ==> NoRoom(key)
      ensures r.Err? && hashpower == old(hashpower) ==>
        if r.error == MaximumHashpowerExceeded then mhp != NO_MAXIMUM_HASHPOWER && mhp <= hashpower
        else r.error == OutOfMemory && hashpower == maxAlloc && (mhp != NO_MAXIMUM_HASHPOWER ==> hashpower < mhp)
      ensures r.Err? && hashpower > old(hashpower) ==> Refused(|old(Map())|, r.error)
      ensures old(hashpower) <= hashpower
      ensures hashpower > old(hashpower) + 1 ==> MayDouble(|old(Map())|, hashpower - 1)
      ensures hashpower > old(hashpower) && mhp != NO_MAXIMUM_HASHPOWER ==> hashpower <= mhp
    {
      hide Contents, Shape, MayDouble, Refused, Valid, Core, CoreExcept, ComesFrom, Colliding, Stuck, StuckAt, NoRoomIn,
        Refuses, EndsAt, Grown, AllInPlace, PlacedExcept, Unique;
      var doubled := FastDouble(hashpower);
      if doubled.Err? {
        return Err(doubled.error);
      }
      var inserted := CuckooInsertLoop(key, val);
      // The key cannot have appeared meanwhile, so there is no update to retry.
      assert inserted != Ok(false);
      if inserted.Err? {
        return Err(inserted.error);
      }
      assert inserted == Ok(if inserted.value then true else false);
      return Ok(());
    }

    /** Upsert can fail on every table: with keys of one hash, whichever it is, it comes to refuse an absent key after
      * at most 2 * slots successes. */
    method UpsertUntilRefused(hash: Word) returns (key: Key, r: Result<()>)
      requires Valid() && held == {}
      modifies this`hashpower, this`buckets, this`elems, this`held
      ensures Valid() && held == {}
      ensures r.Err? && key.hash == hash && 0 <= key.id <= 2 * slots && key !in Map()
    {
      hide Contents, NothingFree, MayDouble, Refused, Valid, Core, Colliding, Stuck, NoRoom, Capped;
      var i := 0;
      while true
        invariant Valid() && held == {} && i <= 2 * slots
        invariant forall j :: 0 <= j < i ==> Key(j, hash) in Map()
        decreases 2 * slots - i
      {
        key := Key(i, hash);
        r := Upsert(key, v => v, 0);
        if r.Err? {
          return;
        }
        i := i + 1;
        AtMostTwoBuckets(hash, i);
      }
    }

    lemma AtMostTwoBuckets(hash: Word, n: nat)
      requires Core() && forall j :: 0 <= j < n ==> Key(j, hash) in Map()
      ensures n <= 2 * slots
    {
      hide AddUpTo, Count, Unique, PlacedExcept, Shape, BuildOk, Contents;
      CollidingBound(buckets, hashpower, slots, hash);
      NumberedKeys(Map(), hash, n);
    }

    // ----- Building a table, and building it again at another size -----

    constructor (slots: nat, simple: bool, segment: nat, maxAlloc: nat, hp: nat, mlfNum: nat, mlfDen: nat, mhp: nat)
      requires BuildOk(slots, segment, maxAlloc) && 0 < hp <= maxAlloc && mlfNum <= mlfDen && mlfDen > 0
      ensures Valid() && held == {} && Map() == map[]
      ensures |elems| == AllocatedAfter(segment, 0, LocksFor(hp))
      ensures this.slots == slots && this.segment == segment && this.maxAlloc == maxAlloc && hashpower == hp
      ensures this.mlfNum == mlfNum && this.mlfDen == mlfDen && this.mhp == mhp
    {
      hide LocksFor, AllocatedAfter;
      this.slots, this.simple, this.segment, this.maxAlloc := slots, simple, segment, maxAlloc;
      this.mlfNum, this.mlfDen, this.mhp := mlfNum, mlfDen, mhp;
      hashpower := hp;
      buckets := EmptyTable(HashSize(hp), slots);
      elems := seq(AllocatedAfter(segment, 0, LocksFor(hp)), i => 0);
      held := {};
      new;
      hide Contents, Count, Unique, PlacedExcept, AddUpTo;
      AllocationCovers(segment, 0, hp);
      NothingStored(buckets, hp, slots);
      ZerosAddUp(elems);
    }

    /** A new, empty table with room for n entries, or the reason why there is none. */
    static method Create(
        slots: nat, simple: bool, segment: nat, maxAlloc: nat, n: nat, mlfNum: int, mlfDen: nat, mhp: nat)
        returns (r: Result<CuckooMap>)
      requires BuildOk(slots, segment, maxAlloc) && mlfDen > 0
      requires n < WORD && BucketsFor(slots, n) <= HashSize(MAX_HASHPOWER)
      ensures r == Err(InvalidArgument) <==>
        mlfNum < 0 || mlfNum > mlfDen || (mhp != NO_MAXIMUM_HASHPOWER && mhp < PowerFor(slots, n))
      ensures r.Err? && r.error != InvalidArgument ==> r.error == OutOfMemory && maxAlloc < PowerFor(slots, n)
      ensures r.Ok? ==>
        && fresh(r.value) && r.value.Valid() && r.value.held == {} && r.value.Map() == map[]
        && r.value.slots == slots && r.value.segment == segment && r.value.maxAlloc == maxAlloc
        && r.value.mlfNum == mlfNum && r.value.mlfDen == mlfDen && r.value.mhp == mhp
        && r.value.hashpower == PowerFor(slots, n) <= maxAlloc
        && (mhp != NO_MAXIMUM_HASHPOWER ==> r.value.hashpower <= mhp)
        && (n <= HashSize(r.value.hashpower) * slots <==> n + slots - 1 < WORD)
    {
      hide Contents, TableOk, AddUpTo, LocksFor, HashSize, AllocatedAfter, PowerFor, BucketsFor, SlotsFit;
      if mlfNum < 0 || mlfNum > mlfDen {
        return Err(InvalidArgument);
      }
      var hp := ReserveCalc(slots, n);
      PowerForIsLeast(slots, n);
      if mhp != NO_MAXIMUM_HASHPOWER && hp > mhp {
        return Err(InvalidArgument);
      }
      if hp > maxAlloc {
        return Err(OutOfMemory);
      }
      var table := new CuckooMap(slots, simple, segment, maxAlloc, hp, mlfNum, mlfDen, mhp);
      return Ok(table);
    }

    /** Rebuilds the table at the given hash power, or a larger one if the entries do not fit, by inserting every
      * entry into a new table that has no minimum load factor and no maximum hash power. The locks and their
      * counters stay as they are: only their sum is right afterwards, and locks that a larger table would need
      * are not allocated. The size of the new table is computed in words, and wraps for large hash powers.
      * Entries are values here. The original moves them out of their old slots, so when an insert runs out of
      * memory half way it leaves moved-from entries behind where this leaves the table as it was. */
    method ExpandSimple(newHp: nat, isExpansion: bool) returns (r: Result<Status>)
      requires Valid() && held == {}
      requires newHp <= MAX_HASHPOWER || !isExpansion || (mhp != NO_MAXIMUM_HASHPOWER && newHp > mhp)
      modifies this`hashpower, this`buckets, this`held
      ensures Core() && held == {} && Map() == old(Map()) && |Map()| <= HashSize(hashpower) * slots
      ensures r != Ok(Success) ==> buckets == old(buckets) && hashpower == old(hashpower)
      ensures r == Ok(Success) && NoWrap(slots, newHp) ==> newHp <= hashpower
      ensures r == Err(MaximumHashpowerExceeded) <==> mhp != NO_MAXIMUM_HASHPOWER && newHp > mhp
      ensures r == Ok(UnderExpansion) <==>
        && (mhp != NO_MAXIMUM_HASHPOWER ==> newHp <= mhp)
        && if isExpansion then newHp <= old(hashpower) else newHp >= old(hashpower)
      ensures r in {Ok(Success), Ok(UnderExpansion), Err(MaximumHashpowerExceeded), Err(OutOfMemory)}
      ensures Valid() <==> LocksFor(hashpower) <= |elems|
      ensures r == Ok(Success) && LocksFor(StartPower(slots, newHp)) > |elems| ==> !Valid()
      ensures hashpower <= old(hashpower) || |elems| == NUM_LOCKS ==> Valid()
      ensures r == Ok(Success) ==> GrownFrom(StartPower(slots, newHp))
      ensures r == Err(OutOfMemory) ==> GivesUp(StartPower(slots, newHp))
    {
      hide Contents, Count, TableOk, Unique, AddUpTo, LocksFor, HashSize, SlotsFit, Core, StartPower, NoWrap, Below,
        Blocked, BlockedBelow;
      Capacity();
      PositiveSlots();
      ghost var before := hashpower;
      if mhp != NO_MAXIMUM_HASHPOWER && newHp > mhp {
        return Err(MaximumHashpowerExceeded);
      }
      SnapshotAndLockAll();
      if (isExpansion && newHp <= hashpower) || (!isExpansion && newHp >= hashpower) {
        UnlockAll();
        return Ok(UnderExpansion);
      }
      SmallHashpower();
      StartOfRebuild(newHp);
      var rebuilt := Rebuild(newHp);
      UnlockAll();
      Capacity();
      LocksForMonotone(hashpower, before);
      LocksForMonotone(StartPower(slots, newHp), hashpower);
      return if rebuilt then Ok(Success) else Err(OutOfMemory);
    }

    /** The entries surely fit into a table of this hash power: they are no more than a bucket has slots, or than two
      * have from 2^9 buckets on, where the two buckets of a key differ. */
    ghost predicate Roomy(hp: nat)
      requires Unique(buckets)
      reads this`buckets
    {
      |Map()| <= slots || (hp >= 9 && |Map()| <= 2 * slots)
    }

    /** A rebuild that began at hash power `start` grew no further than it had to: at every smaller hash power some
      * table of the same entries has no room for the next one, which is never so where they surely fit. */
    ghost predicate GrownFrom(start: nat)
      requires Unique(buckets)
      reads this`buckets, this`hashpower
    {
      && start <= hashpower && BlockedBelow(start, hashpower, slots, Map())
      && (Roomy(start) ==> hashpower == start)
    }

    /** No table that the allocator grants is sure to take the entries: even the largest one, and every smaller one
      * from the starting size up, could be left without room for one of them. */
    ghost predicate GivesUp(start: nat)
      requires Unique(buckets)
      reads this`buckets
    {
      start > maxAlloc || (BlockedBelow(start, maxAlloc + 1, slots, Map()) && !Roomy(start))
    }

    /** With 2^9 buckets or more and at most as many entries as two buckets have slots, a rebuild never gets stuck. */
    lemma NeverBlocked(start: nat, end: nat)
      requires Core() && 9 <= start < end <= 64 && |Map()| <= 2 * slots
      ensures !BlockedBelow(start, end, slots, Map())
    {
      hide AddUpTo, Count, TableOk, BuildOk, Contents, Blocked;
      if Blocked(start, slots, Map()) {
        BlockedNeedsEntries(start, slots, Map());
      }
    }

    /** The rebuilding itself, with every lock in hand. */
    method Rebuild(newHp: nat) returns (done: bool)
      requires Core() && newHp <= MAX_HASHPOWER
      modifies this`hashpower, this`buckets
      ensures Core() && Map() == old(Map())
      ensures !done ==> buckets == old(buckets) && hashpower == old(hashpower)
      ensures done ==> GrownFrom(StartPower(slots, newHp))
      ensures !done ==> GivesUp(StartPower(slots, newHp))
    {
      hide Contents, Count, TableOk, Unique, AddUpTo, LocksFor, HashSize, Copied, AllocatedAfter, Below, SlotsFit,
        StartPower, PowerFor, SlotsOf, NoWrap, BucketsFor, Blocked, BlockedBelow;
      StartOfRebuild(newHp);
      var size := HashSize(newHp) * slots % WORD;
      var created := Create(slots, simple, segment, maxAlloc, size, 0, 1, NO_MAXIMUM_HASHPOWER);
      if created.Err? {
        return false;
      }
      var newMap := created.value;
      done := CopyInto(newMap);
      SmallHashpower();
      if !done {
        BlockedUpTo(StartPower(slots, newHp), maxAlloc, slots, Map());
      }
      GrowsAsBlocked(StartPower(slots, newHp), if done then newMap.hashpower else maxAlloc + 1);
      if done {
        Swap(newMap);
      }
    }

    lemma GrowsAsBlocked(start: nat, end: nat)
      requires Core() && start <= end <= 64 && BlockedBelow(start, end, slots, Map())
      requires |Map()| <= slots ==> end == start
      ensures Roomy(start) ==> end == start
    {
      hide BlockedBelow;
      if 9 <= start < end && |Map()| <= 2 * slots {
        NeverBlocked(start, end);
      }
    }

    lemma PositiveSlots()
      requires Core()
      ensures slots > 0
    {
    }

    lemma SmallHashpower()
      requires Core()
      ensures hashpower <= maxAlloc < MAX_HASHPOWER
    {
      hide AddUpTo, Count, TableOk, SlotsFit;
    }

    lemma StartOfRebuild(newHp: nat)
      requires Core() && newHp <= MAX_HASHPOWER
      ensures slots > 0
      ensures var size := HashSize(newHp) * slots % WORD;
        && BucketsFor(slots, size) <= HashSize(MAX_HASHPOWER) && PowerFor(slots, size) == StartPower(slots, newHp)
      ensures NoWrap(slots, newHp) ==> newHp <= StartPower(slots, newHp)
    {
      hide AddUpTo, Count, TableOk, SlotsFit, PowerFor, BucketsFor, NoWrap;
      Positive(slots);
      ShiftsDefined(slots, 0, newHp);
      StartPowerIsExact(slots, newHp);
    }

    /** No table holds more entries than it has slots. */
    lemma Capacity()
      requires Core()
      ensures |Map()| <= HashSize(hashpower) * slots
    {
      hide AddUpTo, Count, Unique, PlacedExcept, HashSize, Contents;
      CountIsSize(buckets);
      CountBound(buckets, slots);
    }

    /** Inserts every entry into an empty table. No insert finds its key there already. */
    method CopyInto(newMap: CuckooMap) returns (done: bool)
      requires Core() && newMap != this && newMap.Valid() && newMap.held == {} && newMap.Map() == map[]
      requires newMap.slots == slots
      requires newMap.mlfNum == 0 && newMap.mhp == NO_MAXIMUM_HASHPOWER
      modifies newMap`hashpower, newMap`buckets, newMap`elems, newMap`held
      ensures newMap.Valid() && newMap.held == {} && old(newMap.hashpower) <= newMap.hashpower
      ensures done ==> newMap.Map() == Map()
      ensures BlockedBelow(old(newMap.hashpower), newMap.hashpower, slots, Map())
      ensures !done ==> newMap.hashpower == newMap.maxAlloc && Blocked(newMap.maxAlloc, slots, Map())
      ensures |Map()| <= slots ==> done && newMap.hashpower == old(newMap.hashpower)
    {
      hide Contents, Count, Unique, PlacedExcept, AddUpTo, LocksFor, HashSize, BuildOk, Copied, Valid, Blocked,
        BlockedBelow;
      BlockedNowhere(newMap.hashpower, slots, Map());
      CopiedNothing(buckets);
      var i := 0;
      while i < |buckets|
        invariant i <= |buckets| && newMap.Valid() && newMap.held == {} && Copied(buckets, newMap.Map(), i, 0)
        invariant BlockedBelow(old(newMap.hashpower), newMap.hashpower, slots, Map())
        invariant old(newMap.hashpower) <= newMap.hashpower
        invariant |Map()| <= slots ==> newMap.hashpower == old(newMap.hashpower)
      {
        ghost var hp := newMap.hashpower;
        var ok := CopyBucket(i, newMap);
        BlockedOnwards(old(newMap.hashpower), hp, newMap.hashpower, slots, Map());
        if !ok {
          return false;
        }
        CopiedBucket(buckets, newMap.Map(), i, slots);
        i := i + 1;
      }
      CopiedAll(buckets, newMap.Map());
      return true;
    }

    method CopyBucket(i: nat, newMap: CuckooMap) returns (done: bool)
      requires Core() && i < |buckets| && newMap != this && newMap.Valid() && newMap.held == {}
      requires newMap.slots == slots && newMap.mlfNum == 0 && newMap.mhp == NO_MAXIMUM_HASHPOWER
      requires Copied(buckets, newMap.Map(), i, 0)
      modifies newMap`hashpower, newMap`buckets, newMap`elems, newMap`held
      ensures newMap.Valid() && newMap.held == {} && old(newMap.hashpower) <= newMap.hashpower
      ensures done ==> Copied(buckets, newMap.Map(), i, slots)
      ensures BlockedBelow(old(newMap.hashpower), newMap.hashpower, slots, Map())
      ensures !done ==> newMap.hashpower == newMap.maxAlloc && Blocked(newMap.maxAlloc, slots, Map())
      ensures |Map()| <= slots ==> done && newMap.hashpower == old(newMap.hashpower)
    {
      hide Contents, Count, Unique, PlacedExcept, AddUpTo, LocksFor, HashSize, BuildOk, Copied, Valid, Blocked,
        BlockedBelow;
      BlockedNowhere(newMap.hashpower, slots, Map());
      var j := 0;
      while j < slots
        invariant j <= slots && newMap.Valid() && newMap.held == {} && Copied(buckets, newMap.Map(), i, j)
        invariant BlockedBelow(old(newMap.hashpower), newMap.hashpower, slots, Map())
        invariant old(newMap.hashpower) <= newMap.hashpower
        invariant |Map()| <= slots ==> newMap.hashpower == old(newMap.hashpower)
      {
        if buckets[i][j].Full? {
          ghost var hp := newMap.hashpower;
          var inserted := CopyEntry(i, j, newMap);
          BlockedOnwards(old(newMap.hashpower), hp, newMap.hashpower, slots, Map());
          if !inserted {
            return false;
          }
        } else {
          CopiedSkip(buckets, newMap.Map(), i, j);
        }
        j := j + 1;
      }
      return true;
    }

    lemma InsertionBlocks(i: nat, j: nat, newMap: CuckooMap)
      requires Core() && Occupied(buckets, i, j) && newMap.Core() && newMap.slots == slots
      requires Copied(buckets, newMap.Map(), i, j)
      ensures var key, n := buckets[i][j].key, |newMap.Map()|;
        var end := newMap.EndsAt(newMap.buckets, newMap.hashpower, key, n);
        && BlockedBelow(newMap.hashpower, end, slots, Map())
        && (newMap.Refuses(newMap.buckets, newMap.hashpower, key, n) ==> Blocked(end, slots, Map()))
    {
      hide AddUpTo, Count, Unique, PlacedExcept, Shape, BuildOk, Contents, EndsAt, Refuses, Blocked, BlockedBelow,
        PartOf, Copied;
      NextIsNew(buckets, newMap.Map(), i, j);
      CopiedIsPart(buckets, newMap.Map(), i, j);
      newMap.EndBlocks(newMap.buckets, newMap.hashpower, buckets[i][j].key, |newMap.Map()|, Map());
    }

    /** One insert into the new table. It does not find its key there. */
    method CopyEntry(i: nat, j: nat, newMap: CuckooMap) returns (inserted: bool)
      requires Core() && Occupied(buckets, i, j) && newMap != this && newMap.Valid() && newMap.held == {}
      requires newMap.slots == slots && Copied(buckets, newMap.Map(), i, j)
      requires newMap.mlfNum == 0 && newMap.mhp == NO_MAXIMUM_HASHPOWER
      modifies newMap`hashpower, newMap`buckets, newMap`elems, newMap`held
      ensures newMap.Valid() && newMap.held == {} && old(newMap.hashpower) <= newMap.hashpower
      ensures inserted ==> Copied(buckets, newMap.Map(), i, j + 1)
      ensures BlockedBelow(old(newMap.hashpower), newMap.hashpower, slots, Map())
      ensures !inserted ==> newMap.hashpower == newMap.maxAlloc && Blocked(newMap.maxAlloc, slots, Map())
      ensures |Map()| <= slots ==> inserted && newMap.hashpower == old(newMap.hashpower)
    {
      hide Contents, Count, TableOk, Unique, AddUpTo, LocksFor, HashSize, BuildOk, Copied, Valid, Core, MayDouble,
        Colliding, NoRoom, Refuses, EndsAt, Stuck, StoredBefore, Blocked, BlockedBelow;
      newMap.CapOfMlfZero();
      NextIsNew(buckets, newMap.Map(), i, j);
      CopiedNext(buckets, newMap.Map(), i, j);
      CopiedIsSmaller(buckets, newMap.Map(), i, j);
      InsertionBlocks(i, j, newMap);
      var r := newMap.Insert(buckets[i][j].key, buckets[i][j].val);
      assert r != Ok(false);
      if r.Ok? {
        assert r == Ok(if r.value then true else false);
      }
      return r.Ok?;
    }

    /** Takes over the bucket array of a table with the same entries, and its hash power; not its counters. */
    method Swap(newMap: CuckooMap)
      requires Core() && newMap.Core() && newMap.Map() == Map()
      requires newMap.slots == slots && newMap.maxAlloc == maxAlloc && newMap != this
      modifies this`buckets, this`hashpower
      ensures Core() && Map() == old(Map()) && hashpower == newMap.hashpower
    {
      hide Contents, Count, Unique, PlacedExcept, Shape, AddUpTo, BuildOk;
      CountIsSize(buckets);
      CountIsSize(newMap.buckets);
      buckets := newMap.buckets;
      hashpower := newMap.hashpower;
    }

    /** Sets the hash power. A result of true says that the table was rebuilt, not that its size changed: a table of
      * hash power 1 asked for hash power 0 is rebuilt at 1, one asked for a size too small for its entries does not
      * shrink, and one asked for a size that wraps is rebuilt small. */
    method Rehash(n: nat) returns (r: Result<bool>)
      requires Valid() && held == {}
      requires n <= MAX_HASHPOWER || (mhp != NO_MAXIMUM_HASHPOWER && n > mhp)
      modifies this`hashpower, this`buckets, this`held
      ensures Core() && held == {} && Map() == old(Map())
      ensures r == Ok(false) <==> n == old(hashpower)
      ensures r.Err? ==> r.error == MaximumHashpowerExceeded || r.error == OutOfMemory
      ensures r != Ok(true) ==> buckets == old(buckets) && hashpower == old(hashpower)
      ensures r == Ok(true) && NoWrap(slots, n) ==> n <= hashpower
      ensures r == Ok(true) && |Map()| <= slots && NoWrap(slots, n) ==>
        (hashpower == old(hashpower) <==> n == 0 && old(hashpower) == 1)
      ensures r == Ok(true) && |Map()| > HashSize(old(hashpower) - 1) * slots ==> hashpower >= old(hashpower)
      ensures r == Err(MaximumHashpowerExceeded) <==> n != old(hashpower) && mhp != NO_MAXIMUM_HASHPOWER && n > mhp
      ensures n == 0 && old(hashpower) == 1 && |Map()| <= slots ==> r == Ok(true) && hashpower == old(hashpower)
      ensures r == Ok(true) && LocksFor(StartPower(slots, n)) > |elems| ==> !Valid()
      ensures hashpower <= old(hashpower) || |elems| == NUM_LOCKS ==> Valid()
      ensures r == Ok(true) ==> GrownFrom(StartPower(slots, n))
      ensures r == Err(OutOfMemory) ==> GivesUp(StartPower(slots, n))
    {
      hide Contents, Count, Unique, PlacedExcept, Shape, AddUpTo, LocksFor, HashSize, StartPower, NoWrap, BuildOk,
        Blocked, BlockedBelow;
      if n == hashpower {
        return Ok(false);
      }
      ghost var before := hashpower;
      StartIsExact(n);
      StartIsExact(0);
      var rebuilt := ExpandSimple(n, n > hashpower);
      if hashpower < before {
        SlotsGrow(slots, hashpower, before - 1);
      }
      return if rebuilt.Err? then Err(rebuilt.error) else Ok(rebuilt.value == Success);
    }

    lemma StartIsExact(hp: nat)
      requires Core()
      ensures StartPower(slots, hp) == (if hp > 1 then hp else 1) <==> NoWrap(slots, hp)
      ensures StartPower(slots, hp) <= if hp > 1 then hp else 1
    {
      hide AddUpTo, Count, TableOk, SlotsFit, NoWrap;
      StartPowerIsExact(slots, hp);
    }

    lemma RoomAfterRebuild(n: nat)
      requires Core() && n < WORD && StartPower(slots, PowerFor(slots, n)) <= hashpower
      ensures n <= HashSize(hashpower) * slots <==> n + slots - 1 < WORD && NoWrap(slots, PowerFor(slots, n))
    {
      hide AddUpTo, Count, TableOk, SlotsFit, StartPower, PowerFor, NoWrap;
      RoomInGranted(slots, n, hashpower, maxAlloc);
    }

    /** Makes room for n entries, unless a sum or a product wraps. As for Rehash, a result of true says that the table
      * was rebuilt; its size need not have changed. */
    method Reserve(n: nat) returns (r: Result<bool>)
      requires Valid() && held == {} && n < WORD && BucketsFor(slots, n) <= HashSize(MAX_HASHPOWER)
      modifies this`hashpower, this`buckets, this`held
      ensures Core() && held == {} && Map() == old(Map())
      ensures r == Ok(false) <==> PowerFor(slots, n) == old(hashpower)
      ensures r.Err? ==> r.error == MaximumHashpowerExceeded || r.error == OutOfMemory
      ensures r == Ok(false) ==> (n <= HashSize(hashpower) * slots <==> n + slots - 1 < WORD)
      ensures r == Ok(true) ==>
        (n <= HashSize(hashpower) * slots <==> n + slots - 1 < WORD && NoWrap(slots, PowerFor(slots, n)))
      ensures r == Ok(true) && |Map()| > HashSize(old(hashpower) - 1) * slots ==> hashpower >= old(hashpower)
      ensures r == Ok(true) && |Map()| <= slots && NoWrap(slots, PowerFor(slots, n)) ==> hashpower != old(hashpower)
      ensures r == Ok(true) && LocksFor(StartPower(slots, PowerFor(slots, n))) > |elems| ==> !Valid()
      ensures r != Ok(true) ==> buckets == old(buckets) && hashpower == old(hashpower)
      ensures r == Err(MaximumHashpowerExceeded) <==>
        PowerFor(slots, n) != old(hashpower) && mhp != NO_MAXIMUM_HASHPOWER && PowerFor(slots, n) > mhp
      ensures hashpower <= old(hashpower) || |elems| == NUM_LOCKS ==> Valid()
      ensures r == Ok(true) ==> GrownFrom(StartPower(slots, PowerFor(slots, n)))
      ensures r == Err(OutOfMemory) ==> GivesUp(StartPower(slots, PowerFor(slots, n)))
    {
      hide Contents, Count, Unique, PlacedExcept, Shape, AddUpTo, LocksFor, HashSize, StartPower, NoWrap, PowerFor,
        SlotsFit, BucketsFor, Blocked, BlockedBelow;
      PowerForIsLeast(slots, n);
      var newHp := ReserveCalc(slots, n);
      StartIsExact(newHp);
      if newHp == hashpower {
        return Ok(false);
      }
      ghost var before := hashpower;
      var rebuilt := ExpandSimple(newHp, newHp > hashpower);
      if rebuilt == Ok(Success) {
        RoomAfterRebuild(n);
        if hashpower < before {
          SlotsGrow(slots, hashpower, before - 1);
        }
      }
      return if rebuilt.Err? then Err(rebuilt.error) else Ok(rebuilt.value == Success);
    }
  }

  lemma BucketPartials(t: Table, hp: nat, b: nat)
    requires Placed(t, hp) && b < |t|
    ensures PartialsOk(t[b])
  {
    hide Cand, PartialKey;
    forall s | 0 <= s < |t[b]| && t[b][s].Full?
      ensures t[b][s].partial == PartialKey(t[b][s].key.hash)
    {
      assert Occupied(t, b, s);
    }
  }

  lemma SumOfNone()
    ensures Sum([]) == 0
  {
  }

  lemma SumOfOneMore(elems: seq<nat>, i: nat)
    requires i < |elems|
    ensures Sum(elems[..i + 1]) == Sum(elems[..i]) + elems[i]
  {
    assert elems[..i + 1][..i] == elems[..i];
  }

  /** Wrapping after every addition gives the wrapped sum. */
  lemma AddWraps(a: nat, b: nat)
    ensures (a % WORD + b) % WORD == (a + b) % WORD
  {
    var q := a / WORD;
    assert a == WORD * q + a % WORD;
    SameResidueShift(a % WORD + b, q);
  }

  lemma ZerosAddUp(elems: seq<nat>)
    requires forall l :: 0 <= l < |elems| ==> elems[l] == 0
    ensures AddUpTo(elems, 0)
  {
    SumZeros(elems);
  }

  lemma OneIsStored(t: Table, b: nat, s: nat)
    requires Occupied(t, b, s)
    ensures Count(t) > 0
  {
    EmptyTableCount(t);
  }
}
