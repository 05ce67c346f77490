/** Cuckoo paths: recovering one from a path code by re-reading the table. */
module CuckooPaths {
  import opened Hashing
  import opened Tables
  import opened SearchQueue
  import opened PathCodes
  import opened Bfs
  import opened SearchOrder
  import opened SlotSearches

  /** One position of a path, with the hash of the key seen there. */
  datatype Record = Record(bucket: nat, slot: nat, hash: Word)

  /** What a path is by construction, whatever has become of the table: it starts at one of the two insert
    * buckets, and each bucket is where the hash seen in the one before it would be kicked to. */
  predicate PathOk(g: Start, path: seq<Record>)
  {
    && 0 < |path| <= MAX_BFS_PATH_LEN
    && path[0].bucket in {g.i1, g.i2}
    && (forall j :: 0 <= j < |path| ==> path[j].slot < g.slots && path[j].bucket < HashSize(g.hp))
    && (forall j :: 0 < j < |path| ==>
         path[j].bucket == AltIndex(g.hp, PartialKey(path[j - 1].hash), path[j - 1].bucket))
  }

  /** The table still looks the way the path says, its last slot is empty, and no bucket occurs twice. */
  ghost predicate LivePath(t: Table, path: seq<Record>)
  {
    && 0 < |path|
    && (forall j :: 0 <= j < |path| - 1 ==>
         && Occupied(t, path[j].bucket, path[j].slot)
         && t[path[j].bucket][path[j].slot].key.hash == path[j].hash)
    && !Occupied(t, path[|path| - 1].bucket, path[|path| - 1].slot)
    && (forall i, j :: 0 <= i < j < |path| ==> path[i].bucket != path[j].bucket)
  }

  /** The kick from position d - 1 of a path to position d is still possible. */
  predicate ShiftValid(t: Table, path: seq<Record>, d: nat)
    requires 0 < d < |path|
  {
    && Occupied(t, path[d - 1].bucket, path[d - 1].slot)
    && t[path[d - 1].bucket][path[d - 1].slot].key.hash == path[d - 1].hash
    && path[d].bucket < |t| && path[d].slot < |t[path[d].bucket]|
    && t[path[d].bucket][path[d].slot].Empty?
  }

  /** The table after kicking along the path, from position d down to its start or to the first kick that is no
    * longer possible. */
  function Kicked(t: Table, path: seq<Record>, d: nat): (t': Table)
    requires d < |path|
    decreases d
  {
    if d == 0 || !ShiftValid(t, path, d) then t
    else Kicked(Move(t, path[d - 1].bucket, path[d - 1].slot, path[d].bucket, path[d].slot), path, d - 1)
  }

  /** Every kick from position d down is possible when its turn comes. */
  predicate AllKicks(t: Table, path: seq<Record>, d: nat)
    requires d < |path|
    decreases d
  {
    d == 0
    || (ShiftValid(t, path, d)
        && AllKicks(Move(t, path[d - 1].bucket, path[d - 1].slot, path[d].bucket, path[d].slot), path, d - 1))
  }

  /** The start of a live path is free when nothing has to be moved. */
  lemma LiveEnd(t: Table, path: seq<Record>, d: nat)
    requires 0 < |path| && d == |path| - 1
    ensures LivePath(t, path) ==> !Occupied(t, path[d].bucket, path[d].slot)
  {
  }

  /** The last move of a live path is possible, and leaves a live path one shorter. */
  lemma LiveMoves(t: Table, path: seq<Record>, d: nat)
    requires 0 < d < |path|
    ensures LivePath(t, path[..d + 1]) ==>
      && Occupied(t, path[d - 1].bucket, path[d - 1].slot)
      && t[path[d - 1].bucket][path[d - 1].slot].key.hash == path[d - 1].hash
      && !Occupied(t, path[d].bucket, path[d].slot)
    ensures LivePath(t, path[..d + 1]) && path[d].bucket < |t| && path[d].slot < |t[path[d].bucket]| ==>
      LivePath(Move(t, path[d - 1].bucket, path[d - 1].slot, path[d].bucket, path[d].slot), path[..d])
  {
    var live := path[..d + 1];
    if LivePath(t, live) {
      assert live[d - 1] == path[d - 1] && live[d] == path[d];
      if path[d].bucket < |t| && path[d].slot < |t[path[d].bucket]| {
        LiveAfterMove(t, path, d);
      }
    }
  }

  lemma LiveAfterMove(t: Table, path: seq<Record>, d: nat)
    requires 0 < d < |path| && LivePath(t, path[..d + 1])
    requires Occupied(t, path[d - 1].bucket, path[d - 1].slot)
    requires path[d].bucket < |t| && path[d].slot < |t[path[d].bucket]| && t[path[d].bucket][path[d].slot].Empty?
    ensures LivePath(Move(t, path[d - 1].bucket, path[d - 1].slot, path[d].bucket, path[d].slot), path[..d])
  {
    var live, shorter := path[..d + 1], path[..d];
    hide Move;
    MoveFrame(t, path[d - 1].bucket, path[d - 1].slot, path[d].bucket, path[d].slot);
    assert forall j :: 0 <= j < d ==> shorter[j] == live[j] == path[j];
    assert live[d] == path[d];
  }

  /** Takes a path code apart by repeated division: the slots of the path, and what is left is the start bucket. */
  method DecodePath(slots: nat, code: nat, n: nat) returns (root: nat, path: seq<nat>)
    requires slots > 0
    ensures path == DecodeSlots(slots, code, n) && root == DecodeRoot(slots, code, n)
  {
    path, root := [], code;
    var i := n;
    while i > 0
      invariant DecodeSlots(slots, code, n) == DecodeSlots(slots, root, i) + path
      invariant DecodeRoot(slots, code, n) == DecodeRoot(slots, root, i)
    {
      path := [root % slots] + path;
      root := root / slots;
      i := i - 1;
    }
  }

  /** What a second pass reads, one bucket at a time: at each position but the last it found a key of the recorded
    * hash, and at the last one too unless the slot was empty then. */
  ghost predicate AsRead(later: nat -> Snapshot, path: seq<Record>)
  {
    forall j {:trigger path[j]} :: 0 <= j < |path| ==>
      var t := later(j).table;
      && (j < |path| - 1 ==> Occupied(t, path[j].bucket, path[j].slot))
      && (Occupied(t, path[j].bucket, path[j].slot) ==>
            t[path[j].bucket][path[j].slot].key.hash == path[j].hash)
  }

  /** The second pass began at the decoded bucket, took the decoded slots, and stopped before the last of them
    * only where it read an empty slot. */
  ghost predicate Reread(g: Start, later: nat -> Snapshot, root: nat, digits: seq<nat>, path: seq<Record>)
  {
    && AsRead(later, path)
    && 0 < |path| <= |digits|
    && path[0].bucket == (if root == 0 then g.i1 else g.i2)
    && (forall j :: 0 <= j < |path| ==> path[j].slot == digits[j])
    && (|path| < |digits| ==> !Occupied(later(|path| - 1).table, path[|path| - 1].bucket, path[|path| - 1].slot))
  }

  /** The table found at position j of the path of this code is what the search saw. */
  ghost predicate Retraced(t: Table, g: Start, root: nat, digits: seq<nat>, path: seq<Record>)
    requires g.Valid()
  {
    && |path| <= |digits|
    && (forall j {:trigger path[j]} :: 0 <= j < |path| ==>
         path[j].bucket == PathBucket(t, g, root, digits, j) && path[j].slot == digits[j])
    && (forall j {:trigger path[j].hash} :: 0 <= j < |path| && j < |digits| - 1 ==>
         && Occupied(t, path[j].bucket, path[j].slot)
         && t[path[j].bucket][path[j].slot].key.hash == path[j].hash)
  }

  ghost predicate LeadsToFree(t: Table, g: Start, root: nat, digits: seq<nat>)
    requires g.Valid()
  {
    && digits != [] && IsDigits(g.slots, digits)
    && (forall i, j :: 0 <= i < j < |digits| ==>
         PathBucket(t, g, root, digits, i) != PathBucket(t, g, root, digits, j))
    && (forall j :: 0 <= j < |digits| - 1 ==> Occupied(t, PathBucket(t, g, root, digits, j), digits[j]))
    && !Occupied(t, PathBucket(t, g, root, digits, |digits| - 1), digits[|digits| - 1])
  }

  lemma ShortestLeadsToFree(t: Table, g: Start, code: nat, depth: nat)
    requires g.Valid() && ShortestFree(t, g, code, depth)
    ensures LeadsToFree(t, g, DecodeRoot(g.slots, code, depth + 1), DecodeSlots(g.slots, code, depth + 1))
  {
    ShortestPathIsSimple(t, g, code, depth);
  }

  lemma RetracedNext(t: Table, g: Start, root: nat, digits: seq<nat>, path: seq<Record>, r: Record)
    requires g.Valid() && LeadsToFree(t, g, root, digits) && Placed(t, g.hp)
    requires 0 < |path| < |digits| && Retraced(t, g, root, digits, path)
    requires r.bucket == AltIndex(g.hp, PartialKey(path[|path| - 1].hash), path[|path| - 1].bucket)
    requires r.slot == digits[|path|]
    requires Occupied(t, r.bucket, r.slot) ==> t[r.bucket][r.slot].key.hash == r.hash
    ensures Retraced(t, g, root, digits, path + [r])
    ensures Occupied(t, r.bucket, r.slot) <==> |path| < |digits| - 1
  {
    hide Cand, PathBucket, AltIndex, PartialKey;
    var k := |path|;
    PathBucketStep(t, g, root, digits, k - 1);
    assert path[k - 1].bucket == PathBucket(t, g, root, digits, k - 1);
  }

  lemma RetracedFirst(t: Table, g: Start, root: nat, digits: seq<nat>, r: Record)
    requires g.Valid() && root < 2 && LeadsToFree(t, g, root, digits)
    requires r.bucket == (if root == 0 then g.i1 else g.i2) && r.slot == digits[0]
    requires Occupied(t, r.bucket, r.slot) ==> t[r.bucket][r.slot].key.hash == r.hash
    ensures Retraced(t, g, root, digits, [r])
    ensures Occupied(t, r.bucket, r.slot) <==> 1 < |digits|
  {
    assert digits[..0] == [];
    assert PathBucket(t, g, root, digits, 0) == r.bucket;
  }

  lemma RetracedMore(t: Table, g: Start, root: nat, digits: seq<nat>, path: seq<Record>, r: Record)
    requires g.Valid() && root < 2 && LeadsToFree(t, g, root, digits) && Placed(t, g.hp)
    requires |path| < |digits| && (path != [] ==> Retraced(t, g, root, digits, path))
    requires r.bucket == if path == [] then if root == 0 then g.i1 else g.i2
                         else AltIndex(g.hp, PartialKey(path[|path| - 1].hash), path[|path| - 1].bucket)
    requires r.slot == digits[|path|]
    requires Occupied(t, r.bucket, r.slot) ==> t[r.bucket][r.slot].key.hash == r.hash
    ensures Retraced(t, g, root, digits, path + [r])
    ensures Occupied(t, r.bucket, r.slot) <==> |path| < |digits| - 1
  {
    hide AltIndex, PartialKey, LeadsToFree, Retraced, Placed;
    if path == [] {
      RetracedFirst(t, g, root, digits, r);
      assert path + [r] == [r];
    } else {
      RetracedNext(t, g, root, digits, path, r);
    }
  }

  lemma RetracedIsLive(t: Table, g: Start, root: nat, digits: seq<nat>, path: seq<Record>)
    requires g.Valid() && LeadsToFree(t, g, root, digits) && Retraced(t, g, root, digits, path)
    requires |path| == |digits|
    ensures LivePath(t, path)
  {
    hide PathBucket;
  }

  /** Some empty slot at most n - 1 kicks away is a nearest one. */
  lemma {:induction false} NearestFree(t: Table, g: Start, n: nat) returns (code: nat, depth: nat)
    requires g.Valid() && !ShallowerFull(t, g, n)
    ensures depth < n && ShortestFree(t, g, code, depth)
  {
    hide Walk, Pow, Occupied, Extend;
    if n == 0 {
      assert false;
    } else if !ShallowerFull(t, g, n - 1) {
      code, depth := NearestFree(t, g, n - 1);
    } else {
      var c: nat, e: nat :| e < n && c < 2 * Pow(g.slots, e) && !BucketFull(t, g.slots, Walk(t, g, c, e));
      var s: nat :| s < g.slots && !Occupied(t, Walk(t, g, c, e), s);
      ExtendSplits(g.slots, c, s);
      DigitBound(g.slots, c, s, e);
      code, depth := Extend(g.slots, c, s), e;
    }
  }

  /** What a second pass over the digits finds in a table that has not changed. */
  ghost function PathTo(t: Table, g: Start, root: nat, digits: seq<nat>): (path: seq<Record>)
    requires g.Valid()
  {
    seq(|digits|, j requires 0 <= j < |digits| =>
          var b := PathBucket(t, g, root, digits, j);
          Record(b, digits[j], if Occupied(t, b, digits[j]) then t[b][digits[j]].key.hash else 0))
  }

  lemma PathToNext(t: Table, g: Start, root: nat, digits: seq<nat>, j: nat)
    requires g.Valid() && j + 1 < |digits| && LeadsToFree(t, g, root, digits) && Placed(t, g.hp)
    ensures var path := PathTo(t, g, root, digits);
      path[j + 1].bucket == AltIndex(g.hp, PartialKey(path[j].hash), path[j].bucket)
  {
    hide PathBucket, AltIndex, PartialKey, HashSize, Cand;
    PathBucketStep(t, g, root, digits, j);
  }

  lemma PathToInRange(t: Table, g: Start, root: nat, digits: seq<nat>)
    requires g.Valid() && root < 2 && digits != [] && IsDigits(g.slots, digits)
    ensures var path := PathTo(t, g, root, digits);
      && path[0].bucket in {g.i1, g.i2}
      && forall j :: 0 <= j < |path| ==> path[j].slot < g.slots && path[j].bucket < HashSize(g.hp)
  {
    hide Walk, HashSize;
    RootBucket(t, g, root, digits);
  }

  lemma PathToIsLive(t: Table, g: Start, root: nat, digits: seq<nat>)
    requires g.Valid() && LeadsToFree(t, g, root, digits)
    ensures LivePath(t, PathTo(t, g, root, digits))
  {
    hide PathBucket, HashSize, LivePath;
    RetracedIsLive(t, g, root, digits, PathTo(t, g, root, digits));
  }

  lemma PathToIsOk(t: Table, g: Start, root: nat, digits: seq<nat>)
    requires g.Valid() && root < 2 && LeadsToFree(t, g, root, digits) && Placed(t, g.hp)
    requires |digits| <= MAX_BFS_PATH_LEN
    ensures PathOk(g, PathTo(t, g, root, digits)) && LivePath(t, PathTo(t, g, root, digits))
  {
    PathToIsLive(t, g, root, digits);
    PathToInRange(t, g, root, digits);
    hide LivePath, Placed, PathBucket, AltIndex, PartialKey, HashSize;
    var path := PathTo(t, g, root, digits);
    forall j | 0 < j < |path|
      ensures path[j].bucket == AltIndex(g.hp, PartialKey(path[j - 1].hash), path[j - 1].bucket)
    {
      PathToNext(t, g, root, digits, j - 1);
    }
  }

  lemma RootBucket(t: Table, g: Start, root: nat, digits: seq<nat>)
    requires g.Valid() && root < 2
    ensures PathBucket(t, g, root, digits, 0) == if root == 0 then g.i1 else g.i2
  {
    assert digits[..0] == [];
  }

  /** In a table whose entries are all in place, an insertion that has not run out of slots to look at has a path. */
  lemma FreeHasPath(t: Table, g: Start) returns (path: seq<Record>)
    requires g.Valid() && Placed(t, g.hp) && !NothingFree(t, g)
    ensures PathOk(g, path) && LivePath(t, path)
  {
    hide ShallowerFull, ShortestFree, LeadsToFree, Placed, PathOk, LivePath, PathTo, Walk, Pow;
    FreeIsNear(t, g);
    var code, depth := NearestFree(t, g, MAX_BFS_PATH_LEN);
    assert code < 2 * Pow(g.slots, depth + 1) by {
      ShortestBound(t, g, code, depth);
    }
    EncodeDecode(g.slots, code, depth + 1);
    ShortestLeadsToFree(t, g, code, depth);
    var root, digits := DecodeRoot(g.slots, code, depth + 1), DecodeSlots(g.slots, code, depth + 1);
    PathToIsOk(t, g, root, digits);
    path := PathTo(t, g, root, digits);
  }

  lemma ShortestBound(t: Table, g: Start, code: nat, depth: nat)
    requires g.Valid() && ShortestFree(t, g, code, depth)
    ensures code < 2 * Pow(g.slots, depth + 1)
  {
  }

  lemma FreeIsNear(t: Table, g: Start)
    requires g.Valid() && !NothingFree(t, g)
    ensures !ShallowerFull(t, g, MAX_BFS_PATH_LEN)
  {
    if g.slots > 3 {
      hide Walk, Pow, CodeOf, LevelOf;
      var j: nat, i: nat :| Examined(g.slots, j, i) && !TryFull(t, g, j, i);
      ExaminedIsShallow(g.slots, j);
      CodeBound(g.slots, j);
      assert !BucketFull(t, g.slots, Walk(t, g, CodeOf(g.slots, j), LevelOf(g.slots, j)));
    }
  }

  /** Recovers a path from the code the search found, re-reading bucket by bucket what may have changed since:
    * `env` is what the search saw, `later` what this second pass sees. An empty path means none was found.
    * However the table changes the path is well formed and is what was read; if nothing changed it is exactly the
    * path that was searched for, and every move it asks for is still possible. */
  method PathSearch(g: Start, env: nat -> Snapshot, later: nat -> Snapshot) returns (changed: bool, path: seq<Record>)
    requires g.Valid()
    requires forall i: nat :: env(i).hp == g.hp ==> Shape(env(i).table, g.hp, g.slots)
    requires forall i: nat :: later(i).hp == g.hp ==> Shape(later(i).table, g.hp, g.slots)
    ensures !changed && path != [] ==> PathOk(g, path) && AsRead(later, path)
    ensures !changed && g.slots >= 4 ==> |path| <= 4
    ensures forall t :: Unchanging(g, env, t) && Unchanging(g, later, t) && Placed(t, g.hp) ==>
      !changed && (path != [] ==> LivePath(t, path) && ShallowerFull(t, g, |path| - 1))
    ensures forall t :: Unchanging(g, env, t) && !changed ==> (path == [] <==> NothingFree(t, g))
  {
    hide ShortestFree, ShallowerFull, NothingFree, LeadsToFree, Retraced, LivePath, Extend, Pow, AsRead;
    var x: BSlot;
    changed, x := SlotSearch(g, env);
    path := [];
    if changed || x.depth < 0 {
      return;
    }
    ghost var t, still := env(0).table, Unchanging(g, env, env(0).table) && Unchanging(g, later, env(0).table)
      && Placed(env(0).table, g.hp);
    OneUnchangingTable(g, env);
    var root, digits := DecodePath(g.slots, x.pathcode, x.depth + 1);
    EncodeDecode(g.slots, x.pathcode, x.depth + 1);
    if still {
      ShortestLeadsToFree(t, g, x.pathcode, x.depth);
    }
    hide Unchanging, Placed;
    changed, path := Retrace(g, later, root, digits, t, still);
    if still {
      ShallowerOfShortest(t, g, x.pathcode, x.depth);
    }
  }

  lemma ShallowerOfShortest(t: Table, g: Start, code: nat, depth: nat)
    requires g.Valid() && ShortestFree(t, g, code, depth)
    ensures ShallowerFull(t, g, depth)
  {
  }

  lemma ReadNothing(later: nat -> Snapshot)
    ensures AsRead(later, [])
  {
  }

  lemma ReadOneMore(later: nat -> Snapshot, path: seq<Record>, r: Record)
    requires AsRead(later, path)
    requires path != [] ==> Occupied(later(|path| - 1).table, path[|path| - 1].bucket, path[|path| - 1].slot)
    requires var t := later(|path|).table; Occupied(t, r.bucket, r.slot) ==> t[r.bucket][r.slot].key.hash == r.hash
    ensures AsRead(later, path + [r])
  {
  }

  /** Walks the digits of a path, recording the buckets and hashes actually found, up to the first slot that
    * turns out empty. */
  method Retrace(g: Start, later: nat -> Snapshot, root: nat, digits: seq<nat>, ghost t: Table, ghost still: bool)
      returns (changed: bool, path: seq<Record>)
    requires g.Valid() && root < 2 && 0 < |digits| <= MAX_BFS_PATH_LEN && IsDigits(g.slots, digits)
    requires forall i: nat :: later(i).hp == g.hp ==> Shape(later(i).table, g.hp, g.slots)
    requires still ==> Unchanging(g, later, t) && Placed(t, g.hp) && LeadsToFree(t, g, root, digits)
    ensures if changed then |path| < |digits| && later(|path|).hp != g.hp
            else PathOk(g, path) && Reread(g, later, root, digits, path)
    ensures still ==> !changed && |path| == |digits| && LivePath(t, path)
  {
    hide LeadsToFree, Retraced, LivePath, AltIndex, PartialKey, Placed, HashSize, AsRead;
    ReadNothing(later);
    changed, path := false, [];
    var bucket := if root == 0 then g.i1 else g.i2;
    var i := 0;
    while i < |digits|
      invariant i == |path| <= |digits| && bucket < HashSize(g.hp)
      invariant i > 0 ==> PathOk(g, path)
      invariant i > 0 ==> bucket == AltIndex(g.hp, PartialKey(path[i - 1].hash), path[i - 1].bucket)
      invariant i == 0 ==> bucket == if root == 0 then g.i1 else g.i2
      invariant i > 0 && still ==> Retraced(t, g, root, digits, path)
      invariant AsRead(later, path) && forall j :: 0 <= j < i ==> path[j].slot == digits[j]
      invariant i > 0 ==> path[0].bucket == if root == 0 then g.i1 else g.i2
      invariant i > 0 ==> Occupied(later(i - 1).table, path[i - 1].bucket, path[i - 1].slot)
    {
      var seen := later(i);
      if seen.hp != g.hp {
        return true, path;
      }
      var entry := seen.table[bucket][digits[i]];
      var r := Record(bucket, digits[i], if entry.Full? then entry.key.hash else 0);
      if still {
        RetracedMore(t, g, root, digits, path, r);
      }
      ReadOneMore(later, path, r);
      path := path + [r];
      i := i + 1;
      if entry.Empty? {
        break;
      }
      bucket := AltIndex(g.hp, PartialKey(entry.key.hash), bucket);
    }
    if still {
      RetracedIsLive(t, g, root, digits, path);
    }
  }
}
