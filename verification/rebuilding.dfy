/** Copying a table slot by slot in order: what has been copied so far. */
module Rebuilding {
  import opened Hashing
  import opened Tables
  import opened Crowding
  import opened Blocking

  /** Slot (b, s) comes before slot (c, r) in the order of a walk. */
  predicate Before(b: int, s: int, c: int, r: int)
  {
    b < c || (b == c && s < r)
  }

  /** m holds exactly the entries in front of slot (b, s). */
  ghost predicate Copied(t: Table, m: map<Key, Value>, b: nat, s: nat)
  {
    && (forall c, r :: Occupied(t, c, r) && Before(c, r, b, s) ==> t[c][r].key in m && m[t[c][r].key] == t[c][r].val)
    && (forall k :: k in m ==> StoredBefore(t, k, b, s))
  }

  ghost predicate StoredBefore(t: Table, k: Key, b: nat, s: nat)
  {
    exists c, r :: Occupied(t, c, r) && Before(c, r, b, s) && t[c][r].key == k
  }

  lemma CopiedNothing(t: Table)
    ensures Copied(t, map[], 0, 0)
  {
  }

  /** The next entry is not in the copy yet. */
  lemma NextIsNew(t: Table, m: map<Key, Value>, b: nat, s: nat)
    requires Unique(t) && Copied(t, m, b, s) && Occupied(t, b, s)
    ensures t[b][s].key !in m
  {
  }

  lemma CopiedNext(t: Table, m: map<Key, Value>, b: nat, s: nat)
    requires Unique(t) && Copied(t, m, b, s) && Occupied(t, b, s)
    ensures Copied(t, m[t[b][s].key := t[b][s].val], b, s + 1)
  {
    var k0 := t[b][s].key;
    var m' := m[k0 := t[b][s].val];
    NextIsNew(t, m, b, s);
    forall k | k in m'
      ensures StoredBefore(t, k, b, s + 1)
    {
      assert k != k0 ==> StoredBefore(t, k, b, s);
      assert Before(b, s, b, s + 1);
    }
  }

  lemma CopiedSkip(t: Table, m: map<Key, Value>, b: nat, s: nat)
    requires Copied(t, m, b, s) && !Occupied(t, b, s)
    ensures Copied(t, m, b, s + 1)
  {
    forall k | k in m
      ensures StoredBefore(t, k, b, s + 1)
    {
      assert StoredBefore(t, k, b, s);
    }
  }

  lemma CopiedBucket(t: Table, m: map<Key, Value>, b: nat, slots: nat)
    requires Copied(t, m, b, slots) && b < |t| && |t[b]| == slots
    ensures Copied(t, m, b + 1, 0)
  {
    forall k | k in m
      ensures StoredBefore(t, k, b + 1, 0)
    {
      assert StoredBefore(t, k, b, slots);
    }
  }

  lemma CopiedAll(t: Table, m: map<Key, Value>)
    requires Unique(t) && Copied(t, m, |t|, 0)
    ensures m == Contents(t)
  {
    forall k | k in m
      ensures Stores(t, k)
    {
      assert StoredBefore(t, k, |t|, 0);
    }
    SameContents(t, m);
  }

  lemma CopiedIsPart(t: Table, m: map<Key, Value>, b: nat, s: nat)
    requires Unique(t) && Copied(t, m, b, s)
    ensures PartOf(m, Contents(t))
  {
    forall k | k in m
      ensures k in Contents(t) && Contents(t)[k] == m[k]
    {
      assert StoredBefore(t, k, b, s);
    }
  }

  /** What has been copied is smaller than the whole as long as there is a next entry. */
  lemma CopiedIsSmaller(t: Table, m: map<Key, Value>, b: nat, s: nat)
    requires Unique(t) && Copied(t, m, b, s) && Occupied(t, b, s)
    ensures |m| < |Contents(t)|
  {
    hide Unique, Contents;
    NextIsNew(t, m, b, s);
    var k0 := t[b][s].key;
    forall k | k in m
      ensures k in Contents(t)
    {
      assert StoredBefore(t, k, b, s);
    }
    assert m.Keys + {k0} <= Contents(t).Keys;
    SubsetSize(m.Keys + {k0}, Contents(t).Keys);
  }
}
