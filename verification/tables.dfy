/** The bucket array as a value, the map it represents, and what writing one slot does to both. */
module Tables {
  import opened Hashing

  /** Values are opaque payload: no proof looks inside one. */
  type Value = int

  datatype Slot = Empty | Full(partial: nat, key: Key, val: Value)

  type Bucket = seq<Slot>

  type Table = seq<Bucket>

  predicate Shape(t: Table, hp: nat, slots: nat)
  {
    && |t| == HashSize(hp)
    && forall b :: 0 <= b < |t| ==> |t[b]| == slots
  }

  predicate Occupied(t: Table, b: int, s: int)
  {
    0 <= b < |t| && 0 <= s < |t[b]| && t[b][s].Full?
  }

  /** No key sits in two slots. */
  ghost predicate Unique(t: Table)
  {
    forall b, s, c, r :: Occupied(t, b, s) && Occupied(t, c, r) && t[b][s].key == t[c][r].key ==> b == c && s == r
  }

  /** Every key sits in a candidate bucket next to its own partial. Buckets in `pending` have not been
    * migrated by the doubling that produced hash power `hp`: their keys still sit where the previous
    * hash power puts them, and the upper half of each is still empty. */
  ghost predicate PlacedExcept(t: Table, hp: nat, pending: set<nat>)
  {
    && (forall b, s :: Occupied(t, b, s) ==>
         && t[b][s].partial == PartialKey(t[b][s].key.hash)
         && if b in pending then hp > 0 && Cand(hp - 1, t[b][s].key, b) else Cand(hp, t[b][s].key, b))
    && (pending != {} ==> hp > 0)
    && (forall b :: b in pending ==> b < HashSize(hp - 1))
    && (forall b, s :: Occupied(t, b, s) && pending != {} ==> b - HashSize(hp - 1) !in pending)
  }

  ghost predicate Placed(t: Table, hp: nat)
  {
    PlacedExcept(t, hp, {})
  }

  ghost predicate Stores(t: Table, k: Key)
  {
    exists b, s :: Occupied(t, b, s) && t[b][s].key == k
  }

  ghost function KeysOf(t: Table): (ks: set<Key>)
    ensures forall k :: k in ks <==> Stores(t, k)
  {
    set b, s | 0 <= b < |t| && 0 <= s < |t[b]| && Occupied(t, b, s) :: t[b][s].key
  }

  ghost function ValueOf(t: Table, k: Key): (v: Value)
    requires Stores(t, k)
    ensures exists b, s :: Occupied(t, b, s) && t[b][s].key == k && t[b][s].val == v
  {
    var b, s :| Occupied(t, b, s) && t[b][s].key == k;
    t[b][s].val
  }

  /** The map a table represents. */
  ghost function Contents(t: Table): (m: map<Key, Value>)
    requires Unique(t)
    ensures forall b, s :: Occupied(t, b, s) ==> t[b][s].key in m && m[t[b][s].key] == t[b][s].val
    ensures forall k :: k in m ==> Stores(t, k)
  {
    map k | k in KeysOf(t) :: ValueOf(t, k)
  }

  lemma SameContents(t: Table, m: map<Key, Value>)
    requires Unique(t)
    requires forall b, s :: Occupied(t, b, s) ==> t[b][s].key in m && m[t[b][s].key] == t[b][s].val
    requires forall k :: k in m ==> Stores(t, k)
    ensures Contents(t) == m
  {
    assert forall k :: k in Contents(t) <==> k in m;
  }

  function Put(t: Table, b: nat, s: nat, x: Slot): (t': Table)
    requires b < |t| && s < |t[b]|
  {
    t[b := t[b][s := x]]
  }

  /** Moves the entry of slot (b, s) into slot (c, r), stored partial included. */
  function Move(t: Table, b: nat, s: nat, c: nat, r: nat): (t': Table)
    requires b < |t| && s < |t[b]| && c < |t| && r < |t[c]|
  {
    Put(Put(t, c, r, t[b][s]), b, s, Empty)
  }

  lemma PutFrame(t: Table, b: nat, s: nat, x: Slot)
    requires b < |t| && s < |t[b]|
    ensures forall c, r {:trigger Occupied(t, c, r)} {:trigger Occupied(Put(t, b, s, x), c, r)} ::
      c != b || r != s ==>
        (Occupied(Put(t, b, s, x), c, r) <==> Occupied(t, c, r))
        && (Occupied(t, c, r) ==> Put(t, b, s, x)[c][r] == t[c][r])
    ensures Occupied(Put(t, b, s, x), b, s) <==> x.Full?
    ensures Put(t, b, s, x)[b][s] == x
  {
  }

  lemma MoveFrame(t: Table, b: nat, s: nat, c: nat, r: nat)
    requires Occupied(t, b, s) && c < |t| && r < |t[c]| && t[c][r].Empty?
    ensures forall d, q {:trigger Occupied(t, d, q)} {:trigger Occupied(Move(t, b, s, c, r), d, q)} ::
      (d != b || q != s) && (d != c || q != r) ==>
        (Occupied(Move(t, b, s, c, r), d, q) <==> Occupied(t, d, q))
        && (Occupied(t, d, q) ==> Move(t, b, s, c, r)[d][q] == t[d][q])
    ensures !Occupied(Move(t, b, s, c, r), b, s)
    ensures Occupied(Move(t, b, s, c, r), c, r) && Move(t, b, s, c, r)[c][r] == t[b][s]
    ensures |Move(t, b, s, c, r)| == |t|
    ensures forall d :: 0 <= d < |t| ==> |Move(t, b, s, c, r)[d]| == |t[d]|
    ensures forall d :: 0 <= d < |t| && d != b && d != c ==> Move(t, b, s, c, r)[d] == t[d]
  {
    PutFrame(t, c, r, t[b][s]);
    PutFrame(Put(t, c, r, t[b][s]), b, s, Empty);
  }

  lemma PutOverPut(t: Table, b: nat, s: nat, x: Slot, y: Slot)
    requires b < |t| && s < |t[b]|
    ensures Put(Put(t, b, s, x), b, s, y) == Put(t, b, s, y)
  {
    assert t[b][s := x][s := y] == t[b][s := y];
  }

  lemma PutsCommute(t: Table, b: nat, s: nat, x: Slot, c: nat, r: nat, y: Slot)
    requires b < |t| && s < |t[b]| && c < |t| && r < |t[c]| && (b != c || s != r)
    ensures Put(Put(t, b, s, x), c, r, y) == Put(Put(t, c, r, y), b, s, x)
  {
    if b == c {
      assert t[b][s := x][r := y] == t[b][r := y][s := x];
    }
    var t1: Table, t2: Table := Put(Put(t, b, s, x), c, r, y), Put(Put(t, c, r, y), b, s, x);
    assert forall i :: 0 <= i < |t| ==> t1[i] == t2[i];
  }

  lemma PutNewEntry(t: Table, b: nat, s: nat, x: Slot)
    requires Unique(t) && b < |t| && s < |t[b]| && t[b][s].Empty? && x.Full? && x.key !in Contents(t)
    ensures Unique(Put(t, b, s, x))
    ensures Contents(Put(t, b, s, x)) == Contents(t)[x.key := x.val]
  {
    var t': Table, m := Put(t, b, s, x), Contents(t)[x.key := x.val];
    PutFrame(t, b, s, x);
    forall k | k in m
      ensures Stores(t', k)
    {
      if k != x.key {
        assert Stores(t, k);
      }
    }
    SameContents(t', m);
  }

  lemma EraseEntry(t: Table, b: nat, s: nat)
    requires Unique(t) && Occupied(t, b, s)
    ensures Unique(Put(t, b, s, Empty))
    ensures Contents(Put(t, b, s, Empty)) == Contents(t) - {t[b][s].key}
  {
    var t': Table, m := Put(t, b, s, Empty), Contents(t) - {t[b][s].key};
    PutFrame(t, b, s, Empty);
    forall k | k in m
      ensures Stores(t', k)
    {
      assert Stores(t, k);
    }
    SameContents(t', m);
  }

  lemma MapReinsert(m: map<Key, Value>, k: Key)
    requires k in m
    ensures (m - {k})[k := m[k]] == m
  {
  }

  /** Moving an entry into an empty slot loses nothing and duplicates nothing. */
  lemma MoveKeepsContents(t: Table, b: nat, s: nat, c: nat, r: nat)
    requires Unique(t) && Occupied(t, b, s) && c < |t| && r < |t[c]| && t[c][r].Empty?
    ensures Unique(Move(t, b, s, c, r))
    ensures Contents(Move(t, b, s, c, r)) == Contents(t)
  {
    var x: Slot, u: Table := t[b][s], Put(t, b, s, Empty);
    PutsCommute(t, c, r, x, b, s, Empty);
    EraseEntry(t, b, s);
    PutNewEntry(u, c, r, x);
    MapReinsert(Contents(t), x.key);
  }

  lemma SetWithoutKey(m: map<Key, Value>, k: Key, v: Value)
    ensures (m - {k})[k := v] == m[k := v]
  {
  }

  lemma SetEntryValue(t: Table, b: nat, s: nat, v: Value)
    requires Unique(t) && Occupied(t, b, s)
    ensures Unique(Put(t, b, s, t[b][s].(val := v)))
    ensures Contents(Put(t, b, s, t[b][s].(val := v))) == Contents(t)[t[b][s].key := v]
  {
    hide Contents, Unique;
    var t': Table, x, u: Table := Put(t, b, s, t[b][s].(val := v)), t[b][s].(val := v), Put(t, b, s, Empty);
    EraseEntry(t, b, s);
    PutFrame(t, b, s, Empty);
    PutNewEntry(u, b, s, x);
    PutOverPut(t, b, s, Empty, x);
    SetWithoutKey(Contents(t), x.key, v);
  }

  /** The naturals below n. */
  ghost function Below(n: nat): (ns: set<nat>)
    ensures forall i :: i in ns <==> 0 <= i < n
  {
    if n == 0 then {} else Below(n - 1) + {n - 1}
  }

  // ----- Looking a key up in one bucket -----

  /** The slot of `k` in a bucket, by key comparison alone; -1 when it is not there. */
  function SlotOf(bucket: Bucket, k: Key): (r: int)
    ensures -1 <= r < |bucket|
    ensures r >= 0 ==> bucket[r].Full? && bucket[r].key == k
    ensures r < 0 ==> forall s :: 0 <= s < |bucket| && bucket[s].Full? ==> bucket[s].key != k
  {
    if bucket == [] then -1
    else
      var r := SlotOf(bucket[..|bucket| - 1], k);
      if r >= 0 then r
      else if bucket[|bucket| - 1].Full? && bucket[|bucket| - 1].key == k then |bucket| - 1
      else -1
  }

  /** The first empty slot of a bucket; -1 when it is full. */
  function EmptySlot(bucket: Bucket): (r: int)
    ensures -1 <= r < |bucket|
    ensures r >= 0 ==> bucket[r].Empty? && forall s :: 0 <= s < r ==> bucket[s].Full?
    ensures r < 0 ==> forall s :: 0 <= s < |bucket| ==> bucket[s].Full?
  {
    if bucket == [] then -1
    else
      var r := EmptySlot(bucket[..|bucket| - 1]);
      if r >= 0 then r
      else if bucket[|bucket| - 1].Empty? then |bucket| - 1
      else -1
  }

  /** In a table that is not being migrated a key is stored exactly when one of its two buckets holds it. */
  lemma LookupIsMembership(t: Table, hp: nat, slots: nat, k: Key)
    requires Shape(t, hp, slots) && Unique(t) && Placed(t, hp)
    ensures k in Contents(t) <==> SlotOf(t[First(hp, k)], k) >= 0 || SlotOf(t[Second(hp, k)], k) >= 0
  {
    if k in Contents(t) {
      assert Stores(t, k);
      var b, s :| Occupied(t, b, s) && t[b][s].key == k;
      assert Cand(hp, k, b);
    }
  }

  // ----- Counting -----

  ghost function BucketCount(bucket: Bucket): nat
  {
    if bucket == [] then 0
    else BucketCount(bucket[..|bucket| - 1]) + if bucket[|bucket| - 1].Full? then 1 else 0
  }

  /** The number of occupied slots. */
  ghost function Count(t: Table): nat
  {
    if t == [] then 0 else Count(t[..|t| - 1]) + BucketCount(t[|t| - 1])
  }

  lemma {:induction false} BucketCountPut(bucket: Bucket, s: nat, x: Slot)
    requires s < |bucket|
    ensures BucketCount(bucket[s := x])
         == BucketCount(bucket) - (if bucket[s].Full? then 1 else 0) + (if x.Full? then 1 else 0)
    decreases |bucket|
  {
    var n := |bucket| - 1;
    if s == n {
      assert bucket[s := x][..n] == bucket[..n];
    } else {
      assert bucket[s := x][..n] == bucket[..n][s := x];
      BucketCountPut(bucket[..n], s, x);
    }
  }

  lemma {:induction false} CountPut(t: Table, b: nat, s: nat, x: Slot)
    requires b < |t| && s < |t[b]|
    ensures Count(Put(t, b, s, x)) == Count(t) - (if t[b][s].Full? then 1 else 0) + (if x.Full? then 1 else 0)
    decreases |t|
  {
    var n := |t| - 1;
    if b == n {
      assert Put(t, b, s, x)[..n] == t[..n];
      BucketCountPut(t[b], s, x);
    } else {
      assert Put(t, b, s, x)[..n] == Put(t[..n], b, s, x);
      CountPut(t[..n], b, s, x);
    }
  }

  lemma CountMove(t: Table, b: nat, s: nat, c: nat, r: nat)
    requires Occupied(t, b, s) && c < |t| && r < |t[c]| && t[c][r].Empty?
    ensures Count(Move(t, b, s, c, r)) == Count(t)
  {
    CountPut(t, c, r, t[b][s]);
    CountPut(Put(t, c, r, t[b][s]), b, s, Empty);
  }

  lemma {:induction false} EmptyBucketCount(bucket: Bucket)
    ensures BucketCount(bucket) == 0 <==> forall s :: 0 <= s < |bucket| ==> bucket[s].Empty?
  {
    if bucket != [] {
      EmptyBucketCount(bucket[..|bucket| - 1]);
    }
  }

  lemma {:induction false} EmptyTableCount(t: Table)
    ensures Count(t) == 0 <==> forall b, s :: !Occupied(t, b, s)
  {
    if t != [] {
      var n := |t| - 1;
      EmptyTableCount(t[..n]);
      EmptyBucketCount(t[n]);
      assert forall b, s :: Occupied(t[..n], b, s) ==> Occupied(t, b, s);
      assert forall s :: 0 <= s < |t[n]| && t[n][s].Full? ==> Occupied(t, n, s);
      assert forall b, s :: Occupied(t, b, s) && b != n ==> Occupied(t[..n], b, s);
    }
  }

  /** The number of occupied slots is the size of the map. */
  lemma {:induction false} CountIsSize(t: Table)
    requires Unique(t)
    ensures Count(t) == |Contents(t)|
    decreases Count(t)
  {
    EmptyTableCount(t);
    hide Contents, Count, Unique;
    if Count(t) == 0 {
      NothingInEmpty(t);
    } else {
      var b, s :| Occupied(t, b, s);
      CountPut(t, b, s, Empty);
      EraseEntry(t, b, s);
      CountIsSize(Put(t, b, s, Empty));
      OneLess(Contents(t), t[b][s].key);
    }
  }

  lemma NothingInEmpty(t: Table)
    requires Unique(t) && forall b, s :: !Occupied(t, b, s)
    ensures Contents(t) == map[]
  {
    forall k
      ensures k !in Contents(t)
    {
      assert k in Contents(t) ==> Stores(t, k);
    }
  }

  lemma OneLess(m: map<Key, Value>, k: Key)
    requires k in m
    ensures |m - {k}| == |m| - 1
  {
    assert (m - {k}).Keys == m.Keys - {k};
    assert |m.Keys - {k}| == |m.Keys| - 1;
  }

  // ----- Appending empty buckets -----

  function EmptyBucket(slots: nat): Bucket { seq(slots, i => Empty) }

  /** `n` buckets of `slots` empty slots. */
  function EmptyTable(n: nat, slots: nat): (t: Table)
    ensures |t| == n && forall b :: 0 <= b < n ==> t[b] == EmptyBucket(slots)
  {
    seq(n, i => EmptyBucket(slots))
  }

  lemma AppendEmptyKeepsContents(t: Table, n: nat, slots: nat)
    requires Unique(t)
    ensures Unique(t + EmptyTable(n, slots))
    ensures Contents(t + EmptyTable(n, slots)) == Contents(t)
    ensures Count(t + EmptyTable(n, slots)) == Count(t)
  {
    var t' := t + EmptyTable(n, slots);
    assert forall b, s :: Occupied(t', b, s) ==> Occupied(t, b, s) && t'[b][s] == t[b][s];
    forall k | k in Contents(t)
      ensures Stores(t', k)
    {
      assert Stores(t, k);
      var b, s :| Occupied(t, b, s) && t[b][s].key == k;
      assert Occupied(t', b, s) && t'[b][s] == t[b][s];
    }
    SameContents(t', Contents(t));
    CountIsSize(t);
    CountIsSize(t');
  }
}
