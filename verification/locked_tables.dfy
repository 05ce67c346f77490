/** A table owned as a whole, and iterators over it. */
module LockedTables {
  import opened Options
  import opened Hashing
  import opened Tables
  import opened Locks
  import opened CuckooMaps
  import opened Rebuilding
  import opened Walks

  /** Ownership of every lock of a table, until it is released. */
  class LockedTable {
    const owned: CuckooMap
    var hasTableLock: bool

    ghost predicate Valid()
      reads this, owned
    {
      owned.Valid() && (hasTableLock ==> owned.held == Below(|owned.elems|))
    }

    constructor (owned: CuckooMap)
      requires owned.Valid() && owned.held == {}
      modifies owned`held
      ensures Valid() && hasTableLock && this.owned == owned && owned.Map() == old(owned.Map())
    {
      this.owned := owned;
      hasTableLock := true;
      new;
      hide CuckooMap.Valid, Contents;
      owned.SnapshotAndLockAll();
    }

    /** Gives every lock back; releasing again does nothing. */
    method Release()
      requires Valid()
      modifies this`hasTableLock, owned`held
      ensures Valid() && !hasTableLock && owned.Map() == old(owned.Map())
      ensures owned.held == if old(hasTableLock) then {} else old(owned.held)
    {
      hide CuckooMap.Valid, Contents;
      if hasTableLock {
        owned.UnlockAll();
        hasTableLock := false;
      }
    }

    /** The first entry, or nothing once the table has been released. */
    method Begin() returns (r: Option<TableIterator>)
      requires Valid()
      ensures r.Some? <==> hasTableLock
      ensures r.Some? ==> fresh(r.value) && r.value.table == this && r.value.Valid()
      ensures r.Some? ==> forall o :: Holds(owned.buckets, o) ==> !Ahead(o, r.value.At())
    {
      hide CuckooMap.Core, Contents;
      if !hasTableLock {
        return None;
      }
      owned.BucketSizes();
      var it := new TableIterator(this, 0, 0);
      return Some(it);
    }

    method End() returns (r: Option<TableIterator>)
      requires Valid()
      ensures r.Some? <==> hasTableLock
      ensures r.Some? ==> fresh(r.value) && r.value.table == this && r.value.Valid()
      ensures r.Some? ==> r.value.At() == EndPos(owned.buckets)
    {
      hide CuckooMap.Core, Contents;
      if !hasTableLock {
        return None;
      }
      var it := new TableIterator(this, |owned.buckets|, 0);
      return Some(it);
    }

    /** Walks from begin to end. It takes exactly as many steps as there are entries, and meets every occupied slot
      * once, in ascending order. */
    method Walk() returns (visited: seq<Position>, entries: seq<(Key, Value)>)
      requires Valid() && hasTableLock
      ensures |visited| == |owned.Map()| && Listed(owned.buckets, visited, entries)
      ensures forall i, j :: 0 <= i < j < |visited| ==> Ahead(visited[i], visited[j])
      ensures forall p :: p in visited <==> Holds(owned.buckets, p)
      ensures forall k, v :: (k, v) in entries <==> k in owned.Map() && owned.Map()[k] == v
    {
      hide CuckooMap.Core, Contents, Unique, Copied, Visited, Listed;
      visited, entries := [], [];
      var t := owned.buckets;
      ghost var m: map<Key, Value> := map[];
      var first := Begin();
      var last := End();
      var it, end := first.value, last.value;
      WalkStarts(t, it.At());
      owned.BucketSizes();
      StandsInRange(t, owned.slots, it.At());
      var atEnd := it.Equals(end);
      while !atEnd
        invariant fresh(it) && fresh(end) && it.table == this && end.table == this && it.Valid()
        invariant end.At() == EndPos(t) && (atEnd <==> it.At() == EndPos(t))
        invariant 0 <= it.index <= |t| && 0 <= it.slot <= owned.slots
        invariant Visited(t, visited, it.At()) && Listed(t, visited, entries)
        invariant Copied(t, m, it.index, it.slot) && |m| == |visited|
        decreases |t| - it.index, owned.slots - it.slot
      {
        var p := it.At();
        var ok, entry := it.Current();
        ok := it.Increment();
        StandsInRange(t, owned.slots, it.At());
        VisitedNext(t, visited, p, it.At());
        ListedNext(t, visited, entries, p);
        CopiedToNext(t, m, p, it.At());
        m := m[t[p.index][p.slot].key := t[p.index][p.slot].val];
        visited := visited + [p];
        entries := entries + [entry];
        atEnd := it.Equals(end);
      }
      ListsContents(t, visited, entries);
      CopiedAll(t, m);
    }
  }

  /** A position in a locked table: an occupied slot, or the end. */
  class TableIterator {
    const table: LockedTable
    var index: int
    var slot: int

    function At(): Position
      reads this
    {
      Position(index, slot)
    }

    ghost predicate Valid()
      reads this, table, table.owned
    {
      table.Valid() && Stands(table.owned.buckets, At())
    }

    /** Stays at the given position if it is the end or occupied, else steps forward. */
    constructor (table: LockedTable, index: int, slot: int)
      requires table.Valid() && table.hasTableLock
      requires Position(index, slot) == EndPos(table.owned.buckets)
        || (0 <= index < |table.owned.buckets| && 0 <= slot < table.owned.slots)
      ensures this.table == table && Valid()
      ensures if Stands(table.owned.buckets, Position(index, slot)) then At() == Position(index, slot)
        else Follows(table.owned.buckets, Position(index, slot), At())
    {
      this.table, this.index, this.slot := table, index, slot;
      new;
      hide CuckooMap.Core;
      if Position(index, slot) != EndPos(table.owned.buckets) && table.owned.buckets[index][slot].Empty? {
        var ok := Increment();
      }
    }

    /** Two iterators over one table that is still owned are equal exactly when neither is ahead of the other. An
      * iterator that has lost its table equals nothing, not even itself. */
    method Equals(other: TableIterator) returns (r: bool)
      ensures table.owned == other.table.owned && table.hasTableLock && other.table.hasTableLock ==>
        (r <==> !Ahead(At(), other.At()) && !Ahead(other.At(), At()))
      ensures r ==> table.owned == other.table.owned && table.hasTableLock && other.table.hasTableLock
    {
      r := table.hasTableLock && other.table.hasTableLock && table.owned == other.table.owned
        && index == other.index && slot == other.slot;
    }

    /** The entry at this place; false once the table has been released. */
    method Current() returns (ok: bool, entry: (Key, Value))
      requires table.Valid() && Holds(table.owned.buckets, At())
      ensures ok <==> table.hasTableLock
      ensures ok ==> entry == EntryAt(table.owned.buckets, At())
      ensures ok ==> entry.0 in table.owned.Map() && table.owned.Map()[entry.0] == entry.1
    {
      var x := table.owned.buckets[index][slot];
      return table.hasTableLock, (x.key, x.val);
    }

    /** Writes the value of the entry at this place. No entry moves, so all iterators stay valid. */
    method Assign(val: Value) returns (ok: bool)
      requires table.Valid() && Holds(table.owned.buckets, At())
      modifies table.owned`buckets
      ensures table.Valid() && (ok <==> table.hasTableLock)
      ensures ok ==> table.owned.Map() == old(table.owned.Map())[old(EntryAt(table.owned.buckets, At())).0 := val]
      ensures !ok ==> table.owned.buckets == old(table.owned.buckets)
      ensures forall p :: Stands(table.owned.buckets, p) <==> old(Stands(table.owned.buckets, p))
    {
      hide CuckooMap.Core, Contents, LockInd;
      ok := table.hasTableLock;
      if ok {
        table.owned.LockOfBucket(index);
        table.owned.SetValue(index, slot, val);
      }
    }

    /** Moves to the next occupied slot, or to the end; false, without moving, once the table has been released. */
    method Increment() returns (ok: bool)
      requires table.Valid()
      requires At() == EndPos(table.owned.buckets)
        || (0 <= index < |table.owned.buckets| && 0 <= slot < table.owned.slots)
      modifies this`index, this`slot
      ensures ok <==> table.hasTableLock
      ensures !ok ==> At() == old(At())
      ensures ok ==> Valid() && Follows(table.owned.buckets, old(At()), At())
    {
      hide CuckooMap.Core, Unique;
      if !table.hasTableLock {
        return false;
      }
      var t := table.owned.buckets;
      table.owned.BucketSizes();
      ghost var p := At();
      while index < |t|
        invariant p.index <= index <= |t| && -1 <= slot < table.owned.slots
        invariant At() == p || (slot == -1 && Ahead(p, At()))
        invariant forall o :: Holds(t, o) && Ahead(p, o) ==> Ahead(At(), o)
        decreases |t| - index
      {
        ghost var b := index;
        slot := slot + 1;
        while slot < table.owned.slots
          invariant index == b && p.index <= b < |t|
          invariant 0 <= slot <= table.owned.slots
          invariant forall o :: Holds(t, o) && Ahead(p, o) ==> !Ahead(o, At())
          invariant Ahead(p, At())
        {
          if t[index][slot].Full? {
            assert Holds(t, At());
            return true;
          }
          slot := slot + 1;
        }
        slot := -1;
        index := index + 1;
      }
      index, slot := |t|, 0;
      return true;
    }

    /** Moves to the previous occupied slot, or to the end if there is none. */
    method Decrement() returns (ok: bool)
      requires Valid()
      modifies this`index, this`slot
      ensures ok <==> table.hasTableLock
      ensures !ok ==> At() == old(At())
      ensures ok ==> Valid() && Precedes(table.owned.buckets, old(At()), At())
    {
      hide CuckooMap.Core, Unique;
      if !table.hasTableLock {
        return false;
      }
      var t := table.owned.buckets;
      table.owned.BucketSizes();
      ghost var p := At();
      while index >= 0
        invariant -1 <= index <= p.index && 0 <= slot <= table.owned.slots
        invariant index == |t| ==> slot == 0
        invariant forall o :: Holds(t, o) && Ahead(o, p) ==> Ahead(o, At())
        invariant Ahead(At(), p) || At() == p
        decreases index
      {
        ghost var b := index;
        slot := slot - 1;
        while slot >= 0
          invariant index == b && 0 <= b <= p.index
          invariant -1 <= slot < table.owned.slots
          invariant index == |t| ==> slot == -1
          invariant forall o :: Holds(t, o) && Ahead(o, p) ==> !Ahead(At(), o)
          invariant Ahead(At(), p)
          decreases slot
        {
          if t[index][slot].Full? {
            assert Holds(t, At());
            return true;
          }
          slot := slot - 1;
        }
        slot := table.owned.slots;
        index := index - 1;
      }
      index, slot := |t|, 0;
      return true;
    }
  }

  lemma WalkStarts(t: Table, p: Position)
    requires forall o :: Holds(t, o) ==> !Ahead(o, p)
    ensures Visited(t, [], p) && Listed(t, [], [])
    ensures p.index >= 0 && p.slot >= 0 ==> Copied(t, map[], p.index, p.slot)
  {
    assert forall c, r :: Occupied(t, c, r) ==> Holds(t, Position(c, r));
  }
}
