/** Stepping through the occupied slots of a table in both directions. */
module Walks {
  import opened Hashing
  import opened Tables
  import opened Rebuilding

  /** A bucket index and a slot. */
  datatype Position = Position(index: int, slot: int)

  function EndPos(t: Table): Position { Position(|t|, 0) }

  predicate Ahead(p: Position, q: Position)
  {
    Before(p.index, p.slot, q.index, q.slot)
  }

  predicate Holds(t: Table, p: Position)
  {
    Occupied(t, p.index, p.slot)
  }

  /** q is where a step forward from p leads: the nearest occupied slot after p, or the end if there is none. */
  ghost predicate Follows(t: Table, p: Position, q: Position)
  {
    && (q == EndPos(t) || (Holds(t, q) && Ahead(p, q)))
    && (forall o :: Holds(t, o) && Ahead(p, o) ==> !Ahead(o, q) && q != EndPos(t))
  }

  /** q is where a step backward from p leads: the nearest occupied slot before p, or the end if there is none. */
  ghost predicate Precedes(t: Table, p: Position, q: Position)
  {
    && (q == EndPos(t) || (Holds(t, q) && Ahead(q, p)))
    && (forall o :: Holds(t, o) && Ahead(o, p) ==> !Ahead(q, o) && q != EndPos(t))
  }

  /** The position holds an entry, or is the end: an iterator is never anywhere else. */
  predicate Stands(t: Table, p: Position)
  {
    p == EndPos(t) || Holds(t, p)
  }

  lemma OneStepForward(t: Table, p: Position, q: Position, r: Position)
    requires Follows(t, p, q) && Follows(t, p, r)
    ensures q == r
  {
  }

  /** A step back undoes a step forward from every occupied slot. */
  lemma BackAfterForward(t: Table, p: Position, q: Position, r: Position)
    requires Holds(t, p) && Follows(t, p, q) && Precedes(t, q, r)
    ensures r == p
  {
  }

  ghost predicate HasPredecessor(t: Table, p: Position)
  {
    exists o :: Holds(t, o) && Ahead(o, p)
  }

  /** A step forward undoes a step back exactly when there was an entry to step back to, or at the end. */
  lemma ForwardAfterBack(t: Table, p: Position, q: Position, r: Position)
    requires Stands(t, p) && Precedes(t, p, q) && Follows(t, q, r)
    ensures r == p <==> HasPredecessor(t, p) || p == EndPos(t)
  {
  }

  /** What was copied up to p, with the entry of p, is what lies in front of the next position. */
  lemma CopiedToNext(t: Table, m: map<Key, Value>, p: Position, q: Position)
    requires Unique(t) && Holds(t, p) && Copied(t, m, p.index, p.slot) && Follows(t, p, q)
    ensures var x := t[p.index][p.slot];
      x.key !in m && q.index >= 0 && q.slot >= 0 && Copied(t, m[x.key := x.val], q.index, q.slot)
  {
    hide Unique;
    var x := t[p.index][p.slot];
    var m' := m[x.key := x.val];
    NextIsNew(t, m, p.index, p.slot);
    CopiedNext(t, m, p.index, p.slot);
    forall c, r | Occupied(t, c, r) && Before(c, r, q.index, q.slot)
      ensures Before(c, r, p.index, p.slot + 1)
    {
      assert Holds(t, Position(c, r));
    }
    forall k | k in m'
      ensures StoredBefore(t, k, q.index, q.slot)
    {
      assert StoredBefore(t, k, p.index, p.slot + 1);
    }
  }

  /** The occupied slots in front of p, in order. */
  ghost predicate Visited(t: Table, visited: seq<Position>, p: Position)
  {
    && (forall i, j :: 0 <= i < j < |visited| ==> Ahead(visited[i], visited[j]))
    && (forall o :: o in visited <==> Holds(t, o) && Ahead(o, p))
  }

  lemma VisitedNext(t: Table, visited: seq<Position>, p: Position, q: Position)
    requires Visited(t, visited, p) && Holds(t, p) && Follows(t, p, q)
    ensures Visited(t, visited + [p], q)
  {
    var more := visited + [p];
    forall i, j | 0 <= i < j < |more|
      ensures Ahead(more[i], more[j])
    {
      assert more[i] in visited;
    }
    forall o | Holds(t, o) && Ahead(o, q)
      ensures o in more
    {
      assert Ahead(o, p) ==> o in visited;
    }
    forall o | o in more
      ensures Holds(t, o) && Ahead(o, q)
    {
      assert o == p || o in visited;
    }
  }

  function EntryAt(t: Table, p: Position): (Key, Value)
    requires Holds(t, p)
  {
    (t[p.index][p.slot].key, t[p.index][p.slot].val)
  }

  /** The entries listed are those at the visited positions. */
  ghost predicate Listed(t: Table, visited: seq<Position>, entries: seq<(Key, Value)>)
  {
    && |visited| == |entries|
    && forall i :: 0 <= i < |visited| ==> Holds(t, visited[i]) && entries[i] == EntryAt(t, visited[i])
  }

  lemma ListedNext(t: Table, visited: seq<Position>, entries: seq<(Key, Value)>, p: Position)
    requires Listed(t, visited, entries) && Holds(t, p)
    ensures Listed(t, visited + [p], entries + [EntryAt(t, p)])
  {
  }

  lemma StandsInRange(t: Table, slots: nat, p: Position)
    requires Stands(t, p) && slots > 0 && forall b :: 0 <= b < |t| ==> |t[b]| == slots
    ensures 0 <= p.index <= |t| && 0 <= p.slot < slots && (p != EndPos(t) ==> p.index < |t|)
  {
  }

  /** Visiting every occupied slot lists the map. */
  lemma ListsContents(t: Table, visited: seq<Position>, entries: seq<(Key, Value)>)
    requires Unique(t) && Visited(t, visited, EndPos(t)) && Listed(t, visited, entries)
    ensures forall i, j :: 0 <= i < j < |visited| ==> Ahead(visited[i], visited[j])
    ensures forall p :: p in visited <==> Holds(t, p)
    ensures forall k, v :: (k, v) in entries <==> k in Contents(t) && Contents(t)[k] == v
  {
    hide Unique, Contents;
    forall k | k in Contents(t)
      ensures (k, Contents(t)[k]) in entries
    {
      assert Stores(t, k);
      var b, s :| Occupied(t, b, s) && t[b][s].key == k;
      var p := Position(b, s);
      assert Holds(t, p) && Ahead(p, EndPos(t));
      var i :| 0 <= i < |visited| && visited[i] == p;
      assert entries[i] == (k, Contents(t)[k]);
    }
    forall k, v | (k, v) in entries
      ensures k in Contents(t) && Contents(t)[k] == v
    {
      var i :| 0 <= i < |entries| && entries[i] == (k, v);
      assert Holds(t, visited[i]);
    }
  }
}
