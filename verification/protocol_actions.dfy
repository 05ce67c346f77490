/** What a thread's action does to the table, and that it is the operation's effect on the map. */
module ProtocolActions {
  import opened Hashing
  import opened Tables
  import opened TableSteps
  import opened Bfs
  import opened CuckooPaths
  import opened Protocol
  import opened AtomicMap

  /** Both buckets of the key are clear of any unfinished migration. */
  ghost predicate KeySettled(hp: nat, pending: set<nat>, k: Key)
    requires hp > 0
  {
    && Settled(hp, pending, First(hp, k)) && Settled(hp, pending, Second(hp, k))
    && First(hp, k) % HashSize(hp - 1) !in pending && Second(hp, k) % HashSize(hp - 1) !in pending
  }

  /** The key is not in the table, and both its buckets are full. */
  ghost predicate NoPlace(t: Table, hp: nat, slots: nat, k: Key)
    requires Unique(t)
  {
    k !in Contents(t) && BucketFull(t, slots, First(hp, k)) && BucketFull(t, slots, Second(hp, k))
  }

  /** The table t' an action leaves, and what the thread goes on to do, given that it had the two buckets of
    * the key of `op` to itself. It searches for a path only if there is no place for the key, and throws nothing. */
  ghost predicate GoodOutcome(t: Table, hp: nat, slots: nat, pending: set<nat>, op: Op, o: Outcome)
  {
    && Unique(t) && TableOk(o.table, hp, slots, pending)
    && |o.table| == |t|
    && (forall b :: 0 <= b < |t| && o.table[b] != t[b] ==>
         !IsReader(op) && (b == First(hp, op.key) || b == Second(hp, op.key)))
    && (if o.next.Done? then o.next.op == op && Effect(Contents(t), op, o.next.res, Contents(o.table))
        else o.table == t && IsInserter(op) && ((o.next.Ready? && o.next.op == op)
                                             || (o.next.Searching? && o.next.op == op && o.next.hp == hp
                                                 && NoPlace(t, hp, slots, op.key))))
  }

  lemma FoundOutcome(t: Table, hp: nat, slots: nat, pending: set<nat>, op: Op, ins: bool, b: nat, s: nat)
    requires TableOk(t, hp, slots, pending)
    requires Occupied(t, b, s) && t[b][s].key == op.key && (b == First(hp, op.key) || b == Second(hp, op.key))
    ensures GoodOutcome(t, hp, slots, pending, op, OnFound(t, b, s, op, ins))
  {
    hide First, Second, PlacedExcept, Shape, Count, Unique, Contents;
    assert op.key in Contents(t) && Contents(t)[op.key] == t[b][s].val;
    match op
    case Erase(_) => EraseKeepsOk(t, hp, slots, pending, b, s);
    case Update(_, v) => WriteOutcome(t, hp, slots, pending, op, b, s, v, Yes);
    case UpdateFn(_, fn) => WriteOutcome(t, hp, slots, pending, op, b, s, fn(t[b][s].val), Yes);
    case Upsert(_, fn, _) =>
      if !ins {
        WriteOutcome(t, hp, slots, pending, op, b, s, fn(t[b][s].val), Unit);
      }
    case _ =>
  }

  lemma WriteOutcome(
      t: Table, hp: nat, slots: nat, pending: set<nat>, op: Op, b: nat, s: nat, v: Value, res: Reply)
    requires TableOk(t, hp, slots, pending) && !IsReader(op)
    requires Occupied(t, b, s) && t[b][s].key == op.key && (b == First(hp, op.key) || b == Second(hp, op.key))
    requires Effect(Contents(t), op, res, Contents(t)[op.key := v])
    ensures GoodOutcome(t, hp, slots, pending, op, Outcome(Put(t, b, s, t[b][s].(val := v)), Done(op, res)))
  {
    hide First, Second, PlacedExcept, Shape, Count, Unique, Contents, Effect;
    UpdateKeepsOk(t, hp, slots, pending, b, s, v);
  }

  lemma AddOutcome(t: Table, hp: nat, slots: nat, pending: set<nat>, op: Op, b: nat, s: nat)
    requires TableOk(t, hp, slots, pending) && IsInserter(op) && op.key !in Contents(t)
    requires b == First(hp, op.key) || b == Second(hp, op.key)
    requires b < |t| && s < |t[b]| && t[b][s].Empty? && Settled(hp, pending, b)
    ensures GoodOutcome(t, hp, slots, pending, op, AddEntry(t, b, s, op))
  {
    hide First, Second, PlacedExcept, Contents, Count, PartialKey, Settled;
    InsertKeepsOk(t, hp, slots, pending, b, s, op.key, op.val);
  }

  lemma LookOutcome(t: Table, hp: nat, slots: nat, pending: set<nat>, op: Op, ins: bool)
    requires TableOk(t, hp, slots, pending) && KeySettled(hp, pending, op.key)
    ensures GoodOutcome(t, hp, slots, pending, op, OnLook(t, hp, op, ins))
  {
    hide Effect, GoodOutcome, SlotOf, EmptySlot, Contents, PlacedExcept, Unique, OnFound, AddEntry;
    var i1, i2 := First(hp, op.key), Second(hp, op.key);
    LookupMidDoubling(t, hp, slots, pending, op.key);
    match Locate(t, i1, i2, op.key)
    case Some(p) => FoundOutcome(t, hp, slots, pending, op, ins, p.0, p.1);
    case None =>
      if IsInserter(op) {
        match FreeSlot(t, i1, i2)
        case Some(p) => AddOutcome(t, hp, slots, pending, op, p.0, p.1);
        case None =>
          BothFull(t, hp, slots, op.key);
          SearchOutcome(t, hp, slots, pending, op, ins);
      } else {
        AbsentOutcome(t, hp, slots, pending, op);
      }
  }

  lemma BothFull(t: Table, hp: nat, slots: nat, k: Key)
    requires Shape(t, hp, slots) && First(hp, k) < |t| && Second(hp, k) < |t|
    requires FreeSlot(t, First(hp, k), Second(hp, k)).None?
    ensures BucketFull(t, slots, First(hp, k)) && BucketFull(t, slots, Second(hp, k))
  {
    hide First, Second, FreeSlot;
  }

  lemma SearchOutcome(t: Table, hp: nat, slots: nat, pending: set<nat>, op: Op, ins: bool)
    requires TableOk(t, hp, slots, pending) && IsInserter(op) && NoPlace(t, hp, slots, op.key)
    ensures GoodOutcome(t, hp, slots, pending, op, Outcome(t, Searching(op, ins, hp)))
  {
  }

  lemma AbsentOutcome(t: Table, hp: nat, slots: nat, pending: set<nat>, op: Op)
    requires TableOk(t, hp, slots, pending) && op.key !in Contents(t) && !IsInserter(op)
    ensures GoodOutcome(t, hp, slots, pending, op, Outcome(t, Done(op, if op.Find? then Missing else No)))
  {
    hide Shape, PlacedExcept;
    assert Contents(t) - {op.key} == Contents(t);
  }

  lemma FoundAfterMoves(t: Table, hp: nat, slots: nat, pending: set<nat>, op: Op)
    requires TableOk(t, hp, slots, pending) && IsInserter(op) && op.key in Contents(t)
    ensures GoodOutcome(
      t, hp, slots, pending, op, Outcome(t, if op.Insert? then Done(op, No) else Ready(op, false)))
  {
  }

  /** After the cuckoo moves: the key is looked for once more before the cleared slot is used. */
  lemma AddAfterMovesOutcome(
      t: Table, hp: nat, slots: nat, pending: set<nat>, op: Op, ins: bool, b: nat, s: nat)
    requires TableOk(t, hp, slots, pending) && KeySettled(hp, pending, op.key) && IsInserter(op)
    requires b == First(hp, op.key) || b == Second(hp, op.key)
    requires b < |t| && s < |t[b]| && t[b][s].Empty?
    ensures GoodOutcome(t, hp, slots, pending, op, OnAdd(t, hp, op, ins, b, s))
  {
    hide SlotOf, PlacedExcept, AddEntry, Contents, First, Second, Settled, GoodOutcome;
    LookupMidDoubling(t, hp, slots, pending, op.key);
    match Locate(t, First(hp, op.key), Second(hp, op.key), op.key)
    case Some(p) => FoundAfterMoves(t, hp, slots, pending, op);
    case None => AddOutcome(t, hp, slots, pending, op, b, s);
  }

  /** A kick along any well-formed path, however stale, leaves the map as it was. */
  lemma ShiftOutcome(t: Table, g: Start, pending: set<nat>, path: seq<Record>, d: nat)
    requires TableOk(t, g.hp, g.slots, pending) && PathOk(g, path) && 0 < d < |path| && ShiftValid(t, path, d)
    requires Settled(g.hp, pending, path[d - 1].bucket) && Settled(g.hp, pending, path[d].bucket)
    ensures var t' := Move(t, path[d - 1].bucket, path[d - 1].slot, path[d].bucket, path[d].slot);
      && TableOk(t', g.hp, g.slots, pending)
      && Contents(t') == Contents(t)
      && |t'| == |t|
      && path[d - 1].bucket < |t'| && path[d - 1].slot < |t'[path[d - 1].bucket]|
      && t'[path[d - 1].bucket][path[d - 1].slot].Empty?
      && forall b :: 0 <= b < |t| && b != path[d - 1].bucket && b != path[d].bucket ==> t'[b] == t[b]
  {
    hide PlacedExcept, Unique, Contents, Count;
    var f, to := path[d - 1], path[d];
    KickKeepsOk(t, g.hp, g.slots, pending, f.bucket, f.slot, to.bucket, to.slot, f.hash);
    MoveFrame(t, f.bucket, f.slot, to.bucket, to.slot);
  }
}
