/** The per-lock element counters beside the shared table. An action writes its slot and its counter under one lock,
  * and here in one step; kicks write no counter at all. */
module ProtocolCounters {
  import opened Hashing
  import opened Tables
  import opened TableSteps
  import opened Migration
  import opened Locks
  import opened CuckooPaths
  import opened Counters
  import opened Protocol
  import opened ProtocolSafety
  import opened ProtocolRefinement

  /** One more, or one less, on lock l. */
  function Up(elems: seq<nat>, l: nat): (r: seq<nat>)
    ensures |r| == |elems|
  {
    if l < |elems| then Counters.Increment(elems, l) else elems
  }

  function Down(elems: seq<nat>, l: nat): (r: seq<nat>)
    ensures |r| == |elems|
  {
    if l < |elems| then Counters.Decrement(elems, l) else elems
  }

  /** How many of the first n slots of bucket b move to the upper half. */
  function MovedCount(t: Table, hp: nat, b: nat, n: nat): nat
  {
    if n == 0 then 0
    else MovedCount(t, hp, b, n - 1) + if Occupied(t, b, n - 1) && Moves(hp, t[b][n - 1].key, b) then 1 else 0
  }

  /** Takes k from lock l and gives it to lock m, one at a time. */
  function Recount(elems: seq<nat>, l: nat, m: nat, k: nat): (r: seq<nat>)
    ensures |r| == |elems|
  {
    if k == 0 then elems else Up(Down(Recount(elems, l, m, k - 1), l), m)
  }

  /** The thread holds all locks of its goal at a hash power found current. */
  predicate Acts(pc: PC)
    requires pc.Locking?
  {
    !(pc.n == 1 && !pc.checked) && pc.n >= |PlanOf(pc.hp, pc.op, pc.goal)|
  }

  function OnLookCounters(elems: seq<nat>, t: Table, hp: nat, op: Op): (r: seq<nat>)
    requires First(hp, op.key) < |t| && Second(hp, op.key) < |t|
  {
    var i1, i2 := First(hp, op.key), Second(hp, op.key);
    match Locate(t, i1, i2, op.key)
    case Some((b, _)) => if op.Erase? then Down(elems, LockInd(b)) else elems
    case None =>
      if !IsInserter(op) then elems
      else match FreeSlot(t, i1, i2)
        case Some((b, _)) => Up(elems, LockInd(b))
        case None => elems
  }

  function OnAddCounters(elems: seq<nat>, t: Table, hp: nat, op: Op, b: nat): (r: seq<nat>)
    requires First(hp, op.key) < |t| && Second(hp, op.key) < |t|
  {
    if Locate(t, First(hp, op.key), Second(hp, op.key), op.key).Some? then elems else Up(elems, LockInd(b))
  }

  /** The counters after a step of thread t. */
  function CountersAfter(elems: seq<nat>, s: State, t: nat, c: Choice): (r: seq<nat>)
    requires t < |s.threads|
  {
    var pc := s.threads[t].pc;
    match pc
    case Locking(op, _, hp, goal, _, _) =>
      if Acts(pc) && goal.Look? && First(hp, op.key) < |s.table| && Second(hp, op.key) < |s.table|
      then OnLookCounters(elems, s.table, hp, op) else elems
    case Adding(op, _, hp, b, _) =>
      if First(hp, op.key) < |s.table| && Second(hp, op.key) < |s.table|
      then OnAddCounters(elems, s.table, hp, op, b) else elems
    case ExpansionCheck(_, hp) =>
      if s.hp == hp && c.Allocate? && s.numLocks <= c.locks then elems + seq(c.locks - s.numLocks, i => 0) else elems
    case Migrating(_, hp) =>
      if c.MigrateAt? then
        var moved := MovedCount(s.table, hp, c.bucket, s.slots);
        Recount(elems, LockInd(c.bucket), LockInd(c.bucket + HashSize(hp)), moved)
      else elems
    case Whole(owner) => if owner.Owning? && owner.call.Clear? then seq(|elems|, i => 0) else elems
    case _ => elems
  }

  // ----- The sum is right after every step -----

  ghost predicate Tallied(s: State, elems: seq<nat>)
  {
    |elems| == s.numLocks && AddUpTo(elems, Count(s.table))
  }

  lemma UpTallies(elems: seq<nat>, n: nat, l: nat)
    requires AddUpTo(elems, n) && l < |elems|
    ensures AddUpTo(Up(elems, l), n + 1)
  {
    IncrementAddsOne(elems, n, l);
  }

  lemma DownTallies(elems: seq<nat>, n: nat, l: nat)
    requires AddUpTo(elems, n) && l < |elems| && n > 0
    ensures AddUpTo(Down(elems, l), n - 1)
  {
    DecrementTakesOne(elems, n, l);
  }

  lemma {:induction false} RecountTallies(elems: seq<nat>, n: nat, l: nat, m: nat, k: nat)
    requires AddUpTo(elems, n) && l < |elems| && m < |elems| && (k > 0 ==> n > 0)
    ensures AddUpTo(Recount(elems, l, m, k), n)
  {
    hide AddUpTo, Up, Down;
    if k > 0 {
      RecountTallies(elems, n, l, m, k - 1);
      DownTallies(Recount(elems, l, m, k - 1), n, l);
      UpTallies(Down(Recount(elems, l, m, k - 1), l), n - 1, m);
    }
  }

  lemma BucketLock(s: State, b: nat)
    requires Inv(s) && b < |s.table|
    ensures LockInd(b) < s.numLocks
  {
    HashPowerPositive(s);
    hide LockInd, LocksFor, HashSize;
    LockIndInRange(s.hp, b);
  }

  lemma LookTallies(s: State, elems: seq<nat>, hp: nat, op: Op, ins: bool)
    requires Inv(s) && Tallied(s, elems) && First(hp, op.key) < |s.table| && Second(hp, op.key) < |s.table|
    ensures AddUpTo(OnLookCounters(elems, s.table, hp, op), Count(OnLook(s.table, hp, op, ins).table))
    ensures |OnLookCounters(elems, s.table, hp, op)| == |elems|
  {
    hide Inv, AddUpTo, Up, Down, Count, SlotOf, EmptySlot, LockInd, First, Second, Put;
    var i1, i2 := First(hp, op.key), Second(hp, op.key);
    BucketLock(s, i1);
    BucketLock(s, i2);
    match Locate(s.table, i1, i2, op.key)
    case Some(p) =>
      FoundTallies(s.table, p.0, p.1, op, ins);
      if op.Erase? {
        DownTallies(elems, Count(s.table), LockInd(p.0));
      }
    case None =>
      if IsInserter(op) {
        match FreeSlot(s.table, i1, i2)
        case Some(p) =>
          CountPut(s.table, p.0, p.1, Entry(op.key, op.val));
          UpTallies(elems, Count(s.table), LockInd(p.0));
        case None =>
      }
  }

  lemma FoundTallies(t: Table, b: nat, s: nat, op: Op, ins: bool)
    requires Occupied(t, b, s)
    ensures Count(t) > 0
    ensures Count(OnFound(t, b, s, op, ins).table) == if op.Erase? then Count(t) - 1 else Count(t)
  {
    hide Count, Put;
    EmptyTableCount(t);
    CountPut(t, b, s, Empty);
    match op
    case Update(_, v) => CountPut(t, b, s, t[b][s].(val := v));
    case UpdateFn(_, fn) => CountPut(t, b, s, t[b][s].(val := fn(t[b][s].val)));
    case Upsert(_, fn, _) => CountPut(t, b, s, t[b][s].(val := fn(t[b][s].val)));
    case _ =>
  }

  lemma AddTallies(s: State, elems: seq<nat>, hp: nat, op: Op, ins: bool, b: nat, r: nat)
    requires Inv(s) && Tallied(s, elems) && First(hp, op.key) < |s.table| && Second(hp, op.key) < |s.table|
    requires IsInserter(op) && b < |s.table| && r < |s.table[b]| && s.table[b][r].Empty?
    ensures AddUpTo(OnAddCounters(elems, s.table, hp, op, b), Count(OnAdd(s.table, hp, op, ins, b, r).table))
    ensures |OnAddCounters(elems, s.table, hp, op, b)| == |elems|
  {
    hide Inv, AddUpTo, Up, Count, Locate, LockInd, First, Second, Put;
    BucketLock(s, b);
    CountPut(s.table, b, r, Entry(op.key, op.val));
    UpTallies(elems, Count(s.table), LockInd(b));
  }

  lemma {:induction false} MovedAreStored(t: Table, hp: nat, b: nat, n: nat)
    ensures MovedCount(t, hp, b, n) > 0 ==> Count(t) > 0
  {
    hide Count, Moves;
    if n > 0 {
      MovedAreStored(t, hp, b, n - 1);
      if Occupied(t, b, n - 1) {
        EmptyTableCount(t);
      }
    }
  }

  lemma MigrateTallies(s: State, elems: seq<nat>, t: nat, b: nat)
    requires Inv(s) && Tallied(s, elems) && t < |s.threads| && s.threads[t].pc.Migrating?
    requires b in s.pending && Doubled(s.table, s.threads[t].pc.hp, s.slots, b)
    ensures var hp := s.threads[t].pc.hp;
      && AddUpTo(Recount(elems, LockInd(b), LockInd(b + HashSize(hp)), MovedCount(s.table, hp, b, s.slots)),
                 Count(MigrateBucket(s.table, hp, s.slots, b)))
  {
    hide Inv, AddUpTo, Count, LockInd, Unique, PlacedExcept, MigrateBucket, MovedCount, Recount, TableOk, HashSize,
      Exclusion, LocksFor;
    var hp := s.threads[t].pc.hp;
    InvOf(s, t);
    TableOkParts(s, hp);
    hide ThreadOk;
    MigrateCounts(s, hp, b);
    BucketLock(s, b);
    BucketLock(s, b + HashSize(hp));
    MovedAreStored(s.table, hp, b, s.slots);
    RecountTallies(elems, Count(s.table), LockInd(b), LockInd(b + HashSize(hp)), MovedCount(s.table, hp, b, s.slots));
  }

  lemma MigrateCounts(s: State, hp: nat, b: nat)
    requires Shape(s.table, hp + 1, s.slots) && Unique(s.table) && PlacedExcept(s.table, hp + 1, s.pending)
    requires b in s.pending && Doubled(s.table, hp, s.slots, b)
    ensures Count(MigrateBucket(s.table, hp, s.slots, b)) == Count(s.table)
    ensures b < |s.table| && b + HashSize(hp) < |s.table|
  {
    hide Count, Unique, PlacedExcept, MigrateBucket;
    assert HashSize(hp + 1) == 2 * HashSize(hp);
    MigrateBucketKeepsMap(s.table, hp, s.slots, s.pending, b);
  }

  lemma TableOkParts(s: State, hp: nat)
    requires TableOk(s.table, s.hp, s.slots, s.pending) && s.hp == hp + 1
    ensures Shape(s.table, hp + 1, s.slots) && Unique(s.table) && PlacedExcept(s.table, hp + 1, s.pending)
  {
  }

  lemma DoubleTallies(s: State, elems: seq<nat>)
    requires Inv(s) && Tallied(s, elems)
    ensures AddUpTo(elems, Count(s.table + EmptyTable(HashSize(s.hp), s.slots)))
  {
    HashPowerPositive(s);
    hide Inv, AddUpTo, Count, Unique, HashSize;
    AppendEmptyKeepsContents(s.table, HashSize(s.hp), s.slots);
  }

  lemma ShiftTallies(t: Table, path: seq<Record>, d: nat)
    requires 0 < d < |path| && ShiftValid(t, path, d)
    ensures Count(Move(t, path[d - 1].bucket, path[d - 1].slot, path[d].bucket, path[d].slot)) == Count(t)
  {
    CountMove(t, path[d - 1].bucket, path[d - 1].slot, path[d].bucket, path[d].slot);
  }

  lemma ActTallies(s: State, elems: seq<nat>, t: nat)
    requires Inv(s) && Tallied(s, elems) && t < |s.threads| && s.threads[t].pc.Locking? && Acts(s.threads[t].pc)
    requires Act(s, t).Some?
    ensures Tallied(Act(s, t).value, CountersAfter(elems, s, t, Go))
  {
    hide Inv, AddUpTo, Count, OnLook, OnLookCounters, First, Second, ShiftValid, Move, InsertLocks, Acts;
    var pc := s.threads[t].pc;
    match pc.goal
    case Look => LookTallies(s, elems, pc.hp, pc.op, pc.ins);
    case Shift(path, d) =>
      if 0 < d < |path| && ShiftValid(s.table, path, d) {
        ShiftTallies(s.table, path, d);
      }
    case _ =>
  }

  lemma LockingTallies(s: State, elems: seq<nat>, t: nat)
    requires Inv(s) && Tallied(s, elems) && t < |s.threads| && s.threads[t].pc.Locking? && LockingStep(s, t).Some?
    ensures Tallied(LockingStep(s, t).value, CountersAfter(elems, s, t, Go))
  {
    hide Inv, AddUpTo, Count, Act, OnLookCounters, PlanOf, Available;
    if Acts(s.threads[t].pc) {
      ActTallies(s, elems, t);
    }
  }

  lemma ExpansionTallies(s: State, elems: seq<nat>, t: nat, c: Choice)
    requires Inv(s) && Tallied(s, elems) && t < |s.threads| && InExpansion(s.threads[t].pc)
    requires ExpansionStep(s, t, c).Some?
    ensures Tallied(ExpansionStep(s, t, c).value, CountersAfter(elems, s, t, c))
  {
    hide Inv, Count, AddUpTo, MigrateBucket, EmptyTable, MovedCount, Recount, Below, MayUnlock, Available, LockInd,
      LocksFor, HashSize;
    match s.threads[t].pc
    case ExpansionCheck(_, hp) =>
      if s.hp == hp {
        AppendZeros(elems, Count(s.table), c.locks - s.numLocks);
      }
    case LockingAll(_, _, _) => DoubleTallies(s, elems);
    case Migrating(_, hp) =>
      if c.MigrateAt? {
        MigrateTallies(s, elems, t, c.bucket);
      }
  }

  lemma OwnerTallies(s: State, elems: seq<nat>, t: nat)
    requires Inv(s) && Tallied(s, elems) && t < |s.threads| && s.threads[t].pc.Whole? && OwnerStep(s, t).Some?
    ensures Tallied(OwnerStep(s, t).value, CountersAfter(elems, s, t, Go))
  {
    hide Inv, Contents, Unique, Available, Count;
    EmptyTableCount(EmptyTable(|s.table|, s.slots));
    SumZeros(seq(|elems|, i => 0));
  }

  /** Whatever step any thread takes, the counters still add up to the number of occupied slots. */
  lemma StepTallies(s: State, elems: seq<nat>, t: nat, c: Choice)
    requires Inv(s) && Tallied(s, elems) && t < |s.threads| && Step(s, t, c).Some?
    ensures Tallied(Step(s, t, c).value, CountersAfter(elems, s, t, c))
  {
    InvOf(s, t);
    hide Inv, TableOk, AddUpTo, Count, LockingStep, ExpansionStep, OwnerStep, OnAdd, OnAddCounters, OnLookCounters,
      MovedCount, Recount, First, Second;
    var pc := s.threads[t].pc;
    match pc
    case Locking(_, _, _, _, _, _) => LockingTallies(s, elems, t);
    case Adding(op, ins, hp, b, r) => AddTallies(s, elems, hp, op, ins, b, r);
    case Whole(_) => OwnerTallies(s, elems, t);
    case ExpansionCheck(_, _) => ExpansionTallies(s, elems, t, c);
    case LockingAll(_, _, _) => ExpansionTallies(s, elems, t, c);
    case Migrating(_, _) => ExpansionTallies(s, elems, t, c);
    case _ =>
  }

  // ----- Whole runs -----

  /** The shared table together with its counters. */
  datatype Counted = Counted(state: State, elems: seq<nat>)

  ghost predicate CountedNext(x: Counted, y: Counted)
  {
    exists turn ::
      StepsBy(x.state, turn, y.state) && y.elems == CountersAfter(x.elems, x.state, turn.thread, turn.choice)
  }

  /** A run that starts from any table whose counters add up, as a new table's do. */
  ghost predicate IsCountedRun(run: seq<Counted>)
  {
    && run != []
    && Init(run[0].state) && Tallied(run[0].state, run[0].elems)
    && forall i :: 0 <= i < |run| - 1 ==> CountedNext(run[i], run[i + 1])
  }

  lemma {:induction false} CountedKeepsInv(run: seq<Counted>, i: nat)
    requires IsCountedRun(run) && i < |run|
    ensures Inv(run[i].state) && Tallied(run[i].state, run[i].elems)
  {
    hide Inv, Step, Tallied, CountersAfter, Init;
    if i == 0 {
      InitInv(run[0].state);
    } else {
      CountedKeepsInv(run, i - 1);
      assert CountedNext(run[i - 1], run[i - 1 + 1]);
      var x, y := run[i - 1], run[i];
      var turn :|
        StepsBy(x.state, turn, y.state) && y.elems == CountersAfter(x.elems, x.state, turn.thread, turn.choice);
      StepRefines(x.state, turn.thread, turn.choice);
      StepTallies(x.state, x.elems, turn.thread, turn.choice);
    }
  }

  /** Under any interleaving the counters add up, modulo 2^64, to the size of the map. */
  lemma CountersAddUp(run: seq<Counted>, i: nat)
    requires IsCountedRun(run) && i < |run|
    ensures Unique(run[i].state.table)
    ensures Sum(run[i].elems) % WORD == |Contents(run[i].state.table)| % WORD
  {
    CountedKeepsInv(run, i);
    HashPowerPositive(run[i].state);
    hide Inv, Contents, Unique;
    CountIsSize(run[i].state.table);
    SumIsCount(run[i].elems, Count(run[i].state.table));
  }
}
