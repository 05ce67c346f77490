/** The table shared by any number of threads, as a state machine. One step is one lock acquisition, one
  * hash power check, one lock release, or one action under the locks it needs. */
module Protocol {
  import opened Options
  import opened Hashing
  import opened Tables
  import opened TableSteps
  import opened Migration
  import opened Locks
  import opened Bfs
  import opened CuckooPaths

  datatype Op =
    | Find(key: Key)
    | Contains(key: Key)
    | Insert(key: Key, val: Value)
    | Erase(key: Key)
    | Update(key: Key, val: Value)
    | UpdateFn(key: Key, fn: Value -> Value)
    | Upsert(key: Key, fn: Value -> Value, val: Value)

  /** What an operation returns; `Threw` is an insertion that gave up expanding the table. */
  datatype Reply = Got(v: Value) | Missing | Yes | No | Unit | Threw

  /** What is done to the table as a whole, by a thread that owns every lock: clear it, or lock it, list its
    * entries, and release it again. */
  datatype WholeOp = Clear | List

  datatype WholeReply = Cleared | Listed(entries: map<Key, Value>)

  /** Where the owner of the whole table stands. It took `got` locks, as many as were allocated then. */
  datatype Owner =
    | Acquiring(call: WholeOp, n: nat)  // holds the first n locks
    | Owning(call: WholeOp, got: nat)
    | GivingBack(call: WholeOp, reply: WholeReply, got: nat, n: nat)  // has unlocked the first n locks

  /** Why a thread takes bucket locks. */
  datatype Goal =
    | Look                              // the two buckets of its key
    | Peek(bucket: nat)                 // one bucket of the search
    | Claim(path: seq<Record>)          // the insert buckets, a slot of which was seen empty
    | Shift(path: seq<Record>, d: nat)  // to kick the entry at position d - 1 of a path to position d

  datatype PC =
    | Idle
    | Ready(op: Op, ins: bool)  // about to read the hash power; `ins`: inside the insert loop
    | Locking(op: Op, ins: bool, hp: nat, goal: Goal, n: nat, checked: bool)  // holds the first n locks of its plan
    | Adding(op: Op, ins: bool, hp: nat, bucket: nat, slot: nat)  // holds both insert buckets, the slot is free
    | Searching(op: Op, ins: bool, hp: nat)
    | Moving(op: Op, ins: bool, hp: nat, path: seq<Record>, d: nat)
    | TableFull(op: Op, ins: bool, hp: nat)
    | WaitExpansion(op: Op, hp: nat)
    | ExpansionCheck(op: Op, hp: nat)
    | LockingAll(op: Op, hp: nat, n: nat)
    | Migrating(op: Op, hp: nat)  // `hp` is the hash power before the doubling
    | Releasing(op: Op, next: PC)
    | Done(op: Op, res: Reply)
    | Whole(owner: Owner)

  datatype Thread = Thread(pc: PC, held: set<nat>)

  /** `pending` is the position of the doubling in progress: the buckets it has yet to migrate. `misused` says
    * that a thread has unlocked a lock which it did not hold; nothing is defined from then on. */
  datatype State = State(
    slots: nat, hp: nat, table: Table, pending: set<nat>, numLocks: nat, threads: seq<Thread>, misused: bool)

  /** How the scheduler and the unseen details of a step resolve it. */
  datatype Choice =
    | Go
    | Invoke(op: Op)
    | InvokeWhole(call: WholeOp)
    | PeekAt(bucket: nat)
    | FoundPath(path: seq<Record>)
    | GiveUp
    | Throw
    | Allocate(locks: nat)
    | MigrateAt(bucket: nat)
    | Unlock(lock: nat)

  predicate IsReader(op: Op) { op.Find? || op.Contains? }

  predicate IsInserter(op: Op) { op.Insert? || op.Upsert? }

  /** The thread is inside an operation on one key. */
  predicate Keyed(pc: PC)
  {
    !pc.Idle? && !pc.Whole?
  }

  predicate Reader(th: Thread)
  {
    Keyed(th.pc) && IsReader(th.pc.op)
  }

  predicate InExpansion(pc: PC)
  {
    pc.ExpansionCheck? || pc.LockingAll? || pc.Migrating?
  }

  /** The thread has seen both buckets of its key full and without the key, and has not started over since. */
  predicate FoundFull(pc: PC)
  {
    match pc
    case Locking(_, _, _, goal, _, _) => !goal.Look?
    case Releasing(_, next) => FoundFull(next)
    case Done(_, res) => res == Threw
    case _ => !pc.Idle? && !pc.Ready? && !pc.Migrating? && !pc.Whole?
  }

  function StartOf(s: State, hp: nat, op: Op): (g: Start)
  {
    Start(hp, s.slots, First(hp, op.key), Second(hp, op.key))
  }

  /** The locks a goal needs, in the order they are taken. */
  function PlanOf(hp: nat, op: Op, goal: Goal): (plan: seq<nat>)
    ensures Ascending(plan) && plan != []
  {
    var l1, l2 := LockInd(First(hp, op.key)), LockInd(Second(hp, op.key));
    match goal
    case Look => Plan2(l1, l2)
    case Claim(_) => Plan2(l1, l2)
    case Peek(b) => [LockInd(b)]
    case Shift(path, d) =>
      if d == 0 || d >= |path| then Plan2(l1, l2)
      else if d == 1 then Plan3(l1, l2, LockInd(path[1].bucket))
      else Plan2(LockInd(path[d - 1].bucket), LockInd(path[d].bucket))
  }

  function InsertLocks(hp: nat, op: Op): set<nat>
  {
    {LockInd(First(hp, op.key)), LockInd(Second(hp, op.key))}
  }

  /** A reader only waits for writers, a writer for everyone. */
  ghost predicate Available(s: State, t: nat, l: nat)
    requires t < |s.threads|
  {
    forall u :: 0 <= u < |s.threads| && u != t && l in s.threads[u].held ==>
      Reader(s.threads[t]) && Reader(s.threads[u])
  }

  // ----- What happens under the two locks of a key -----

  /** Where the key is, first bucket first. */
  function Locate(t: Table, i1: nat, i2: nat, k: Key): (r: Option<(nat, nat)>)
    requires i1 < |t| && i2 < |t|
    ensures r.Some? ==> Occupied(t, r.value.0, r.value.1) && t[r.value.0][r.value.1].key == k && r.value.0 in {i1, i2}
    ensures r.Some? <==> SlotOf(t[i1], k) >= 0 || SlotOf(t[i2], k) >= 0
  {
    if SlotOf(t[i1], k) >= 0 then Some((i1, SlotOf(t[i1], k)))
    else if SlotOf(t[i2], k) >= 0 then Some((i2, SlotOf(t[i2], k)))
    else None
  }

  /** A free slot, first bucket first. */
  function FreeSlot(t: Table, i1: nat, i2: nat): (r: Option<(nat, nat)>)
    requires i1 < |t| && i2 < |t|
    ensures r.Some? ==> r.value.0 in {i1, i2} && r.value.1 < |t[r.value.0]| && t[r.value.0][r.value.1].Empty?
    ensures r.None? ==> forall b, s :: b in {i1, i2} && 0 <= s < |t[b]| ==> t[b][s].Full?
  {
    if EmptySlot(t[i1]) >= 0 then Some((i1, EmptySlot(t[i1])))
    else if EmptySlot(t[i2]) >= 0 then Some((i2, EmptySlot(t[i2])))
    else None
  }

  /** The outcome of an action: the new table and what the thread does once it has released its locks. */
  datatype Outcome = Outcome(table: Table, next: PC)

  function OnFound(t: Table, b: nat, s: nat, op: Op, ins: bool): Outcome
    requires Occupied(t, b, s)
  {
    match op
    case Find(_) => Outcome(t, Done(op, Got(t[b][s].val)))
    case Contains(_) => Outcome(t, Done(op, Yes))
    case Insert(_, _) => Outcome(t, Done(op, No))
    case Erase(_) => Outcome(Put(t, b, s, Empty), Done(op, Yes))
    case Update(_, v) => Outcome(Put(t, b, s, t[b][s].(val := v)), Done(op, Yes))
    case UpdateFn(_, fn) => Outcome(Put(t, b, s, t[b][s].(val := fn(t[b][s].val))), Done(op, Yes))
    case Upsert(_, fn, _) =>
      if ins then Outcome(t, Ready(op, false))
      else Outcome(Put(t, b, s, t[b][s].(val := fn(t[b][s].val))), Done(op, Unit))
  }

  function InsertedResult(op: Op): Reply
  {
    if op.Insert? then Yes else Unit
  }

  function AddEntry(t: Table, b: nat, s: nat, op: Op): Outcome
    requires IsInserter(op) && b < |t| && s < |t[b]|
  {
    Outcome(Put(t, b, s, Entry(op.key, op.val)), Done(op, InsertedResult(op)))
  }

  function OnLook(t: Table, hp: nat, op: Op, ins: bool): Outcome
    requires First(hp, op.key) < |t| && Second(hp, op.key) < |t|
  {
    var i1, i2 := First(hp, op.key), Second(hp, op.key);
    match Locate(t, i1, i2, op.key)
    case Some((b, s)) => OnFound(t, b, s, op, ins)
    case None => OnAbsent(t, hp, op, ins)
  }

  function OnAbsent(t: Table, hp: nat, op: Op, ins: bool): Outcome
    requires First(hp, op.key) < |t| && Second(hp, op.key) < |t|
  {
    if op.Find? then Outcome(t, Done(op, Missing))
    else if !IsInserter(op) then Outcome(t, Done(op, No))
    else match FreeSlot(t, First(hp, op.key), Second(hp, op.key))
      case Some((b, s)) => AddEntry(t, b, s, op)
      case None => Outcome(t, Searching(op, ins, hp))
  }

  /** The slot cleared by the cuckoo moves is used only if the key has not been inserted meanwhile. */
  function OnAdd(t: Table, hp: nat, op: Op, ins: bool, b: nat, s: nat): Outcome
    requires First(hp, op.key) < |t| && Second(hp, op.key) < |t| && b < |t| && s < |t[b]| && IsInserter(op)
  {
    match Locate(t, First(hp, op.key), Second(hp, op.key), op.key)
    case Some(_) => Outcome(t, if op.Insert? then Done(op, No) else Ready(op, false))
    case None => AddEntry(t, b, s, op)
  }

  // ----- Steps -----

  function SetThread(s: State, t: nat, th: Thread): State
    requires t < |s.threads|
  {
    s.(threads := s.threads[t := th])
  }

  /** All locks of the goal are held at a hash power found current. */
  function Act(s: State, t: nat): Option<State>
    requires t < |s.threads| && s.threads[t].pc.Locking?
  {
    var th := s.threads[t];
    var pc := th.pc;
    match pc.goal
    case Look =>
      if First(pc.hp, pc.op.key) < |s.table| && Second(pc.hp, pc.op.key) < |s.table| then
        var o := OnLook(s.table, pc.hp, pc.op, pc.ins);
        Some(SetThread(s, t, Thread(Releasing(pc.op, o.next), th.held)).(table := o.table))
      else None
    case Peek(_) =>
      Some(SetThread(s, t, Thread(Releasing(pc.op, Searching(pc.op, pc.ins, pc.hp)), th.held)))
    case Claim(path) =>
      if path != [] && !Occupied(s.table, path[0].bucket, path[0].slot) then
        Some(SetThread(s, t, Thread(Adding(pc.op, pc.ins, pc.hp, path[0].bucket, path[0].slot), th.held)))
      else
        Some(SetThread(s, t, Thread(Releasing(pc.op, Searching(pc.op, pc.ins, pc.hp)), th.held)))
    case Shift(path, d) =>
      if 0 < d < |path| && ShiftValid(s.table, path, d) then
        var table := Move(s.table, path[d - 1].bucket, path[d - 1].slot, path[d].bucket, path[d].slot);
        if d == 1 then
          // Keeps the insert buckets locked and lets go of the third lock.
          Some(SetThread(s, t, Thread(
                 Adding(pc.op, pc.ins, pc.hp, path[0].bucket, path[0].slot),
                 th.held * InsertLocks(pc.hp, pc.op))).(table := table))
        else
          Some(SetThread(s, t, Thread(
                 Releasing(pc.op, Moving(pc.op, pc.ins, pc.hp, path, d - 1)), th.held)).(table := table))
      else
        Some(SetThread(s, t, Thread(Releasing(pc.op, Searching(pc.op, pc.ins, pc.hp)), th.held)))
  }

  /** Taking the next lock of the plan, checking the hash power under the first one, or acting. */
  ghost function LockingStep(s: State, t: nat): Option<State>
    requires t < |s.threads| && s.threads[t].pc.Locking?
  {
    var th := s.threads[t];
    var pc := th.pc;
    var plan := PlanOf(pc.hp, pc.op, pc.goal);
    if pc.n == 1 && !pc.checked then
      if s.hp == pc.hp then Some(SetThread(s, t, th.(pc := Locking(pc.op, pc.ins, pc.hp, pc.goal, pc.n, true))))
      else Some(SetThread(s, t, Thread(Ready(pc.op, pc.ins), th.held - {plan[0]})))
    else if pc.n < |plan| then
      if Available(s, t, plan[pc.n]) then
        Some(SetThread(s, t, Thread(
               Locking(pc.op, pc.ins, pc.hp, pc.goal, pc.n + 1, pc.checked), th.held + {plan[pc.n]})))
      else None
    else Act(s, t)
  }

  ghost predicate ExpansionFree(s: State)
  {
    forall u :: 0 <= u < |s.threads| ==> !InExpansion(s.threads[u].pc)
  }

  /** A lock may be given back by the migration once every bucket it guards has been migrated; the locks the
    * smaller table did not use, only after all the others. */
  ghost predicate MayUnlock(s: State, held: set<nat>, oldHp: nat, l: nat)
  {
    && l in held
    && if l < LocksFor(oldHp) then forall b :: b in s.pending ==> LockInd(b) != l
       else s.pending == {} && forall k :: k in held ==> k >= LocksFor(oldHp)
  }

  ghost function ExpansionStep(s: State, t: nat, c: Choice): Option<State>
    requires t < |s.threads| && InExpansion(s.threads[t].pc)
  {
    var th := s.threads[t];
    match th.pc
    case ExpansionCheck(op, hp) =>
      if s.hp != hp then if c.Go? then Some(SetThread(s, t, Thread(Ready(op, true), {}))) else None
      else if c.Allocate? && s.numLocks <= c.locks <= NUM_LOCKS && LocksFor(hp + 1) <= c.locks then
        Some(SetThread(s, t, Thread(LockingAll(op, hp, 0), {})).(numLocks := c.locks))
      else None
    case LockingAll(op, hp, n) =>
      if c.Throw? && n >= s.numLocks then
        // No memory for the larger bucket array: every lock is given back.
        Some(SetThread(s, t, Thread(Releasing(op, Done(op, Threw)), th.held)))
      else if !c.Go? then None
      else if n < s.numLocks then
        if Available(s, t, n) then Some(SetThread(s, t, Thread(LockingAll(op, hp, n + 1), th.held + {n}))) else None
      else
        Some(SetThread(s, t, th.(pc := Migrating(op, hp))).(
             hp := s.hp + 1,
             table := s.table + EmptyTable(HashSize(s.hp), s.slots),
             pending := Below(HashSize(s.hp))))
    case Migrating(op, hp) =>
      if c.MigrateAt? && c.bucket in s.pending && Doubled(s.table, hp, s.slots, c.bucket) then
        Some(s.(table := MigrateBucket(s.table, hp, s.slots, c.bucket), pending := s.pending - {c.bucket}))
      else if c.Unlock? && MayUnlock(s, th.held, hp, c.lock) then
        Some(SetThread(s, t, th.(held := th.held - {c.lock})))
      else if c.Go? && th.held == {} then Some(SetThread(s, t, Thread(Ready(op, true), {})))
      else None
  }

  /** A step of the owner of the whole table: takes every allocated lock in ascending order, acts, and then unlocks
    * as many locks as are allocated by then. */
  ghost function OwnerStep(s: State, t: nat): Option<State>
    requires t < |s.threads| && s.threads[t].pc.Whole?
  {
    var th := s.threads[t];
    match th.pc.owner
    case Acquiring(call, n) =>
      if n < s.numLocks then
        if Available(s, t, n) then Some(SetThread(s, t, Thread(Whole(Acquiring(call, n + 1)), th.held + {n}))) else None
      else Some(SetThread(s, t, th.(pc := Whole(Owning(call, n)))))
    case Owning(call, got) =>
      if call.Clear? then
        Some(SetThread(s, t, th.(pc := Whole(GivingBack(call, Cleared, got, 0)))).(
               table := EmptyTable(|s.table|, s.slots)))
      else if Unique(s.table) then
        Some(SetThread(s, t, th.(pc := Whole(GivingBack(call, Listed(Contents(s.table)), got, 0)))))
      else None
    case GivingBack(call, reply, got, n) =>
      if n < s.numLocks then
        if n in th.held then Some(SetThread(s, t, Thread(Whole(GivingBack(call, reply, got, n + 1)), th.held - {n})))
        else Some(s.(misused := true))
      else Some(SetThread(s, t, Thread(Idle, {})))
  }

  /** One step of thread t, or None when the choice does not apply or the thread has to wait. */
  ghost function Step(s: State, t: nat, c: Choice): Option<State>
    requires t < |s.threads|
  {
    var th := s.threads[t];
    match th.pc
    case Idle =>
      if c.Invoke? then Some(SetThread(s, t, Thread(Ready(c.op, c.op.Insert?), {})))
      else if c.InvokeWhole? then Some(SetThread(s, t, Thread(Whole(Acquiring(c.call, 0)), {})))
      else None
    case Ready(op, ins) =>
      if c.Go? then Some(SetThread(s, t, Thread(Locking(op, ins, s.hp, Look, 0, false), {}))) else None
    case Locking(_, _, _, _, _, _) => if c.Go? then LockingStep(s, t) else None
    case Adding(op, ins, hp, b, r) =>
      if c.Go? && First(hp, op.key) < |s.table| && Second(hp, op.key) < |s.table|
         && b < |s.table| && r < |s.table[b]| && IsInserter(op) then
        var o := OnAdd(s.table, hp, op, ins, b, r);
        Some(SetThread(s, t, Thread(Releasing(op, o.next), th.held)).(table := o.table))
      else None
    case Searching(op, ins, hp) =>
      if c.PeekAt? && c.bucket < HashSize(hp) then
        Some(SetThread(s, t, Thread(Locking(op, ins, hp, Peek(c.bucket), 0, false), {})))
      else if c.FoundPath? && PathOk(StartOf(s, hp, op), c.path) then
        Some(SetThread(s, t, Thread(Moving(op, ins, hp, c.path, |c.path| - 1), {})))
      else if c.GiveUp? then Some(SetThread(s, t, Thread(TableFull(op, ins, hp), {})))
      else None
    case Moving(op, ins, hp, path, d) =>
      if c.Go? then
        var goal := if d == 0 then Claim(path) else Shift(path, d);
        Some(SetThread(s, t, Thread(Locking(op, ins, hp, goal, 0, false), {})))
      else None
    case TableFull(op, ins, hp) =>
      if c.Throw? then Some(SetThread(s, t, Thread(Done(op, Threw), {})))
      else if c.Go? then Some(SetThread(s, t, Thread(WaitExpansion(op, hp), {})))
      else None
    case WaitExpansion(op, hp) =>
      if c.Go? && ExpansionFree(s) then Some(SetThread(s, t, Thread(ExpansionCheck(op, hp), {}))) else None
    case ExpansionCheck(_, _) => ExpansionStep(s, t, c)
    case LockingAll(_, _, _) => ExpansionStep(s, t, c)
    case Migrating(_, _) => ExpansionStep(s, t, c)
    case Releasing(op, next) =>
      if c.Unlock? && c.lock in th.held then Some(SetThread(s, t, th.(held := th.held - {c.lock})))
      else if c.Go? && th.held == {} then Some(SetThread(s, t, Thread(next, {})))
      else None
    case Done(_, _) => if c.Go? then Some(SetThread(s, t, Thread(Idle, {}))) else None
    case Whole(_) => if c.Go? then OwnerStep(s, t) else None
  }

  /** Any table that satisfies its invariant, with enough locks and every thread idle. */
  ghost predicate Init(s: State)
  {
    && s.slots > 0
    && s.pending == {} && !s.misused
    && TableOk(s.table, s.hp, s.slots, {})
    && LocksFor(s.hp) <= s.numLocks <= NUM_LOCKS
    && forall t :: 0 <= t < |s.threads| ==> s.threads[t] == Thread(Idle, {})
  }

  /** Who steps, and how. */
  datatype Turn = Turn(thread: nat, choice: Choice)

  ghost predicate StepsBy(s: State, turn: Turn, s': State)
  {
    !s.misused && turn.thread < |s.threads| && Step(s, turn.thread, turn.choice) == Some(s')
  }

  ghost predicate Next(s: State, s': State)
  {
    exists turn :: StepsBy(s, turn, s')
  }

  /** A run: any number of steps from an initial state, each by any thread. */
  ghost predicate IsRun(run: seq<State>)
  {
    && run != []
    && Init(run[0])
    && forall i :: 0 <= i < |run| - 1 ==> Next(run[i], run[i + 1])
  }

  /** The run that these turns make. */
  ghost predicate IsRunBy(run: seq<State>, turns: seq<Turn>)
  {
    && |run| == |turns| + 1
    && Init(run[0])
    && forall i :: 0 <= i < |turns| ==> StepsBy(run[i], turns[i], run[i + 1])
  }
}
