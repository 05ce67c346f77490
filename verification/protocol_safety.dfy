/** What every reachable state of the shared table satisfies. */
module ProtocolSafety {
  import opened Bits
  import opened Hashing
  import opened Tables
  import opened TableSteps
  import opened Locks
  import opened CuckooPaths
  import opened Protocol

  // ----- The invariant -----

  ghost predicate GoalOk(s: State, hp: nat, op: Op, goal: Goal)
  {
    match goal
    case Look => true
    case Peek(b) => b < HashSize(hp) && IsInserter(op)
    case Claim(path) => PathOk(StartOf(s, hp, op), path) && IsInserter(op)
    case Shift(path, d) => PathOk(StartOf(s, hp, op), path) && 0 < d < |path| && IsInserter(op)
  }

  /** A thread at one of these points holds nothing. */
  ghost predicate RestOk(s: State, pc: PC)
  {
    match pc
    case Idle => true
    case Ready(_, _) => true
    case Done(_, _) => true
    case Searching(op, _, hp) => 0 < hp <= s.hp && IsInserter(op)
    case Moving(op, _, hp, path, d) =>
      0 < hp <= s.hp && IsInserter(op) && PathOk(StartOf(s, hp, op), path) && d < |path|
    case TableFull(op, _, hp) => 0 < hp <= s.hp && IsInserter(op)
    case WaitExpansion(op, hp) => 0 < hp <= s.hp && IsInserter(op)
    case ExpansionCheck(op, hp) => 0 < hp <= s.hp && IsInserter(op)
    case _ => false
  }

  ghost predicate OwnerOk(s: State, owner: Owner, held: set<nat>)
  {
    match owner
    case Acquiring(_, n) => n <= s.numLocks && held == Below(n)
    case Owning(_, got) => LocksFor(s.hp) <= got <= s.numLocks && held == Below(got)
    case GivingBack(_, _, got, n) => n <= got <= s.numLocks && held == Below(got) - Below(n)
  }

  ghost predicate LockingOk(s: State, hp: nat, op: Op, goal: Goal, n: nat, checked: bool, held: set<nat>)
  {
    && GoalOk(s, hp, op, goal)
    && n <= |PlanOf(hp, op, goal)|
    && held == Elements(PlanOf(hp, op, goal)[..n])
    && (if checked then n > 0 && hp == s.hp else n <= 1)
    && 0 < hp <= s.hp
  }

  ghost predicate ThreadOk(s: State, th: Thread)
  {
    match th.pc
    case Locking(op, ins, hp, goal, n, checked) =>
      LockingOk(s, hp, op, goal, n, checked, th.held)
    case Adding(op, _, hp, b, r) =>
      && IsInserter(op) && hp == s.hp && hp > 0
      && th.held == InsertLocks(hp, op)
      && b in {First(hp, op.key), Second(hp, op.key)}
      && b < |s.table| && r < |s.table[b]| && s.table[b][r].Empty?
    case Releasing(op, next) => RestOk(s, next) && Keyed(next) && next.op == op && !InExpansion(next)
    case LockingAll(op, hp, n) =>
      && IsInserter(op)
      && hp == s.hp && n <= s.numLocks && LocksFor(hp + 1) <= s.numLocks
      && th.held == Below(n) && s.pending == {}
    case Migrating(op, hp) => IsInserter(op) && s.hp == hp + 1
    case Whole(owner) => OwnerOk(s, owner, th.held)
    case _ => RestOk(s, th.pc) && th.held == {}
  }

  /** Two threads hold the same lock only if both are readers. */
  ghost predicate Exclusion(s: State)
  {
    forall t, u, l ::
      && 0 <= t < |s.threads| && 0 <= u < |s.threads| && t != u
      && l in s.threads[t].held && l in s.threads[u].held
      ==> Reader(s.threads[t]) && Reader(s.threads[u])
  }

  /** Only one thread is past the expansion lock. */
  ghost predicate OneExpander(s: State)
  {
    forall t, u ::
      && 0 <= t < |s.threads| && 0 <= u < |s.threads|
      && InExpansion(s.threads[t].pc) && InExpansion(s.threads[u].pc)
      ==> t == u
  }

  /** The migrating thread e still holds every lock whose buckets it has not finished. */
  ghost predicate HoldsPending(s: State, e: nat)
    requires s.hp > 0
  {
    && e < |s.threads| && s.threads[e].pc.Migrating?
    && (forall b :: b in s.pending ==> LockInd(b) in s.threads[e].held)
    && (forall l :: LocksFor(s.hp - 1) <= l < LocksFor(s.hp) ==> l in s.threads[e].held)
  }

  ghost predicate Inv(s: State)
  {
    && s.slots > 0
    && TableOk(s.table, s.hp, s.slots, s.pending)
    && LocksFor(s.hp) <= s.numLocks <= NUM_LOCKS
    && Exclusion(s)
    && OneExpander(s)
    && (s.pending != {} ==> exists e: nat :: HoldsPending(s, e))
    && (forall t :: 0 <= t < |s.threads| ==>
         ThreadOk(s, s.threads[t]) && forall l :: l in s.threads[t].held ==> l < s.numLocks)
  }

  /** The parts of the invariant about one thread and the table. */
  lemma InvOf(s: State, t: nat)
    requires Inv(s) && t < |s.threads|
    ensures ThreadOk(s, s.threads[t]) && TableOk(s.table, s.hp, s.slots, s.pending)
    ensures forall l :: l in s.threads[t].held ==> l < s.numLocks
    ensures LocksFor(s.hp) <= s.numLocks && s.slots > 0 && Exclusion(s)
  {
  }

  lemma LocksBounded(s: State)
    requires Inv(s)
    ensures s.numLocks <= NUM_LOCKS
  {
  }

  lemma InitInv(s: State)
    requires Init(s)
    ensures Inv(s)
  {
  }

  // ----- What holding a lock guarantees -----

  /** While a thread other than the expander holds the lock of a bucket, that bucket is not part of an
    * unfinished migration, at hash powers below and above 16 alike. */
  lemma HeldBucketIsSettled(s: State, t: nat, b: nat)
    requires Inv(s) && t < |s.threads| && !s.threads[t].pc.Migrating?
    requires b < HashSize(s.hp) && LockInd(b) in s.threads[t].held
    ensures Settled(s.hp, s.pending, b) && b % HashSize(s.hp - 1) !in s.pending
  {
    InvOf(s, t);
    if s.pending != {} {
      var e := PendingHolder(s);
      PendingBelow(s);
      hide Inv, LockInd, LocksFor, TableOk, HashSize, Settled, ThreadOk;
      assert LockInd(b) !in s.threads[e].held;
      FarFromPending(s.hp, s.pending, b);
    }
  }

  lemma PendingBelow(s: State)
    requires Inv(s)
    ensures s.pending != {} ==> s.hp > 0 && forall p :: p in s.pending ==> p < HashSize(s.hp - 1)
  {
    hide LockInd, LocksFor, HashSize, ThreadOk, Unique;
  }

  /** A bucket with another lock than any pending one, which is also none of the locks the smaller table did not
    * use, is neither pending nor the upper half of a pending one. */
  lemma FarFromPending(hp: nat, pending: set<nat>, b: nat)
    requires hp > 0 && b < HashSize(hp)
    requires forall p :: p in pending ==> p < HashSize(hp - 1) && LockInd(p) != LockInd(b)
    requires !(LocksFor(hp - 1) <= LockInd(b) < LocksFor(hp))
    ensures Settled(hp, pending, b) && b % HashSize(hp - 1) !in pending
  {
    hide LockInd, LocksFor;
    var half := HashSize(hp - 1);
    assert HashSize(hp) == 2 * half;
    hide HashSize;
    if b >= half {
      UpperHalfLock(hp - 1, b - half);
      ModUnique(b, half, 1, b - half);
    } else {
      ModUnique(b, half, 0, b);
    }
  }

  /** The thread that is migrating; it is not a reader. */
  lemma PendingHolder(s: State) returns (e: nat)
    requires Inv(s) && s.pending != {}
    ensures s.hp > 0 && HoldsPending(s, e) && !Reader(s.threads[e])
  {
    hide LockInd, LocksFor, Unique, PlacedExcept, Shape, HashSize;
    e :| HoldsPending(s, e);
    InvOf(s, e);
  }

  /** The buckets a goal is about. */
  ghost predicate Guards(s: State, t: nat, b: nat)
    requires t < |s.threads|
  {
    b < HashSize(s.hp) && LockInd(b) in s.threads[t].held
  }

  lemma LookGuards(s: State, t: nat)
    requires Inv(s) && t < |s.threads| && s.threads[t].pc.Locking?
    requires var pc := s.threads[t].pc;
      pc.checked && (pc.goal.Look? || pc.goal.Claim?) && pc.n == |PlanOf(pc.hp, pc.op, pc.goal)|
    ensures Guards(s, t, First(s.hp, s.threads[t].pc.op.key)) && Guards(s, t, Second(s.hp, s.threads[t].pc.op.key))
    ensures s.threads[t].held == InsertLocks(s.hp, s.threads[t].pc.op)
  {
    var pc := s.threads[t].pc;
    assert ThreadOk(s, s.threads[t]);
    var plan := PlanOf(pc.hp, pc.op, pc.goal);
    assert plan[..pc.n] == plan;
  }

  lemma ShiftGuards(s: State, t: nat)
    requires Inv(s) && t < |s.threads| && s.threads[t].pc.Locking? && s.threads[t].pc.goal.Shift?
    requires var pc := s.threads[t].pc; pc.checked && pc.n == |PlanOf(pc.hp, pc.op, pc.goal)|
    ensures var pc := s.threads[t].pc;
      && 0 < pc.goal.d < |pc.goal.path| && PathOk(StartOf(s, s.hp, pc.op), pc.goal.path)
      && Guards(s, t, pc.goal.path[pc.goal.d - 1].bucket) && Guards(s, t, pc.goal.path[pc.goal.d].bucket)
      && (pc.goal.d == 1 ==> s.threads[t].held * InsertLocks(s.hp, pc.op) == InsertLocks(s.hp, pc.op))
  {
    var pc := s.threads[t].pc;
    InvOf(s, t);
    hide Inv, TableOk, LockInd, LocksFor, First, Second, AltIndex, PartialKey, Plan2, Plan3;
    var plan := PlanOf(pc.hp, pc.op, pc.goal);
    assert plan[..pc.n] == plan;
  }

  /** Every lock of a plan made for the current or an earlier hash power is allocated. */
  lemma PlanInRange(s: State, hp: nat, op: Op, goal: Goal)
    requires GoalOk(s, hp, op, goal) && hp <= s.hp
    ensures forall i :: 0 <= i < |PlanOf(hp, op, goal)| ==> PlanOf(hp, op, goal)[i] < LocksFor(s.hp)
  {
    hide LockInd, LocksFor, First, Second, HashSize, AltIndex, Plan2, Plan3, Ascending;
    LocksForMonotone(hp, s.hp);
    LockIndInRange(hp, First(hp, op.key));
    LockIndInRange(hp, Second(hp, op.key));
    match goal {
      case Peek(b) => LockIndInRange(hp, b);
      case Shift(path, d) =>
        LockIndInRange(hp, path[d - 1].bucket);
        LockIndInRange(hp, path[d].bucket);
      case _ =>
    }
    forall i | 0 <= i < |PlanOf(hp, op, goal)|
      ensures PlanOf(hp, op, goal)[i] < LocksFor(s.hp)
    {
      assert PlanOf(hp, op, goal)[i] in Elements(PlanOf(hp, op, goal));
    }
  }

  // ----- Steps that leave the hash power alone -----

  lemma SameStart(s: State, s': State)
    requires s.slots == s'.slots
    ensures forall hp, op :: StartOf(s, hp, op) == StartOf(s', hp, op)
  {
  }

  /** A thread's condition depends only on the sizes of the shared state, on whether a doubling has begun, and on the
    * bucket in which the thread has cleared a slot. */
  lemma StaysOk(s: State, s': State, th: Thread)
    requires ThreadOk(s, th)
    requires s'.slots == s.slots && s'.hp == s.hp && s.numLocks <= s'.numLocks
    requires th.pc.LockingAll? ==> s'.pending == s.pending
    requires |s'.table| == |s.table|
    requires th.pc.Adding? && th.pc.bucket < |s.table| ==> s'.table[th.pc.bucket] == s.table[th.pc.bucket]
    ensures ThreadOk(s', th)
  {
    hide LockInd, LocksFor, PathOk, PlanOf, InsertLocks, First, Second, StartOf, Elements, Below;
    SameStart(s, s');
  }

  /** Nobody else writes to the bucket in which a thread has cleared a slot. */
  lemma ClearedBucketStays(s: State, t: nat, table: Table, u: nat)
    requires Inv(s) && t < |s.threads| && u < |s.threads| && u != t && s.threads[u].pc.Adding?
    requires |table| == |s.table|
    requires forall b :: 0 <= b < |table| && table[b] != s.table[b] ==>
      !Reader(s.threads[t]) && LockInd(b) in s.threads[t].held
    ensures var b := s.threads[u].pc.bucket; b < |s.table| && table[b] == s.table[b]
  {
    InvOf(s, u);
    hide Inv, TableOk, LocksFor, LockInd, First, Second;
    assert LockInd(s.threads[u].pc.bucket) in s.threads[u].held;
  }

  lemma OthersStayOk(s: State, t: nat, th: Thread, table: Table, u: nat)
    requires Inv(s) && t < |s.threads| && u < |s.threads| && u != t
    requires |table| == |s.table|
    requires forall b :: 0 <= b < |table| && table[b] != s.table[b] ==>
      !Reader(s.threads[t]) && LockInd(b) in s.threads[t].held
    ensures ThreadOk(SetThread(s, t, th).(table := table), s.threads[u])
  {
    InvOf(s, u);
    if s.threads[u].pc.Adding? {
      ClearedBucketStays(s, t, table, u);
    }
    hide Inv, ThreadOk, TableOk, LockInd;
    StaysOk(s, SetThread(s, t, th).(table := table), s.threads[u]);
  }

  /** A step of thread t that writes only to buckets it has locked as a writer keeps the invariant. */
  lemma ThreadStepKeepsInv(s: State, t: nat, th: Thread, table: Table)
    requires Inv(s) && t < |s.threads|
    requires !s.threads[t].pc.Migrating? && !th.pc.Migrating?
    requires TableOk(table, s.hp, s.slots, s.pending)
    requires forall b :: 0 <= b < |table| && table[b] != s.table[b] ==>
      !Reader(s.threads[t]) && LockInd(b) in s.threads[t].held
    requires ThreadOk(SetThread(s, t, th).(table := table), th)
    requires forall l :: l in th.held ==> l < s.numLocks
    requires forall u, l :: 0 <= u < |s.threads| && u != t && l in th.held && l in s.threads[u].held ==>
      Reader(th) && Reader(s.threads[u])
    requires InExpansion(th.pc) ==> InExpansion(s.threads[t].pc) || ExpansionFree(s)
    ensures Inv(SetThread(s, t, th).(table := table))
  {
    var s' := SetThread(s, t, th).(table := table);
    hide TableOk, ThreadOk, LockInd, LocksFor, HashSize, Settled;
    forall u | 0 <= u < |s.threads|
      ensures ThreadOk(s', s'.threads[u]) && forall l :: l in s'.threads[u].held ==> l < s'.numLocks
    {
      if u != t {
        OthersStayOk(s, t, th, table, u);
      }
    }
    if s.pending != {} {
      var e: nat :| HoldsPending(s, e);
      assert HoldsPending(s', e);
    }
  }
}
