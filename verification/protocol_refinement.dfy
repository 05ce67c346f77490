/** Every step of the shared table keeps the invariant and is a step of the atomic map. */
module ProtocolRefinement {
  import opened Hashing
  import opened Tables
  import opened TableSteps
  import opened Migration
  import opened Locks
  import opened CuckooPaths
  import opened Crowding
  import opened Protocol
  import opened AtomicMap
  import opened ProtocolSafety
  import opened ProtocolActions

  /** An operation has taken effect once its result is fixed, even while it is still releasing locks. */
  function ClientOf(pc: PC): Client
  {
    match pc
    case Idle => Outside
    case Done(op, res) => Returning(op, res)
    case Releasing(op, next) => if next.Done? then Returning(next.op, next.res) else Called(op, FoundFull(next))
    case Whole(owner) => if owner.GivingBack? then ReturningWhole(owner.call, owner.reply) else CalledWhole(owner.call)
    case _ => Called(pc.op, FoundFull(pc))
  }

  /** What a step shows to the caller: a call, with what the caller asks for, or a return, with the result. */
  function EventOf(s: State, t: nat, c: Choice): Event
    requires t < |s.threads|
  {
    match s.threads[t].pc
    case Idle => if c.Invoke? then Calls(c.op) else if c.InvokeWhole? then CallsWhole(c.call) else Internal
    case Done(op, res) => Returns(op, res)
    case Whole(owner) =>
      if owner.GivingBack? && owner.n >= s.numLocks then ReturnsWhole(owner.call, owner.reply) else Internal
    case _ => Internal
  }

  ghost function Abs(s: State): (a: Spec)
    requires Unique(s.table)
    ensures a.contents == Contents(s.table) && |a.clients| == |s.threads|
    ensures forall t :: 0 <= t < |s.threads| ==> a.clients[t] == ClientOf(s.threads[t].pc)
  {
    Spec(Contents(s.table), seq(|s.threads|, i requires 0 <= i < |s.threads| => ClientOf(s.threads[i].pc)))
  }

  ghost predicate Good(s: State, t: nat, e: Event, s': State)
    requires Inv(s)
  {
    Inv(s') && SpecStep(Abs(s), Label(t, e), Abs(s'))
  }

  lemma ThreadStepIsGood(s: State, t: nat, th: Thread, table: Table, e: Event)
    requires Inv(s) && t < |s.threads|
    requires !s.threads[t].pc.Migrating? && !th.pc.Migrating?
    requires TableOk(table, s.hp, s.slots, s.pending)
    requires forall b :: 0 <= b < |table| && table[b] != s.table[b] ==>
      !Reader(s.threads[t]) && LockInd(b) in s.threads[t].held
    requires ThreadOk(SetThread(s, t, th).(table := table), th)
    requires forall l :: l in th.held ==> l < s.numLocks
    requires forall u, l :: 0 <= u < |s.threads| && u != t && l in th.held && l in s.threads[u].held ==>
      Reader(th) && Reader(s.threads[u])
    requires InExpansion(th.pc) ==> InExpansion(s.threads[t].pc) || ExpansionFree(s)
    requires ClientStep(Contents(s.table), ClientOf(s.threads[t].pc), e, Contents(table), ClientOf(th.pc))
    ensures Good(s, t, e, SetThread(s, t, th).(table := table))
  {
    ThreadStepKeepsInv(s, t, th, table);
    hide Inv, ThreadOk, ClientOf, ClientStep, TableOk;
  }

  lemma EffectIsStep(m: map<Key, Value>, c: Client, ret: Event, m': map<Key, Value>, c': Client)
    requires TakesEffect(m, c, ret, m', c')
    ensures ClientStep(m, c, Internal, m', c')
  {
  }

  /** An insertion that has found its buckets full may throw. */
  lemma ThrowIsStep(m: map<Key, Value>, op: Op)
    requires IsInserter(op)
    ensures ClientStep(m, Called(op, true), Internal, m, Returning(op, Threw))
  {
    EffectIsStep(m, Called(op, true), Returns(op, Threw), m, Returning(op, Threw));
  }

  /** Keeping or dropping locks, as the same kind of thread, and leaving the table alone. */
  lemma QuietStep(s: State, t: nat, th: Thread, e: Event)
    requires Inv(s) && t < |s.threads|
    requires !s.threads[t].pc.Migrating? && !th.pc.Migrating?
    requires ThreadOk(SetThread(s, t, th), th)
    requires th.held <= s.threads[t].held && (th.held != {} ==> Reader(th) == Reader(s.threads[t]))
    requires InExpansion(th.pc) ==> InExpansion(s.threads[t].pc) || ExpansionFree(s)
    requires ClientStep(Contents(s.table), ClientOf(s.threads[t].pc), e, Contents(s.table), ClientOf(th.pc))
    ensures Good(s, t, e, SetThread(s, t, th))
  {
    hide ThreadOk, TableOk, ClientStep, ClientOf;
    assert SetThread(s, t, th).(table := s.table) == SetThread(s, t, th);
    ThreadStepIsGood(s, t, th, s.table, e);
  }

  // ----- Steps of a thread that holds no lock -----

  lemma IdleStep(s: State, t: nat, c: Choice)
    requires Inv(s) && t < |s.threads| && Step(s, t, c).Some?
    requires var pc := s.threads[t].pc; pc.Idle? || pc.Ready? || pc.Done?
    ensures Good(s, t, EventOf(s, t, c), Step(s, t, c).value)
  {
    hide Inv, Good, TableOk, Unique, Contents, LockInd, LocksFor, HashSize, Exclusion, PlanOf, PathOk, Elements,
      LockingStep, ExpansionStep, OwnerStep, OnAdd, Effect, WholeEffect;
    InvOf(s, t);
    HashPowerPositive(s);
    var th := Step(s, t, c).value.threads[t];
    assert th.pc.Locking? ==> PlanOf(th.pc.hp, th.pc.op, th.pc.goal)[..0] == [];
    QuietStep(s, t, th, EventOf(s, t, c));
  }

  lemma SearchingStep(s: State, t: nat, c: Choice)
    requires Inv(s) && t < |s.threads| && Step(s, t, c).Some?
    requires var pc := s.threads[t].pc; pc.Searching? || pc.Moving?
    ensures Good(s, t, Internal, Step(s, t, c).value)
  {
    hide Inv, Good, TableOk, Unique, Contents, LockInd, LocksFor, HashSize, Exclusion, PlanOf, PathOk, Elements,
      LockingStep, ExpansionStep, OwnerStep, OnAdd, Effect, WholeEffect;
    InvOf(s, t);
    HashPowerPositive(s);
    var s' := Step(s, t, c).value;
    var th := s'.threads[t];
    assert th.pc.Locking? ==> PlanOf(th.pc.hp, th.pc.op, th.pc.goal)[..0] == [];
    assert StartOf(s, s.threads[t].pc.hp, s.threads[t].pc.op) == StartOf(s', s.threads[t].pc.hp, s.threads[t].pc.op);
    QuietStep(s, t, th, Internal);
  }

  lemma FullStep(s: State, t: nat, c: Choice)
    requires Inv(s) && t < |s.threads| && Step(s, t, c).Some?
    requires var pc := s.threads[t].pc; pc.TableFull? || pc.WaitExpansion?
    ensures Good(s, t, Internal, Step(s, t, c).value)
  {
    hide Inv, Good, TableOk, Unique, Contents, LockInd, LocksFor, HashSize, Exclusion, PlanOf, PathOk, Elements,
      LockingStep, ExpansionStep, OwnerStep, OnAdd, WholeEffect;
    InvOf(s, t);
    HashPowerPositive(s);
    ThrowIsStep(Contents(s.table), s.threads[t].pc.op);
    QuietStep(s, t, Step(s, t, c).value.threads[t], Internal);
  }

  // ----- Taking and releasing bucket locks -----

  lemma ReleasingStep(s: State, t: nat, c: Choice)
    requires Inv(s) && t < |s.threads| && Step(s, t, c).Some? && s.threads[t].pc.Releasing?
    ensures Good(s, t, Internal, Step(s, t, c).value)
  {
    hide Inv, Good, TableOk, Unique, Contents, LockInd, LocksFor, HashSize, Exclusion, PlanOf, PathOk, Elements,
      LockingStep, ExpansionStep, OwnerStep, OnAdd, Effect, WholeEffect;
    InvOf(s, t);
    HashPowerPositive(s);
    var s' := Step(s, t, c).value;
    var next := s.threads[t].pc.next;
    assert next.Moving? ==> StartOf(s, next.hp, next.op) == StartOf(s', next.hp, next.op);
    QuietStep(s, t, s'.threads[t], Internal);
  }

  lemma CheckStep(s: State, t: nat)
    requires Inv(s) && t < |s.threads| && s.threads[t].pc.Locking?
    requires s.threads[t].pc.n == 1 && !s.threads[t].pc.checked && LockingStep(s, t).Some?
    ensures Good(s, t, Internal, LockingStep(s, t).value)
  {
    hide Inv, TableOk, Unique, Contents, LockInd, LocksFor, HashSize, Exclusion, PlanOf, PathOk, Elements;
    var pc := s.threads[t].pc;
    InvOf(s, t);
    HashPowerPositive(s);
    var plan, s' := PlanOf(pc.hp, pc.op, pc.goal), LockingStep(s, t).value;
    assert plan[..1] == [plan[0]];
    assert StartOf(s, pc.hp, pc.op) == StartOf(s', pc.hp, pc.op);
    QuietStep(s, t, s'.threads[t], Internal);
  }

  lemma AcquireStep(s: State, t: nat)
    requires Inv(s) && t < |s.threads| && s.threads[t].pc.Locking?
    requires var pc := s.threads[t].pc; !(pc.n == 1 && !pc.checked) && pc.n < |PlanOf(pc.hp, pc.op, pc.goal)|
    requires LockingStep(s, t).Some?
    ensures Good(s, t, Internal, LockingStep(s, t).value)
  {
    hide Inv, ThreadOk, TableOk, PlanOf, LockInd, LocksFor, ClientStep, ClientOf, Contents, Unique;
    InvOf(s, t);
    var th := AcquiredOk(s, t);
    assert LockingStep(s, t).value == SetThread(s, t, th).(table := s.table);
    SameClient(Contents(s.table), s.threads[t].pc, th.pc);
    ThreadStepIsGood(s, t, th, s.table, Internal);
  }

  lemma SameClient(m: map<Key, Value>, pc: PC, pc': PC)
    requires pc.Locking? && pc'.Locking? && pc'.op == pc.op && pc'.goal == pc.goal
    ensures ClientStep(m, ClientOf(pc), Internal, m, ClientOf(pc'))
  {
  }

  lemma SameGoal(s: State, s': State, hp: nat, op: Op, goal: Goal)
    requires GoalOk(s, hp, op, goal) && s'.slots == s.slots
    ensures GoalOk(s', hp, op, goal)
  {
    hide PathOk, First, Second;
    SameStart(s, s');
  }

  lemma AcquiredOk(s: State, t: nat) returns (th: Thread)
    requires Inv(s) && t < |s.threads| && s.threads[t].pc.Locking?
    requires var pc := s.threads[t].pc; !(pc.n == 1 && !pc.checked) && pc.n < |PlanOf(pc.hp, pc.op, pc.goal)|
    ensures var pc := s.threads[t].pc;
      var l := PlanOf(pc.hp, pc.op, pc.goal)[pc.n];
      && th == Thread(Locking(pc.op, pc.ins, pc.hp, pc.goal, pc.n + 1, pc.checked), s.threads[t].held + {l})
      && l < s.numLocks
    ensures ThreadOk(SetThread(s, t, th).(table := s.table), th)
  {
    var pc := s.threads[t].pc;
    var plan := PlanOf(pc.hp, pc.op, pc.goal);
    th := Thread(Locking(pc.op, pc.ins, pc.hp, pc.goal, pc.n + 1, pc.checked), s.threads[t].held + {plan[pc.n]});
    var s' := SetThread(s, t, th).(table := s.table);
    hide Inv, PlanOf, GoalOk, TableOk, LockInd, LocksFor, Exclusion, Elements;
    InvOf(s, t);
    PrefixGrows(plan, pc.n);
    PlanInRange(s, pc.hp, pc.op, pc.goal);
    SameGoal(s, s', pc.hp, pc.op, pc.goal);
  }

  // ----- Actions -----

  lemma OutcomeIsStep(t: Table, hp: nat, slots: nat, pending: set<nat>, op: Op, o: Outcome, missed: bool)
    requires GoodOutcome(t, hp, slots, pending, op, o) && TableOk(t, hp, slots, pending)
    ensures ClientStep(
      Contents(t), Called(op, missed), Internal, Contents(o.table), ClientOf(Releasing(op, o.next)))
    ensures !(o.next.Done? && o.next.res == Threw)
  {
    hide First, Second, Contents, Unique, PlacedExcept;
    if o.next.Done? {
      assert o.next.res != Threw;
      EffectIsStep(
        Contents(t), Called(op, missed), Returns(op, o.next.res), Contents(o.table), Returning(op, o.next.res));
    }
  }

  lemma OutcomeIsGood(s: State, t: nat, op: Op, o: Outcome)
    requires Inv(s) && t < |s.threads|
    requires ClientOf(s.threads[t].pc).Called? && s.threads[t].pc.op == op && !s.threads[t].pc.Migrating?
    requires s.threads[t].held == InsertLocks(s.hp, op)
    requires GoodOutcome(s.table, s.hp, s.slots, s.pending, op, o)
    ensures Good(s, t, Internal, SetThread(s, t, Thread(Releasing(op, o.next), s.threads[t].held)).(table := o.table))
  {
    hide Inv, TableOk, LockInd, LocksFor, First, Second, Effect, Contents, Unique, PathOk, PlanOf, Below,
      Elements, HashSize;
    InvOf(s, t);
    OutcomeIsStep(s.table, s.hp, s.slots, s.pending, op, o, ClientOf(s.threads[t].pc).missed);
    hide ClientStep;
    ThreadStepIsGood(s, t, Thread(Releasing(op, o.next), s.threads[t].held), o.table, Internal);
  }

  lemma KeyBucketsSettled(s: State, t: nat, k: Key)
    requires Inv(s) && t < |s.threads| && !s.threads[t].pc.Migrating?
    requires Guards(s, t, First(s.hp, k)) && Guards(s, t, Second(s.hp, k))
    ensures KeySettled(s.hp, s.pending, k)
  {
    hide Inv, TableOk, LockInd, First, Second;
    assert s.hp > 0 by {
      HashPowerPositive(s);
    }
    HeldBucketIsSettled(s, t, First(s.hp, k));
    HeldBucketIsSettled(s, t, Second(s.hp, k));
  }

  lemma HashPowerPositive(s: State)
    requires Inv(s)
    ensures s.hp > 0 && |s.table| == HashSize(s.hp) && Unique(s.table)
  {
  }

  lemma LookStep(s: State, t: nat)
    requires Inv(s) && t < |s.threads| && s.threads[t].pc.Locking? && s.threads[t].pc.goal.Look?
    requires var pc := s.threads[t].pc; pc.checked && pc.n == |PlanOf(pc.hp, pc.op, pc.goal)|
    requires Act(s, t).Some?
    ensures Good(s, t, Internal, Act(s, t).value)
  {
    hide Inv, TableOk, LockInd, First, Second, PlanOf, GoodOutcome, OnLook, Settled, HashSize;
    var pc := s.threads[t].pc;
    HashPowerPositive(s);
    InvOf(s, t);
    LookGuards(s, t);
    KeyBucketsSettled(s, t, pc.op.key);
    LookOutcome(s.table, s.hp, s.slots, s.pending, pc.op, pc.ins);
    OutcomeIsGood(s, t, pc.op, OnLook(s.table, s.hp, pc.op, pc.ins));
  }

  lemma AddingStep(s: State, t: nat, c: Choice)
    requires Inv(s) && t < |s.threads| && Step(s, t, c).Some? && s.threads[t].pc.Adding?
    ensures Good(s, t, Internal, Step(s, t, c).value)
  {
    hide Inv, TableOk, LockInd, First, Second, PlanOf, GoodOutcome, OnAdd, Settled, HashSize;
    var pc := s.threads[t].pc;
    HashPowerPositive(s);
    InvOf(s, t);
    KeyBucketsSettled(s, t, pc.op.key);
    AddAfterMovesOutcome(s.table, s.hp, s.slots, s.pending, pc.op, pc.ins, pc.bucket, pc.slot);
    OutcomeIsGood(s, t, pc.op, OnAdd(s.table, s.hp, pc.op, pc.ins, pc.bucket, pc.slot));
  }

  lemma GiveBack(s: State, t: nat, op: Op, next: PC)
    requires Inv(s) && t < |s.threads| && ClientOf(s.threads[t].pc) == Called(op, true) && s.threads[t].pc.op == op
    requires !s.threads[t].pc.Migrating?
    requires RestOk(s, next) && !next.Idle? && !next.Done? && next.op == op && !InExpansion(next)
    ensures Good(s, t, Internal, SetThread(s, t, Thread(Releasing(op, next), s.threads[t].held)))
  {
    hide Inv, TableOk, PathOk;
    InvOf(s, t);
    var s' := SetThread(s, t, Thread(Releasing(op, next), s.threads[t].held));
    assert next.Moving? ==> StartOf(s, next.hp, next.op) == StartOf(s', next.hp, next.op);
    QuietStep(s, t, Thread(Releasing(op, next), s.threads[t].held), Internal);
  }

  lemma PeekStep(s: State, t: nat)
    requires Inv(s) && t < |s.threads| && s.threads[t].pc.Locking? && s.threads[t].pc.goal.Peek?
    ensures Act(s, t).Some? && Good(s, t, Internal, Act(s, t).value)
  {
    hide Inv, TableOk, PlanOf;
    InvOf(s, t);
    var pc := s.threads[t].pc;
    GiveBack(s, t, pc.op, Searching(pc.op, pc.ins, pc.hp));
  }

  lemma ClaimStep(s: State, t: nat)
    requires Inv(s) && t < |s.threads| && s.threads[t].pc.Locking? && s.threads[t].pc.goal.Claim?
    requires var pc := s.threads[t].pc; pc.checked && pc.n == |PlanOf(pc.hp, pc.op, pc.goal)|
    ensures Act(s, t).Some? && Good(s, t, Internal, Act(s, t).value)
  {
    hide Inv, PlanOf, LockInd, First, Second, Unique, PlacedExcept;
    InvOf(s, t);
    LookGuards(s, t);
    var pc := s.threads[t].pc;
    var path := pc.goal.path;
    if path != [] && !Occupied(s.table, path[0].bucket, path[0].slot) {
      QuietStep(s, t, Act(s, t).value.threads[t], Internal);
    } else {
      GiveBack(s, t, pc.op, Searching(pc.op, pc.ins, pc.hp));
    }
  }

  lemma ShiftStep(s: State, t: nat)
    requires Inv(s) && t < |s.threads| && s.threads[t].pc.Locking? && s.threads[t].pc.goal.Shift?
    requires var pc := s.threads[t].pc; pc.checked && pc.n == |PlanOf(pc.hp, pc.op, pc.goal)|
    ensures Act(s, t).Some? && Good(s, t, Internal, Act(s, t).value)
  {
    hide Inv, PlanOf, LockInd, First, Second, TableOk, PathOk, HashSize, Settled, ShiftValid, Move;
    InvOf(s, t);
    HashPowerPositive(s);
    ShiftGuards(s, t);
    var pc := s.threads[t].pc;
    var path, d := pc.goal.path, pc.goal.d;
    if ShiftValid(s.table, path, d) {
      HeldBucketIsSettled(s, t, path[d - 1].bucket);
      HeldBucketIsSettled(s, t, path[d].bucket);
      ShiftMoves(s, t, pc.op, path, d);
    } else {
      GiveBack(s, t, pc.op, Searching(pc.op, pc.ins, pc.hp));
    }
  }

  lemma ShiftMoves(s: State, t: nat, op: Op, path: seq<Record>, d: nat)
    requires Inv(s) && t < |s.threads| && s.threads[t].pc.Locking? && s.threads[t].pc.goal == Shift(path, d)
    requires s.threads[t].pc.op == op && s.threads[t].pc.hp == s.hp && IsInserter(op)
    requires s.hp > 0 && 0 < d < |path| && PathOk(StartOf(s, s.hp, op), path) && ShiftValid(s.table, path, d)
    requires Guards(s, t, path[d - 1].bucket) && Guards(s, t, path[d].bucket)
    requires Settled(s.hp, s.pending, path[d - 1].bucket) && Settled(s.hp, s.pending, path[d].bucket)
    requires d == 1 ==> s.threads[t].held * InsertLocks(s.hp, op) == InsertLocks(s.hp, op)
    ensures Act(s, t).Some? && Good(s, t, Internal, Act(s, t).value)
  {
    hide Inv, PlanOf, LockInd, First, Second, TableOk, PathOk, HashSize, Settled, ShiftValid, Move, Contents, Unique;
    InvOf(s, t);
    ShiftOutcome(s.table, StartOf(s, s.hp, op), s.pending, path, d);
    var s' := Act(s, t).value;
    var th, table := s'.threads[t], s'.table;
    assert s' == SetThread(s, t, th).(table := table);
    ShiftedOk(s, t, op, path, d);
    ThreadStepIsGood(s, t, th, table, Internal);
  }

  lemma ShiftedOk(s: State, t: nat, op: Op, path: seq<Record>, d: nat)
    requires t < |s.threads| && s.threads[t].pc.Locking? && s.threads[t].pc.goal == Shift(path, d)
    requires s.threads[t].pc.op == op && s.threads[t].pc.hp == s.hp && IsInserter(op)
    requires s.hp > 0 && 0 < d < |path| && PathOk(StartOf(s, s.hp, op), path) && ShiftValid(s.table, path, d)
    requires d == 1 ==> s.threads[t].held * InsertLocks(s.hp, op) == InsertLocks(s.hp, op)
    requires var table := Move(s.table, path[d - 1].bucket, path[d - 1].slot, path[d].bucket, path[d].slot);
      && path[d - 1].bucket < |table| && path[d - 1].slot < |table[path[d - 1].bucket]|
      && table[path[d - 1].bucket][path[d - 1].slot].Empty?
    ensures Act(s, t).Some? && ThreadOk(Act(s, t).value, Act(s, t).value.threads[t])
  {
    hide PlanOf, LockInd, First, Second, AltIndex, PartialKey, HashSize, Move;
    var s' := Act(s, t).value;
    SameStart(s, s');
    if d == 1 {
      assert path[0].bucket in {First(s.hp, op.key), Second(s.hp, op.key)};
      assert s'.threads[t].held == InsertLocks(s.hp, op);
      assert ThreadOk(s', s'.threads[t]);
    } else {
      assert RestOk(s', Moving(op, s.threads[t].pc.ins, s.hp, path, d - 1));
    }
  }

  // ----- Expansion -----

  lemma AllocateStep(s: State, t: nat, c: Choice)
    requires Inv(s) && t < |s.threads| && s.threads[t].pc.ExpansionCheck? && ExpansionStep(s, t, c).Some?
    ensures Good(s, t, Internal, ExpansionStep(s, t, c).value)
  {
    var s' := ExpansionStep(s, t, c).value;
    var pc := s.threads[t].pc;
    InvOf(s, t);
    if s.hp != pc.hp {
      hide TableOk, LockInd, Exclusion;
      QuietStep(s, t, s'.threads[t], Internal);
    } else {
      AllocateKeepsInv(s, t, c);
    }
  }

  lemma NothingPending(s: State, t: nat)
    requires Inv(s) && t < |s.threads| && InExpansion(s.threads[t].pc) && !s.threads[t].pc.Migrating?
    ensures s.pending == {}
  {
  }

  lemma AllocateKeepsInv(s: State, t: nat, c: Choice)
    requires Inv(s) && t < |s.threads| && s.threads[t].pc.ExpansionCheck? && ExpansionStep(s, t, c).Some?
    requires s.hp == s.threads[t].pc.hp
    ensures Good(s, t, Internal, ExpansionStep(s, t, c).value)
  {
    var s' := ExpansionStep(s, t, c).value;
    hide TableOk, LockInd, LocksFor, HashSize, PathOk;
    NothingPending(s, t);
    assert ThreadOk(s, s.threads[t]);
    forall u | 0 <= u < |s.threads|
      ensures ThreadOk(s', s'.threads[u])
    {
      if u != t {
        StaysOk(s, s', s.threads[u]);
      }
    }
  }

  lemma LockAllStep(s: State, t: nat, c: Choice)
    requires Inv(s) && t < |s.threads| && s.threads[t].pc.LockingAll? && ExpansionStep(s, t, c).Some?
    requires s.threads[t].pc.n < s.numLocks && c.Go?
    ensures Good(s, t, Internal, ExpansionStep(s, t, c).value)
  {
    hide TableOk, LockInd, LocksFor, Contents, Unique;
    var s' := ExpansionStep(s, t, c).value;
    InvOf(s, t);
    var n := s.threads[t].pc.n;
    assert Below(n + 1) == Below(n) + {n};
    assert s' == SetThread(s, t, s'.threads[t]).(table := s.table);
    hide Inv;
    ThreadStepIsGood(s, t, s'.threads[t], s.table, Internal);
  }

  /** With every lock in hand nobody else holds any, so the hash power may change under them. */
  lemma AllLockedOthersHoldNothing(s: State, t: nat)
    requires Inv(s) && t < |s.threads| && s.threads[t].pc.LockingAll? && s.threads[t].pc.n == s.numLocks
    ensures forall u :: 0 <= u < |s.threads| && u != t ==> s.threads[u].held == {}
  {
    hide TableOk, LockInd, LocksFor;
    assert ThreadOk(s, s.threads[t]);
    forall u | 0 <= u < |s.threads| && u != t
      ensures s.threads[u].held == {}
    {
      assert forall l :: l in s.threads[u].held ==> l in s.threads[t].held;
    }
  }

  lemma LocklessStaysOk(s: State, s': State, th: Thread)
    requires ThreadOk(s, th) && th.held == {} && !InExpansion(th.pc)
    requires s'.slots == s.slots && s'.hp >= s.hp && s'.numLocks == s.numLocks
    ensures ThreadOk(s', th)
  {
    SameStart(s, s');
    hide LockInd, PathOk, TableOk;
    match th.pc
    case Locking(op, ins, hp, goal, n, checked) => PrefixHasFirst(PlanOf(hp, op, goal), n);
    case Adding(op, _, hp, _, _) => InsertLocksNonempty(hp, op);
    case Whole(owner) => if owner.Owning? { ZeroIsBelow(owner.got); }
    case _ =>
  }

  lemma ZeroIsBelow(n: nat)
    ensures n > 0 ==> 0 in Below(n)
  {
  }

  lemma PrefixHasFirst(plan: seq<nat>, n: nat)
    requires plan != [] && n <= |plan|
    ensures n > 0 ==> plan[0] in Elements(plan[..n])
  {
    if n > 0 {
      assert plan[..n][0] == plan[0];
    }
  }

  lemma InsertLocksNonempty(hp: nat, op: Op)
    ensures InsertLocks(hp, op) != {}
  {
    assert LockInd(First(hp, op.key)) in InsertLocks(hp, op);
  }

  lemma DoubleStep(s: State, t: nat, c: Choice)
    requires Inv(s) && t < |s.threads| && s.threads[t].pc.LockingAll? && ExpansionStep(s, t, c).Some?
    requires s.threads[t].pc.n == s.numLocks && c.Go?
    ensures Good(s, t, Internal, ExpansionStep(s, t, c).value)
  {
    var s' := ExpansionStep(s, t, c).value;
    hide TableOk, LockInd, LocksFor, HashSize, EmptyTable, Contents, Unique, Below, PlanOf, PathOk;
    AllLockedOthersHoldNothing(s, t);
    DoubleShared(s, t);
    InvOf(s, t);
    forall u | 0 <= u < |s'.threads|
      ensures ThreadOk(s', s'.threads[u]) && forall l :: l in s'.threads[u].held ==> l < s'.numLocks
    {
      InvOf(s, u);
      if u != t {
        assert !InExpansion(s.threads[u].pc);
        LocklessStaysOk(s, s', s.threads[u]);
      }
    }
    assert HoldsPending(s', t) by {
      PendingHeld(s', t, s.hp);
    }
  }

  /** Without memory for the larger table nothing has changed, and the insertion throws. */
  lemma OutOfMemoryStep(s: State, t: nat, c: Choice)
    requires Inv(s) && t < |s.threads| && s.threads[t].pc.LockingAll? && ExpansionStep(s, t, c).Some? && c.Throw?
    ensures Good(s, t, Internal, ExpansionStep(s, t, c).value)
  {
    hide Inv, Good, TableOk, Unique, Contents, LockInd, LocksFor, HashSize, Exclusion, PlanOf, PathOk, Elements, Below;
    InvOf(s, t);
    HashPowerPositive(s);
    ThrowIsStep(Contents(s.table), s.threads[t].pc.op);
    QuietStep(s, t, ExpansionStep(s, t, c).value.threads[t], Internal);
  }

  lemma PendingHeld(s': State, t: nat, hp: nat)
    requires t < |s'.threads| && s'.threads[t].pc.Migrating? && s'.hp == hp + 1
    requires s'.pending == Below(HashSize(hp)) && s'.threads[t].held == Below(s'.numLocks)
    requires LocksFor(hp + 1) <= s'.numLocks
    ensures HoldsPending(s', t)
  {
    LocksForGrows(hp);
    hide LockInd, LocksFor, HashSize;
    forall b | b in s'.pending
      ensures LockInd(b) in s'.threads[t].held
    {
      LockIndInRange(hp, b);
    }
  }

  /** The part of the invariant about the shared state, right after the bucket array has doubled. */
  lemma DoubleShared(s: State, t: nat)
    requires Inv(s) && t < |s.threads| && s.threads[t].pc.LockingAll?
    ensures var table := s.table + EmptyTable(HashSize(s.hp), s.slots);
      && TableOk(table, s.hp + 1, s.slots, Below(HashSize(s.hp)))
      && Contents(table) == Contents(s.table)
  {
    InvOf(s, t);
    NothingPending(s, t);
    hide Inv, ThreadOk, PlacedExcept, Shape, Unique;
    DoubleStarts(s.table, s.hp, s.slots);
  }

  lemma MigrateStep(s: State, t: nat, c: Choice)
    requires Inv(s) && t < |s.threads| && s.threads[t].pc.Migrating? && c.MigrateAt?
    requires c.bucket in s.pending && Doubled(s.table, s.threads[t].pc.hp, s.slots, c.bucket)
    ensures ExpansionStep(s, t, c).Some? && Good(s, t, Internal, ExpansionStep(s, t, c).value)
  {
    hide TableOk, LockInd, LocksFor, HashSize, Unique, Contents, MigrateBucket, PathOk, PlanOf;
    var s' := ExpansionStep(s, t, c).value;
    var hp, b := s.threads[t].pc.hp, c.bucket;
    InvOf(s, t);
    MigrateShared(s, hp, b);
    OnlyExpander(s, t);
    hide TableOk, LockInd, LocksFor, MigrateBucket, ThreadOk, Contents, Unique, Exclusion, OneExpander;
    forall u | 0 <= u < |s'.threads|
      ensures ThreadOk(s', s'.threads[u]) && forall l :: l in s'.threads[u].held ==> l < s'.numLocks
    {
      InvOf(s, u);
      if u != t {
        NotItsBucket(s, t, u, b);
        StaysOk(s, s', s.threads[u]);
      }
    }
    hide TableOk, LockInd, LocksFor, HashSize, MigrateBucket, ThreadOk, Contents, Unique;
    assert s'.pending != {} ==> HoldsPending(s', t);
  }

  lemma MigrateShared(s: State, hp: nat, b: nat)
    requires TableOk(s.table, s.hp, s.slots, s.pending) && s.hp == hp + 1 && b in s.pending
    requires Doubled(s.table, hp, s.slots, b)
    ensures var table := MigrateBucket(s.table, hp, s.slots, b);
      && TableOk(table, s.hp, s.slots, s.pending - {b})
      && Contents(table) == Contents(s.table)
      && |table| == |s.table|
      && forall c :: 0 <= c < |s.table| && c != b && c != b + HashSize(hp) ==> table[c] == s.table[c]
  {
    hide PlacedExcept, Unique;
    MigrateBucketKeepsMap(s.table, hp, s.slots, s.pending, b);
  }

  lemma OnlyExpander(s: State, t: nat)
    requires Inv(s) && t < |s.threads| && s.threads[t].pc.Migrating? && s.pending != {}
    ensures HoldsPending(s, t)
    ensures forall u :: 0 <= u < |s.threads| && u != t ==> !InExpansion(s.threads[u].pc)
  {
    HashPowerPositive(s);
    hide TableOk, LockInd, LocksFor, ThreadOk;
    var e: nat :| HoldsPending(s, e);
    assert InExpansion(s.threads[e].pc);
  }

  /** A thread that has cleared a slot for its key holds the lock of a bucket that no migration touches. */
  lemma NotItsBucket(s: State, t: nat, u: nat, b: nat)
    requires Inv(s) && t < |s.threads| && u < |s.threads| && u != t && s.threads[t].pc.Migrating? && b in s.pending
    requires !InExpansion(s.threads[u].pc)
    ensures s.threads[u].pc.Adding? ==>
      s.threads[u].pc.bucket != b && s.threads[u].pc.bucket != b + HashSize(s.hp - 1)
  {
    hide Inv, TableOk, LocksFor, PlanOf, PathOk, LockInd, First, Second, HashSize, GoalOk, LockingOk, OwnerOk, RestOk;
    var th := s.threads[u];
    InvOf(s, u);
    HashPowerPositive(s);
    if th.pc.Adding? {
      HeldBucketIsSettled(s, u, th.pc.bucket);
    }
  }

  lemma UnlockStep(s: State, t: nat, c: Choice)
    requires Inv(s) && t < |s.threads| && s.threads[t].pc.Migrating? && c.Unlock?
    requires MayUnlock(s, s.threads[t].held, s.threads[t].pc.hp, c.lock)
    ensures ExpansionStep(s, t, c).Some? && Good(s, t, Internal, ExpansionStep(s, t, c).value)
  {
    var s' := ExpansionStep(s, t, c).value;
    InvOf(s, t);
    if s.pending != {} {
      OnlyExpander(s, t);
    }
    hide TableOk, LockInd, LocksFor, ThreadOk, Contents, Unique, Exclusion, OneExpander;
    forall u | 0 <= u < |s'.threads|
      ensures ThreadOk(s', s'.threads[u]) && forall l :: l in s'.threads[u].held ==> l < s'.numLocks
    {
      InvOf(s, u);
      if u != t {
        StaysOk(s, s', s.threads[u]);
      }
    }
    hide TableOk, LockInd, LocksFor, ThreadOk, Contents, Unique;
    assert s'.pending != {} ==> HoldsPending(s', t);
  }

  lemma FinishStep(s: State, t: nat, c: Choice)
    requires Inv(s) && t < |s.threads| && s.threads[t].pc.Migrating? && c.Go? && ExpansionStep(s, t, c).Some?
    ensures Good(s, t, Internal, ExpansionStep(s, t, c).value)
  {
    var s' := ExpansionStep(s, t, c).value;
    InvOf(s, t);
    NothingLeftPending(s, t);
    forall u | 0 <= u < |s'.threads|
      ensures ThreadOk(s', s'.threads[u]) && forall l :: l in s'.threads[u].held ==> l < s'.numLocks
    {
      InvOf(s, u);
      if u != t {
        StaysOk(s, s', s.threads[u]);
      }
    }
    hide TableOk, LockInd, LocksFor, ThreadOk, Contents, Unique;
  }

  /** When the migrating thread has given every lock back, every bucket has been migrated. */
  lemma NothingLeftPending(s: State, t: nat)
    requires Inv(s) && t < |s.threads| && s.threads[t].pc.Migrating? && s.threads[t].held == {}
    ensures s.pending == {}
  {
    HashPowerPositive(s);
    hide TableOk, LockInd, LocksFor, ThreadOk;
    if s.pending != {} {
      OnlyExpander(s, t);
    }
  }

  lemma ExpanderStep(s: State, t: nat, c: Choice)
    requires Inv(s) && t < |s.threads| && InExpansion(s.threads[t].pc) && ExpansionStep(s, t, c).Some?
    ensures Good(s, t, Internal, ExpansionStep(s, t, c).value)
  {
    InvOf(s, t);
    hide Inv, Good, TableOk;
    match s.threads[t].pc
    case ExpansionCheck(_, _) => AllocateStep(s, t, c);
    case LockingAll(_, _, n) =>
      if c.Throw? {
        OutOfMemoryStep(s, t, c);
      } else if n < s.numLocks {
        LockAllStep(s, t, c);
      } else {
        DoubleStep(s, t, c);
      }
    case Migrating(_, hp) =>
      match c {
        case MigrateAt(_) => MigrateStep(s, t, c);
        case Unlock(_) => UnlockStep(s, t, c);
        case _ => FinishStep(s, t, c);
      }
  }

  lemma LockingStepIsGood(s: State, t: nat)
    requires Inv(s) && t < |s.threads| && s.threads[t].pc.Locking? && LockingStep(s, t).Some?
    ensures Good(s, t, Internal, LockingStep(s, t).value)
  {
    InvOf(s, t);
    hide Inv, Good, TableOk, Act, PlanOf;
    var pc := s.threads[t].pc;
    if pc.n == 1 && !pc.checked {
      CheckStep(s, t);
    } else if pc.n < |PlanOf(pc.hp, pc.op, pc.goal)| {
      AcquireStep(s, t);
    } else {
      match pc.goal
      case Look => LookStep(s, t);
      case Peek(_) => PeekStep(s, t);
      case Claim(_) => ClaimStep(s, t);
      case Shift(_, _) => ShiftStep(s, t);
    }
  }

  // ----- The owner of the whole table -----

  lemma AcquireAllStep(s: State, t: nat)
    requires Inv(s) && t < |s.threads| && s.threads[t].pc.Whole? && s.threads[t].pc.owner.Acquiring?
    requires OwnerStep(s, t).Some?
    ensures Good(s, t, Internal, OwnerStep(s, t).value)
  {
    hide TableOk, LockInd, LocksFor, Contents, Unique, Inv;
    var s' := OwnerStep(s, t).value;
    InvOf(s, t);
    var n := s.threads[t].pc.owner.n;
    assert Below(n + 1) == Below(n) + {n};
    assert s' == SetThread(s, t, s'.threads[t]).(table := s.table);
    ThreadStepIsGood(s, t, s'.threads[t], s.table, Internal);
  }

  /** The owner of every lock finds no migration unfinished. */
  lemma OwnerFindsNothingPending(s: State, t: nat)
    requires Inv(s) && t < |s.threads| && s.threads[t].pc.Whole? && s.threads[t].pc.owner.Owning?
    ensures s.pending == {}
    ensures forall b :: 0 <= b < HashSize(s.hp) ==> LockInd(b) in s.threads[t].held
  {
    InvOf(s, t);
    HashPowerPositive(s);
    hide TableOk, LocksFor, LockInd, HashSize;
    forall b | 0 <= b < HashSize(s.hp)
      ensures LockInd(b) in s.threads[t].held
    {
      LockIndInRange(s.hp, b);
    }
  }

  lemma OwnStep(s: State, t: nat)
    requires Inv(s) && t < |s.threads| && s.threads[t].pc.Whole? && s.threads[t].pc.owner.Owning?
    requires OwnerStep(s, t).Some?
    ensures Good(s, t, Internal, OwnerStep(s, t).value)
  {
    hide LockInd, LocksFor, Contents, PlacedExcept, HashSize, Inv, EmptyTable;
    var s' := OwnerStep(s, t).value;
    InvOf(s, t);
    OwnerFindsNothingPending(s, t);
    NothingStored(EmptyTable(|s.table|, s.slots), s.hp, s.slots);
    assert s' == SetThread(s, t, s'.threads[t]).(table := s'.table);
    var call, reply := s.threads[t].pc.owner.call, s'.threads[t].pc.owner.reply;
    EffectIsStep(Contents(s.table), CalledWhole(call), ReturnsWhole(call, reply), Contents(s'.table),
                 ReturningWhole(call, reply));
    ThreadStepIsGood(s, t, s'.threads[t], s'.table, Internal);
  }

  /** The rest of the state does not depend on whether a lock has been misused. */
  lemma MisuseIsGood(s: State, t: nat)
    requires Inv(s) && t < |s.threads|
    ensures Good(s, t, Internal, s.(misused := true))
  {
    var s' := s.(misused := true);
    forall u | 0 <= u < |s.threads|
      ensures ThreadOk(s', s.threads[u])
    {
      InvOf(s, u);
      StaysOk(s, s', s.threads[u]);
    }
    hide TableOk, LockInd, LocksFor, ThreadOk, Contents, Unique;
    assert s'.pending != {} ==> exists e: nat :: HoldsPending(s', e) by {
      if s.pending != {} {
        var e: nat :| HoldsPending(s, e);
        assert HoldsPending(s', e);
      }
    }
  }

  lemma GiveBackAllStep(s: State, t: nat)
    requires Inv(s) && t < |s.threads| && s.threads[t].pc.Whole? && s.threads[t].pc.owner.GivingBack?
    requires OwnerStep(s, t).Some?
    ensures Good(s, t, EventOf(s, t, Go), OwnerStep(s, t).value)
  {
    hide TableOk, LockInd, LocksFor, Contents, Unique, Inv;
    var s' := OwnerStep(s, t).value;
    InvOf(s, t);
    if s' == s.(misused := true) {
      MisuseIsGood(s, t);
    } else {
      QuietStep(s, t, s'.threads[t], EventOf(s, t, Go));
    }
  }

  lemma OwnerStepIsGood(s: State, t: nat)
    requires Inv(s) && t < |s.threads| && s.threads[t].pc.Whole? && OwnerStep(s, t).Some?
    ensures Good(s, t, EventOf(s, t, Go), OwnerStep(s, t).value)
  {
    hide Inv, Good, OwnerStep;
    match s.threads[t].pc.owner
    case Acquiring(_, _) => AcquireAllStep(s, t);
    case Owning(_, _) => OwnStep(s, t);
    case GivingBack(_, _, _, _) => GiveBackAllStep(s, t);
  }

  /** Any step of any thread keeps the invariant and is, on the represented map, a step of the atomic map. */
  lemma StepRefines(s: State, t: nat, c: Choice)
    requires Inv(s) && t < |s.threads| && Step(s, t, c).Some?
    ensures Inv(Step(s, t, c).value)
    ensures SpecStep(Abs(s), Label(t, EventOf(s, t, c)), Abs(Step(s, t, c).value))
  {
    hide Inv, TableOk, LockingStep, ExpansionStep, OnAdd, SpecStep, Abs;
    match s.threads[t].pc
    case Idle => IdleStep(s, t, c);
    case Ready(_, _) => IdleStep(s, t, c);
    case Done(_, _) => IdleStep(s, t, c);
    case Locking(_, _, _, _, _, _) => LockingStepIsGood(s, t);
    case Adding(_, _, _, _, _) => AddingStep(s, t, c);
    case Searching(_, _, _) => SearchingStep(s, t, c);
    case Moving(_, _, _, _, _) => SearchingStep(s, t, c);
    case TableFull(_, _, _) => FullStep(s, t, c);
    case WaitExpansion(_, _) => FullStep(s, t, c);
    case Releasing(_, _) => ReleasingStep(s, t, c);
    case Whole(_) => OwnerStepIsGood(s, t);
    case _ => ExpanderStep(s, t, c);
  }

  // ----- Whole runs -----

  lemma {:induction false} RunKeepsInv(run: seq<State>, i: nat)
    requires IsRun(run) && i < |run|
    ensures Inv(run[i])
  {
    hide Inv, Step, Abs, SpecStep, Init;
    if i == 0 {
      InitInv(run[0]);
    } else {
      RunKeepsInv(run, i - 1);
      assert Next(run[i - 1], run[i - 1 + 1]);
      var turn :| StepsBy(run[i - 1], turn, run[i]);
      StepRefines(run[i - 1], turn.thread, turn.choice);
    }
  }

  /** Thread e is migrating and holds lock l, and no other thread does. */
  ghost predicate OnlyMigratorHolds(s: State, e: nat, l: nat)
  {
    && e < |s.threads| && s.threads[e].pc.Migrating? && l in s.threads[e].held
    && forall u :: 0 <= u < |s.threads| && u != e ==> l !in s.threads[u].held
  }

  /** In every state of every run each key is in at most one slot, next to its own partial. Its bucket is a
    * candidate for the current hash power; the one exception is a bucket still to be migrated, where it is a
    * candidate for the previous hash power and whose lock the migrating thread still holds as a writer. */
  lemma EveryReachableTableIsPlaced(run: seq<State>, i: nat)
    requires IsRun(run) && i < |run|
    ensures var s := run[i];
      && Unique(s.table)
      && forall b, r :: Occupied(s.table, b, r) ==>
        && s.table[b][r].partial == PartialKey(s.table[b][r].key.hash)
        && (b !in s.pending ==> Cand(s.hp, s.table[b][r].key, b))
        && (b in s.pending ==>
             && s.hp > 0 && Cand(s.hp - 1, s.table[b][r].key, b)
             && exists e: nat :: OnlyMigratorHolds(s, e, LockInd(b)))
  {
    RunKeepsInv(run, i);
    var s := run[i];
    HashPowerPositive(s);
    forall b, r | Occupied(s.table, b, r) && b in s.pending
      ensures exists e: nat :: OnlyMigratorHolds(s, e, LockInd(b))
    {
      var e: nat :| HoldsPending(s, e);
      InvOf(s, e);
      assert !Reader(s.threads[e]);
      assert OnlyMigratorHolds(s, e, LockInd(b));
    }
  }

  ghost function AbsRun(run: seq<State>): (specs: seq<Spec>)
    requires forall i :: 0 <= i < |run| ==> Unique(run[i].table)
  {
    seq(|run|, i requires 0 <= i < |run| => Abs(run[i]))
  }

  lemma RunTablesUnique(run: seq<State>)
    requires IsRun(run)
    ensures forall i :: 0 <= i < |run| ==> Unique(run[i].table)
  {
    hide Inv, Unique, Init;
    forall i | 0 <= i < |run|
      ensures Unique(run[i].table)
    {
      RunKeepsInv(run, i);
      HashPowerPositive(run[i]);
    }
  }

  /** What the turns of a run show, thread by thread. */
  ghost function LabelsOf(run: seq<State>, turns: seq<Turn>): (labels: seq<Label>)
    requires IsRunBy(run, turns)
  {
    seq(|turns|, i requires 0 <= i < |turns| =>
          assert StepsBy(run[i], turns[i], run[i + 1]);
          Label(turns[i].thread, EventOf(run[i], turns[i].thread, turns[i].choice)))
  }

  /** Every run of the shared table, seen through the map it represents, is a run of the atomic map that shows the
    * same calls and returns: each call takes effect in exactly one step between its invocation and its return, as
    * the operation that was invoked, with the result it returns. */
  lemma EveryRunIsAtomic(run: seq<State>, turns: seq<Turn>)
    requires IsRunBy(run, turns)
    ensures forall i :: 0 <= i < |run| ==> Unique(run[i].table)
    ensures IsSpecRun(AbsRun(run), LabelsOf(run, turns))
  {
    RunOfTurns(run, turns);
    RunTablesUnique(run);
    hide Inv, Step, SpecStep, Unique, Contents, TableOk, EventOf;
    var labels := LabelsOf(run, turns);
    forall i | 0 <= i < |labels|
      ensures SpecStep(AbsRun(run)[i], labels[i], AbsRun(run)[i + 1])
    {
      RunKeepsInv(run, i);
      assert StepsBy(run[i], turns[i], run[i + 1]);
      StepRefines(run[i], turns[i].thread, turns[i].choice);
    }
  }

  lemma RunOfTurns(run: seq<State>, turns: seq<Turn>)
    requires IsRunBy(run, turns)
    ensures IsRun(run)
  {
    hide Step, Init;
    forall i | 0 <= i < |turns|
      ensures Next(run[i], run[i + 1])
    {
      assert StepsBy(run[i], turns[i], run[i + 1]);
    }
  }

  /** Every run is made by some turns. */
  lemma {:induction false} TurnsOfRun(run: seq<State>) returns (turns: seq<Turn>)
    requires IsRun(run)
    ensures IsRunBy(run, turns)
  {
    hide Step, Init;
    turns := [];
    if |run| > 1 {
      var n := |run| - 1;
      assert forall i :: 0 <= i < n - 1 ==> Next(run[..n][i], run[..n][i + 1]) by {
        forall i | 0 <= i < n - 1
          ensures Next(run[..n][i], run[..n][i + 1])
        {
          assert Next(run[i], run[i + 1]);
        }
      }
      turns := TurnsOfRun(run[..n]);
      assert Next(run[n - 1], run[n - 1 + 1]);
      var turn :| StepsBy(run[n - 1], turn, run[n]);
      forall i | 0 <= i < n - 1
        ensures StepsBy(run[i], turns[i], run[i + 1])
      {
        assert StepsBy(run[..n][i], turns[i], run[..n][i + 1]);
      }
      turns := turns + [turn];
    }
  }

  /** A thread that holds both locks of a key, at a hash power it found current, sees the key in one of the two
    * buckets exactly when the map contains it, even in the middle of a doubling. */
  lemma LookupUnderLocksIsExact(run: seq<State>, i: nat, t: nat)
    requires IsRun(run) && i < |run| && t < |run[i].threads|
    requires var pc := run[i].threads[t].pc;
      pc.Locking? && pc.checked && pc.goal.Look? && pc.n == |PlanOf(pc.hp, pc.op, pc.goal)|
    ensures var s := run[i];
      var k := s.threads[t].pc.op.key;
      && s.threads[t].pc.hp == s.hp && |s.table| == HashSize(s.hp) && Unique(s.table)
      && (k in Contents(s.table) <==>
           SlotOf(s.table[First(s.hp, k)], k) >= 0 || SlotOf(s.table[Second(s.hp, k)], k) >= 0)
  {
    hide Inv, TableOk, PlanOf, LockInd, SlotOf, Contents, First, Second, HashSize;
    RunKeepsInv(run, i);
    var s := run[i];
    HashPowerPositive(s);
    InvOf(s, t);
    LookGuards(s, t);
    KeyBucketsSettled(s, t, s.threads[t].pc.op.key);
    LookupMidDoubling(s.table, s.hp, s.slots, s.pending, s.threads[t].pc.op.key);
  }
}
