/** What a call does when nobody interferes: it comes to its end, with its effect, by its own steps alone. */
module ProtocolSolo {
  import opened Options
  import opened Hashing
  import opened Tables
  import opened TableSteps
  import opened Migration
  import opened Doubling
  import opened Locks
  import opened Bfs
  import opened SearchOrder
  import opened CuckooPaths
  import opened Protocol
  import opened AtomicMap
  import opened ProtocolSafety
  import opened ProtocolActions
  import opened ProtocolRefinement
  import opened ProtocolRelease
  import opened ProtocolThrows

  // ----- Runs of one thread -----

  ghost predicate SoloStep(s: State, t: nat, s': State)
  {
    exists c :: StepsBy(s, Turn(t, c), s')
  }

  ghost predicate IsSolo(run: seq<State>, t: nat, s: State, s': State)
  {
    && run != [] && run[0] == s && run[|run| - 1] == s'
    && forall i :: 0 <= i < |run| - 1 ==> SoloStep(run[i], t, run[i + 1])
  }

  /** Thread t gets from s to s' while nobody else takes a step. */
  ghost predicate LeadsTo(s: State, t: nat, s': State)
  {
    exists run :: IsSolo(run, t, s, s')
  }

  lemma LeadsToItself(s: State, t: nat)
    ensures LeadsTo(s, t, s)
  {
    assert IsSolo([s], t, s, s);
  }

  lemma OneStepOn(s: State, t: nat, mid: State, c: Choice, s': State)
    requires LeadsTo(s, t, mid) && StepsBy(mid, Turn(t, c), s')
    ensures LeadsTo(s, t, s')
  {
    hide StepsBy;
    var run :| IsSolo(run, t, s, mid);
    assert SoloStep(mid, t, s');
    assert IsSolo(run + [s'], t, s, s');
  }

  /** Thread t is inside this operation, which has yet to take effect on the map m, and the others hold no lock. */
  ghost predicate Working(s: State, t: nat, op: Op, m: map<Key, Value>)
  {
    && Inv(s) && !s.misused && t < |s.threads|
    && (forall u :: 0 <= u < |s.threads| && u != t ==> s.threads[u].held == {})
    && Unique(s.table) && Contents(s.table) == m
    && Inside(s, t, op) && ClientOf(s.threads[t].pc).Called?
  }

  /** The call has taken effect: thread t is about to return res. */
  ghost predicate Finished(s: State, t: nat, op: Op, m: map<Key, Value>, res: Reply)
  {
    && t < |s.threads| && Unique(s.table)
    && ClientOf(s.threads[t].pc) == Returning(op, res) && Effect(m, op, res, Contents(s.table))
  }

  lemma InternalStep(m: map<Key, Value>, c: Client, m': map<Key, Value>, c': Client)
    requires ClientStep(m, c, Internal, m', c') && c.Called?
    ensures c'.Called? ==> c'.op == c.op && m' == m
    ensures c'.Returning? && c'.res != Threw ==> c'.op == c.op && Effect(m, c.op, c'.res, m')
  {
    hide Effect;
  }

  /** One step of thread t's own, by what it does to its client. */
  lemma Advance(s0: State, s: State, t: nat, op: Op, m: map<Key, Value>, c: Choice) returns (s': State)
    requires LeadsTo(s0, t, s) && Working(s, t, op, m) && Step(s, t, c).Some?
    requires !s.threads[t].pc.Idle? && !s.threads[t].pc.Done?
    ensures s' == Step(s, t, c).value && LeadsTo(s0, t, s') && t < |s'.threads|
    ensures ClientOf(s'.threads[t].pc).Called? ==> Working(s', t, op, m)
    ensures var c' := ClientOf(s'.threads[t].pc);
      c'.Returning? && c'.res != Threw ==> Finished(s', t, op, m, c'.res)
  {
    hide Inv, Step, Contents, Unique, Effect, ClientStep, LeadsTo;
    s' := Step(s, t, c).value;
    OneStepOn(s0, t, s, c, s');
    InvOf(s, t);
    hide ThreadOk, TableOk, Exclusion;
    StepFrame(s, t, c);
    KeyedNeverMisuses(s, t, c);
    StepRefines(s, t, c);
    HashPowerPositive(s');
    InternalStep(Contents(s.table), ClientOf(s.threads[t].pc), Contents(s'.table), ClientOf(s'.threads[t].pc));
    if ClientOf(s'.threads[t].pc).Called? {
      CalledIsInside(s', t);
    }
  }

  lemma CalledIsInside(s: State, t: nat)
    requires t < |s.threads| && Inv(s) && ClientOf(s.threads[t].pc).Called?
    ensures Keyed(s.threads[t].pc) && ClientOf(s.threads[t].pc).op == s.threads[t].pc.op
  {
  }

  // ----- Taking the locks of a goal and giving them back -----

  lemma PlanState(s: State, t: nat, op: Op, m: map<Key, Value>)
    requires Working(s, t, op, m) && s.threads[t].pc.Locking?
    ensures t < |s.threads|
    ensures var pc := s.threads[t].pc;
      var plan := PlanOf(pc.hp, pc.op, pc.goal);
      && pc.op == op && pc.n <= |plan| && s.threads[t].held == Elements(plan[..pc.n])
      && (pc.checked ==> pc.n > 0)
      && (pc.n == |plan| ==> s.threads[t].held == Elements(plan))
    ensures forall l :: Available(s, t, l)
  {
    InvOf(s, t);
    hide PlanOf, Inv, TableOk, Elements;
    var pc := s.threads[t].pc;
    var plan := PlanOf(pc.hp, pc.op, pc.goal);
    if pc.n == |plan| {
      assert plan[..pc.n] == plan;
    }
  }

  lemma {:induction false} TakePlan(s0: State, s: State, t: nat, op: Op, m: map<Key, Value>) returns (s': State)
    requires LeadsTo(s0, t, s) && Working(s, t, op, m) && s.threads[t].pc.Locking?
    requires var pc := s.threads[t].pc; pc.hp == s.hp && (pc.n == 0 || pc.checked)
    ensures LeadsTo(s0, t, s') && Working(s', t, op, m)
    ensures var pc := s.threads[t].pc;
      var plan := PlanOf(pc.hp, pc.op, pc.goal);
      s' == SetThread(s, t, Thread(Locking(op, pc.ins, pc.hp, pc.goal, |plan|, true), Elements(plan)))
    decreases var pc := s.threads[t].pc; |PlanOf(pc.hp, pc.op, pc.goal)| - pc.n
  {
    hide LeadsTo, Working, PlanOf, Act, Elements;
    PlanState(s, t, op, m);
    var pc := s.threads[t].pc;
    var plan := PlanOf(pc.hp, pc.op, pc.goal);
    if pc.n == |plan| {
      s' := s;
    } else {
      s' := Advance(s0, s, t, op, m, Go);
      if pc.n == 0 {
        s' := Advance(s0, s', t, op, m, Go);
      }
      s' := TakePlan(s0, s', t, op, m);
    }
  }

  lemma {:induction false} GiveAllBack(s0: State, s: State, t: nat, op: Op, m: map<Key, Value>) returns (s': State)
    requires LeadsTo(s0, t, s) && Working(s, t, op, m) && s.threads[t].pc.Releasing?
    ensures LeadsTo(s0, t, s') && Working(s', t, op, m)
    ensures s' == SetThread(s, t, Thread(s.threads[t].pc.next, {}))
    decreases s.threads[t].held
  {
    hide LeadsTo;
    ReleasingNext(s, t, op, m);
    hide Working;
    var th := s.threads[t];
    if l :| l in th.held {
      s' := Advance(s0, s, t, op, m, Unlock(l));
      s' := GiveAllBack(s0, s', t, op, m);
    } else {
      s' := Advance(s0, s, t, op, m, Go);
    }
  }

  lemma ReleasingNext(s: State, t: nat, op: Op, m: map<Key, Value>)
    requires Working(s, t, op, m) && s.threads[t].pc.Releasing?
    ensures t < |s.threads| && s.threads[t].pc.op == op && ClientOf(s.threads[t].pc.next).Called?
    ensures ClientOf(s.threads[t].pc).Called?
  {
    InvOf(s, t);
  }

  // ----- Kicks along a live path -----

  /** The state in which thread t's last kick or claim has cleared the start of the path for it. */
  ghost predicate ReadyToAdd(s: State, t: nat, path: seq<Record>)
  {
    && t < |s.threads| && s.threads[t].pc.Adding? && s.threads[t].pc.hp == s.hp
    && path != [] && s.threads[t].pc.bucket == path[0].bucket && s.threads[t].pc.slot == path[0].slot
  }

  ghost predicate MovingAlong(s: State, t: nat, path: seq<Record>, d: nat)
  {
    && t < |s.threads| && d < |path|
    && s.threads[t].pc.Moving? && s.threads[t].pc.hp == s.hp && s.threads[t].pc.path == path
    && s.threads[t].pc.d == d && LivePath(s.table, path[..d + 1])
  }

  lemma LiveKick(s: State, g: Start, path: seq<Record>, d: nat)
    requires Inv(s) && g.hp == s.hp && g.slots == s.slots && PathOk(g, path) && 0 < d < |path|
    requires LivePath(s.table, path[..d + 1])
    ensures ShiftValid(s.table, path, d)
    ensures LivePath(Move(s.table, path[d - 1].bucket, path[d - 1].slot, path[d].bucket, path[d].slot), path[..d])
  {
    HashPowerPositive(s);
    hide Inv, LivePath, AltIndex, PartialKey, HashSize, Move;
    TableShape(s);
    LiveMoves(s.table, path, d);
  }

  lemma TableShape(s: State)
    requires Inv(s)
    ensures Shape(s.table, s.hp, s.slots)
  {
  }

  /** Thread t is about to act: it holds the locks of its goal at the current hash power. */
  ghost predicate AboutTo(s: State, t: nat, op: Op, goal: Goal)
  {
    && t < |s.threads| && s.threads[t].pc.Locking? && s.threads[t].pc.goal == goal && s.threads[t].pc.op == op
    && s.threads[t].pc.hp == s.hp && s.threads[t].pc.n == |PlanOf(s.hp, op, goal)| && s.threads[t].pc.checked
  }

  lemma TakeLocks(s0: State, s: State, t: nat, op: Op, m: map<Key, Value>, ins: bool, goal: Goal)
      returns (s': State)
    requires LeadsTo(s0, t, s) && Working(s, t, op, m) && (s.threads[t].pc.Moving? || s.threads[t].pc.Ready?)
    requires Step(s, t, Go) == Some(SetThread(s, t, Thread(Locking(op, ins, s.hp, goal, 0, false), {})))
    ensures LeadsTo(s0, t, s') && Working(s', t, op, m) && AboutTo(s', t, op, goal)
    ensures s' == SetThread(s, t, s'.threads[t]) && s'.threads[t].pc.ins == ins
  {
    hide LeadsTo, Step;
    s' := Advance(s0, s, t, op, m, Go);
    hide Working, PlanOf;
    s' := TakePlan(s0, s', t, op, m);
  }

  lemma KickOnce(s0: State, s: State, t: nat, op: Op, m: map<Key, Value>, path: seq<Record>, d: nat)
      returns (s': State)
    requires LeadsTo(s0, t, s) && Working(s, t, op, m) && MovingAlong(s, t, path, d) && d > 0
    ensures LeadsTo(s0, t, s') && Working(s', t, op, m)
    ensures if d == 1 then ReadyToAdd(s', t, path) else MovingAlong(s', t, path, d - 1)
  {
    hide LeadsTo, Inv, ThreadOk, LivePath, PathOk, Unique, Contents, LockingStep, ShiftValid, Move, PlanOf, TableOk,
      ExpansionStep, OwnerStep, OnAdd, First, Second;
    MovingState(s, t, op, m);
    hide Working;
    s' := TakeLocks(s0, s, t, op, m, s.threads[t].pc.ins, Shift(path, d));
    WorkingInv(s', t, op, m);
    LiveKick(s', StartOf(s, s.hp, op), path, d);
    KickAct(s', t, op, path, d);
    s' := Advance(s0, s', t, op, m, Go);
    if d > 1 {
      s' := GiveAllBack(s0, s', t, op, m);
    }
  }

  lemma WorkingInv(s: State, t: nat, op: Op, m: map<Key, Value>)
    requires Working(s, t, op, m)
    ensures Inv(s)
  {
  }

  lemma MovingState(s: State, t: nat, op: Op, m: map<Key, Value>)
    requires Working(s, t, op, m) && s.threads[t].pc.Moving?
    ensures t < |s.threads| && s.threads[t].pc.op == op && s.threads[t].held == {} && IsInserter(op)
    ensures PathOk(StartOf(s, s.threads[t].pc.hp, op), s.threads[t].pc.path)
  {
    InvOf(s, t);
  }

  lemma KickAct(s: State, t: nat, op: Op, path: seq<Record>, d: nat)
    requires 0 < d < |path| && AboutTo(s, t, op, Shift(path, d)) && ShiftValid(s.table, path, d)
    ensures Step(s, t, Go).Some?
    ensures var s', ins := Step(s, t, Go).value, s.threads[t].pc.ins;
      && s' == SetThread(s, t, s'.threads[t]).(table := s'.table)
      && s'.table == Move(s.table, path[d - 1].bucket, path[d - 1].slot, path[d].bucket, path[d].slot)
      && s'.threads[t].pc == if d == 1 then Adding(op, ins, s.hp, path[0].bucket, path[0].slot)
                             else Releasing(op, Moving(op, ins, s.hp, path, d - 1))
  {
    hide ShiftValid, Move, PlanOf, InsertLocks;
    PlanIsNonempty(s.hp, op, Shift(path, d));
  }

  lemma PlanIsNonempty(hp: nat, op: Op, goal: Goal)
    ensures |PlanOf(hp, op, goal)| > 0
  {
  }

  /** A path of one slot has nothing to kick: the slot is claimed. */
  lemma ClaimSlot(s0: State, s: State, t: nat, op: Op, m: map<Key, Value>, path: seq<Record>) returns (s': State)
    requires LeadsTo(s0, t, s) && Working(s, t, op, m) && MovingAlong(s, t, path, 0)
    ensures LeadsTo(s0, t, s') && Working(s', t, op, m) && ReadyToAdd(s', t, path)
  {
    hide LeadsTo, Inv, ThreadOk, PathOk, Unique, Contents, LockingStep, PlanOf, TableOk;
    MovingState(s, t, op, m);
    assert path[..1][0] == path[0];
    s' := TakeLocks(s0, s, t, op, m, s.threads[t].pc.ins, Claim(path));
    ClaimAct(s', t, op, path);
    s' := Advance(s0, s', t, op, m, Go);
  }

  lemma ClaimAct(s: State, t: nat, op: Op, path: seq<Record>)
    requires path != [] && AboutTo(s, t, op, Claim(path)) && !Occupied(s.table, path[0].bucket, path[0].slot)
    ensures Step(s, t, Go).Some?
    ensures var s' := Step(s, t, Go).value;
      && s' == SetThread(s, t, s'.threads[t])
      && s'.threads[t].pc == Adding(op, s.threads[t].pc.ins, s.hp, path[0].bucket, path[0].slot)
  {
    hide PlanOf;
    PlanIsNonempty(s.hp, op, Claim(path));
  }

  lemma {:induction false} KickAll(
      s0: State, s: State, t: nat, op: Op, m: map<Key, Value>, path: seq<Record>, d: nat) returns (s': State)
    requires LeadsTo(s0, t, s) && Working(s, t, op, m) && MovingAlong(s, t, path, d)
    ensures LeadsTo(s0, t, s') && Working(s', t, op, m) && ReadyToAdd(s', t, path)
    decreases d
  {
    hide LeadsTo, Working, MovingAlong, ReadyToAdd;
    if d == 0 {
      s' := ClaimSlot(s0, s, t, op, m, path);
    } else {
      s' := KickOnce(s0, s, t, op, m, path, d);
      if d > 1 {
        s' := KickAll(s0, s', t, op, m, path, d - 1);
      }
    }
  }

  /** The cleared slot takes the entry, because the key is not in the map. */
  lemma AddThere(s0: State, s: State, t: nat, op: Op, m: map<Key, Value>, path: seq<Record>) returns (s': State)
    requires LeadsTo(s0, t, s) && Working(s, t, op, m) && ReadyToAdd(s, t, path) && op.key !in m
    ensures LeadsTo(s0, t, s') && Finished(s', t, op, m, InsertedResult(op))
  {
    hide LeadsTo, Inv, Unique, Contents, TableOk, Effect, Put, LockingStep, First, Second;
    AddingState(s, t, op, m);
    NotLocated(s.table, s.hp, op.key);
    s' := Advance(s0, s, t, op, m, Go);
  }

  lemma AddingState(s: State, t: nat, op: Op, m: map<Key, Value>)
    requires Working(s, t, op, m) && s.threads[t].pc.Adding?
    ensures var pc := s.threads[t].pc;
      && pc.op == op && IsInserter(op) && pc.bucket < |s.table| && pc.slot < |s.table[pc.bucket]|
      && First(s.hp, op.key) < |s.table| && Second(s.hp, op.key) < |s.table|
  {
    InvOf(s, t);
    HashPowerPositive(s);
  }

  lemma NotLocated(t: Table, hp: nat, k: Key)
    requires Unique(t) && First(hp, k) < |t| && Second(hp, k) < |t|
    ensures k !in Contents(t) ==> Locate(t, First(hp, k), Second(hp, k), k).None?
  {
    hide First, Second, Locate;
  }

  // ----- Doubling the table alone -----

  /** Thread t is working as before, and nobody else is past the expansion lock. */
  ghost predicate Expanding(s: State, t: nat, op: Op, m: map<Key, Value>)
  {
    && Working(s, t, op, m)
    && forall u :: 0 <= u < |s.threads| && u != t ==> !InExpansion(s.threads[u].pc)
  }

  /** Thread t can take this step, and is then still inside its call. */
  ghost predicate StaysCalled(s: State, t: nat, c: Choice)
  {
    && t < |s.threads| && !s.threads[t].pc.Idle? && !s.threads[t].pc.Done? && Step(s, t, c).Some?
    && var s' := Step(s, t, c).value; t < |s'.threads| && ClientOf(s'.threads[t].pc).Called?
  }

  lemma AdvanceAlone(s0: State, s: State, t: nat, op: Op, m: map<Key, Value>, c: Choice) returns (s': State)
    requires LeadsTo(s0, t, s) && Expanding(s, t, op, m) && StaysCalled(s, t, c)
    ensures s' == Step(s, t, c).value && LeadsTo(s0, t, s') && Expanding(s', t, op, m)
  {
    hide Step, LeadsTo;
    s' := Advance(s0, s, t, op, m, c);
    InvOf(s, t);
    hide ThreadOk, TableOk, Exclusion, Inv;
    StepFrame(s, t, c);
  }

  lemma {:induction false} TakeAll(s0: State, s: State, t: nat, op: Op, m: map<Key, Value>) returns (s': State)
    requires LeadsTo(s0, t, s) && Expanding(s, t, op, m) && s.threads[t].pc.LockingAll?
    ensures LeadsTo(s0, t, s') && Expanding(s', t, op, m)
    ensures s' == SetThread(s, t, s'.threads[t])
    ensures s'.threads[t].pc == LockingAll(op, s.hp, s.numLocks)
    decreases if s.threads[t].pc.n < s.numLocks then s.numLocks - s.threads[t].pc.n else 0
  {
    hide LeadsTo, Unique, Contents;
    InvOf(s, t);
    hide Inv, TableOk, LocksFor, LockInd, Exclusion;
    var n := s.threads[t].pc.n;
    if n == s.numLocks {
      s' := s;
    } else {
      s' := AdvanceAlone(s0, s, t, op, m, Go);
      s' := TakeAll(s0, s', t, op, m);
    }
  }

  lemma MigratingState(s: State, t: nat, op: Op, m: map<Key, Value>)
    requires Expanding(s, t, op, m) && s.threads[t].pc.Migrating?
    ensures t < |s.threads| && s.threads[t].pc.op == op && s.hp == s.threads[t].pc.hp + 1
    ensures ClientOf(s.threads[t].pc).Called?
    ensures forall b :: b in s.pending ==> Doubled(s.table, s.threads[t].pc.hp, s.slots, b)
  {
    InvOf(s, t);
    hide LockInd, LocksFor, Unique, Contents, ThreadOk;
  }

  lemma {:induction false} MigrateAll(
      s0: State, s: State, t: nat, op: Op, m: map<Key, Value>, before: Table) returns (s': State)
    requires LeadsTo(s0, t, s) && Expanding(s, t, op, m) && s.threads[t].pc.Migrating?
    requires PartlyGrown(before, s.table, s.threads[t].pc.hp, s.slots, s.pending)
    ensures LeadsTo(s0, t, s') && Expanding(s', t, op, m)
    ensures s' == s.(table := s'.table, pending := {})
    ensures PartlyGrown(before, s'.table, s.threads[t].pc.hp, s.slots, {})
    decreases s.pending
  {
    MigratingState(s, t, op, m);
    hide LeadsTo, Expanding, PartlyGrown, Doubled, MigrateBucket;
    if b :| b in s.pending {
      var hp := s.threads[t].pc.hp;
      GrownNext(before, s.table, hp, s.slots, s.pending, b);
      s' := AdvanceAlone(s0, s, t, op, m, MigrateAt(b));
      s' := MigrateAll(s0, s', t, op, m, before);
    } else {
      s' := s;
    }
  }

  lemma {:induction false} UnlockMigrated(s0: State, s: State, t: nat, op: Op, m: map<Key, Value>)
      returns (s': State)
    requires LeadsTo(s0, t, s) && Expanding(s, t, op, m) && s.threads[t].pc.Migrating? && s.pending == {}
    ensures LeadsTo(s0, t, s') && Expanding(s', t, op, m)
    ensures s' == SetThread(s, t, Thread(s.threads[t].pc, {}))
    decreases s.threads[t].held
  {
    MigratingState(s, t, op, m);
    hide LeadsTo, Expanding, Doubled, LocksFor, LockInd;
    var th := s.threads[t];
    if l :| l in th.held && l < LocksFor(th.pc.hp) {
      s' := AdvanceAlone(s0, s, t, op, m, Unlock(l));
      s' := UnlockMigrated(s0, s', t, op, m);
    } else if l :| l in th.held {
      s' := AdvanceAlone(s0, s, t, op, m, Unlock(l));
      s' := UnlockMigrated(s0, s', t, op, m);
    } else {
      s' := s;
      assert th == Thread(th.pc, {}) && s.threads[t := th] == s.threads;
    }
  }

  lemma FullState(s: State, t: nat, op: Op, m: map<Key, Value>)
    requires Working(s, t, op, m) && s.threads[t].pc.TableFull?
    ensures s.threads[t].held == {} && IsInserter(op) && s.threads[t].pc.op == op && s.hp > 0
    ensures s.numLocks <= NUM_LOCKS && Shape(s.table, s.hp, s.slots)
  {
    InvOf(s, t);
    LocksBounded(s);
    TableShape(s);
    HashPowerPositive(s);
  }

  lemma EnterExpansion(s0: State, s: State, t: nat, op: Op, m: map<Key, Value>) returns (s': State)
    requires LeadsTo(s0, t, s) && Expanding(s, t, op, m)
    requires s.threads[t].pc.TableFull? && s.threads[t].pc.hp == s.hp
    ensures LeadsTo(s0, t, s') && Expanding(s', t, op, m) && s'.threads[t] == Thread(LockingAll(op, s.hp, 0), {})
    ensures t < |s.threads| == |s'.threads|
    ensures s'.hp == s.hp && s'.slots == s.slots && s'.table == s.table && Shape(s.table, s.hp, s.slots)
  {
    FullState(s, t, op, m);
    hide LeadsTo, Inv, Unique, Contents, HashSize, LocksFor, Shape, Working, LockingStep, OwnerStep, OnAdd, PathOk,
      MayUnlock, MigrateBucket;
    s' := AdvanceAlone(s0, s, t, op, m, Go);
    s' := AdvanceAlone(s0, s', t, op, m, Go);
    s' := AdvanceAlone(s0, s', t, op, m, Allocate(NUM_LOCKS));
  }

  /** As far as the larger bucket array, none of whose pairs of buckets has been dealt with. */
  lemma StartGrowing(s0: State, s: State, t: nat, op: Op, m: map<Key, Value>) returns (s': State)
    requires LeadsTo(s0, t, s) && Expanding(s, t, op, m)
    requires s.threads[t].pc.TableFull? && s.threads[t].pc.hp == s.hp
    ensures LeadsTo(s0, t, s') && Expanding(s', t, op, m) && s'.threads[t].pc == Migrating(op, s.hp)
    ensures s'.hp == s.hp + 1 && s'.slots == s.slots && Shape(s.table, s.hp, s.slots)
    ensures PartlyGrown(s.table, s'.table, s.hp, s.slots, s'.pending)
  {
    hide LeadsTo, Inv, Unique, Contents, PartlyGrown, HashSize, LocksFor, Shape, Working, LockingStep, OwnerStep, OnAdd,
      MayUnlock, MigrateBucket;
    s' := EnterExpansion(s0, s, t, op, m);
    hide Expanding;
    s' := TakeAll(s0, s', t, op, m);
    GrownAtStart(s.table, s.hp, s.slots);
    s' := AdvanceAlone(s0, s', t, op, m, Go);
  }

  /** An insertion that gives up on a full table doubles it: whatever the order in which the buckets are dealt with,
    * the table it starts over on is the doubled one. */
  lemma GrowAlone(s0: State, s: State, t: nat, op: Op, m: map<Key, Value>) returns (s': State)
    requires LeadsTo(s0, t, s) && Expanding(s, t, op, m)
    requires s.threads[t].pc.TableFull? && s.threads[t].pc.hp == s.hp
    ensures LeadsTo(s0, t, s') && Expanding(s', t, op, m) && s'.threads[t] == Thread(Ready(op, true), {})
    ensures s'.hp == s.hp + 1 && s'.slots == s.slots
    ensures Shape(s.table, s.hp, s.slots) && s'.table == Grown(s.table, s.hp, s.slots)
  {
    hide LeadsTo, Expanding, PartlyGrown, Shape, Grown;
    s' := StartGrowing(s0, s, t, op, m);
    MigratingState(s', t, op, m);
    s' := MigrateAll(s0, s', t, op, m, s.table);
    GrownAtEnd(s.table, s'.table, s.hp, s.slots);
    s' := UnlockMigrated(s0, s', t, op, m);
    s' := AdvanceAlone(s0, s', t, op, m, Go);
  }

  // ----- Whole calls -----

  /** With no lock in anyone's hands no migration is under way. */
  lemma NothingUnderWay(s: State, t: nat, op: Op, m: map<Key, Value>)
    requires Working(s, t, op, m) && s.threads[t].held == {}
    ensures TableOk(s.table, s.hp, s.slots, {})
  {
    InvOf(s, t);
    hide LockInd, LocksFor, TableOk, ThreadOk, HashSize;
  }

  /** Unless there is no room for the key, some path frees a slot for it: every kick along it is possible. */
  lemma RoomHasPath(s: State, t: nat, op: Op, m: map<Key, Value>) returns (path: seq<Record>)
    requires Working(s, t, op, m) && s.threads[t].held == {}
    requires AtFull(s, op) && !NoRoomIn(s.table, s.hp, s.slots, op.key)
    ensures PathOk(StartOf(s, s.hp, op), path) && LivePath(s.table, path)
  {
    NothingUnderWay(s, t, op, m);
    hide Working, PathOk, LivePath, NothingFree, Unique, Contents;
    PlacedIfOk(s.table, s.hp, s.slots);
    path := FreeHasPath(s.table, StartOf(s, s.hp, op));
  }

  lemma PlacedIfOk(t: Table, hp: nat, slots: nat)
    requires TableOk(t, hp, slots, {})
    ensures Placed(t, hp)
  {
  }

  lemma LookAct(s: State, t: nat, op: Op, m: map<Key, Value>)
    requires Working(s, t, op, m) && AboutTo(s, t, op, Look)
    ensures First(s.hp, op.key) < |s.table| && Second(s.hp, op.key) < |s.table|
    ensures Step(s, t, Go).Some?
    ensures var s', o := Step(s, t, Go).value, OnLook(s.table, s.hp, op, s.threads[t].pc.ins);
      && s' == SetThread(s, t, s'.threads[t]).(table := o.table)
      && s'.threads[t].pc == Releasing(op, o.next)
      && GoodOutcome(s.table, s.hp, s.slots, s.pending, op, o)
  {
    hide Unique, Contents, PlanOf, OnLook, TableOk, LockInd, LocksFor, GoodOutcome, Settled;
    HashPowerPositive(s);
    hide Inv, First, Second, HashSize;
    LookGuards(s, t);
    KeyBucketsSettled(s, t, op.key);
    InvOf(s, t);
    LookOutcome(s.table, s.hp, s.slots, s.pending, op, s.threads[t].pc.ins);
    PlanIsNonempty(s.hp, op, Look);
  }

  /** Only an upsert that finds the key it has lost a race for goes round again. */
  lemma NoRetry(t: Table, hp: nat, op: Op, ins: bool)
    requires Unique(t) && First(hp, op.key) < |t| && Second(hp, op.key) < |t|
    requires ins == op.Insert? || op.key !in Contents(t)
    ensures !OnLook(t, hp, op, ins).next.Ready?
  {
    hide First, Second, SlotOf, EmptySlot, Put, Locate, FreeSlot, Contents, Unique;
    NotLocated(t, hp, op.key);
  }

  /** Nobody else holds a lock, the expansion lock included. */
  ghost predicate Undisturbed(s: State, t: nat)
  {
    forall u :: 0 <= u < |s.threads| && u != t ==> s.threads[u].held == {} && !InExpansion(s.threads[u].pc)
  }

  /** Thread t holds both buckets of its key and is about to look into them. */
  ghost predicate Looks(s: State, t: nat, op: Op, m: map<Key, Value>)
  {
    Expanding(s, t, op, m) && AboutTo(s, t, op, Look) && (s.threads[t].pc.ins == op.Insert? || op.key !in m)
  }

  /** Thread t is an insertion that has found both buckets full and is about to search for a path. */
  ghost predicate Searches(s: State, t: nat, op: Op)
  {
    && t < |s.threads| && s.threads[t].pc.Searching? && s.threads[t].pc.hp == s.hp
    && IsInserter(op) && AtFull(s, op)
  }

  ghost predicate SameTable(s: State, s': State)
  {
    s'.table == s.table && s'.hp == s.hp && s'.slots == s.slots
  }

  lemma LookFirst(s: State, t: nat, op: Op) returns (s': State)
    requires Inv(s) && !s.misused && t < |s.threads| && s.threads[t].pc.Idle? && Unique(s.table)
    requires Undisturbed(s, t)
    ensures LeadsTo(s, t, s') && Looks(s', t, op, Contents(s.table)) && SameTable(s, s')
  {
    hide Inv, Unique, Contents, LeadsTo, LockingStep, PlanOf;
    s' := Step(s, t, Invoke(op)).value;
    LeadsToItself(s, t);
    OneStepOn(s, t, s, Invoke(op), s');
    StepRefines(s, t, Invoke(op));
    s' := TakeLocks(s, s', t, op, Contents(s.table), op.Insert?, Look);
  }

  /** An insertion for which there is no room doubles the table and looks again. */
  lemma GrowAndLook(s0: State, s: State, t: nat, op: Op, m: map<Key, Value>) returns (s': State)
    requires LeadsTo(s0, t, s) && Expanding(s, t, op, m) && Searches(s, t, op) && op.key !in m
    ensures LeadsTo(s0, t, s') && Looks(s', t, op, m)
    ensures s'.hp == s.hp + 1 && s'.slots == s.slots
    ensures Shape(s.table, s.hp, s.slots) && s'.table == Grown(s.table, s.hp, s.slots)
  {
    hide LeadsTo, Working, AtFull, LockingStep, Grown, Shape, PlanOf;
    s' := AdvanceAlone(s0, s, t, op, m, GiveUp);
    hide Expanding;
    s' := GrowAlone(s0, s', t, op, m);
    s' := LookAgain(s0, s', t, op, m);
  }

  lemma LookAgain(s0: State, s: State, t: nat, op: Op, m: map<Key, Value>) returns (s': State)
    requires LeadsTo(s0, t, s) && Expanding(s, t, op, m) && s.threads[t] == Thread(Ready(op, true), {}) && op.key !in m
    ensures LeadsTo(s0, t, s') && Looks(s', t, op, m) && SameTable(s, s')
  {
    hide LeadsTo, Inv, Unique, Contents, LockingStep, PlanOf;
    s' := TakeLocks(s0, s, t, op, m, true, Look);
  }

  lemma InsertAlongPath(s0: State, s: State, t: nat, op: Op, m: map<Key, Value>) returns (s': State)
    requires LeadsTo(s0, t, s) && Working(s, t, op, m) && AtFull(s, op)
    requires !NoRoomIn(s.table, s.hp, s.slots, op.key)
    requires s.threads[t].pc.Searching? && s.threads[t].pc.hp == s.hp
    ensures LeadsTo(s0, t, s') && Finished(s', t, op, m, InsertedResult(op))
  {
    hide LeadsTo, Inv, Unique, Contents, PathOk, LivePath, LockingStep, OnAdd, NoRoomIn, BucketFull;
    SearchingHoldsNothing(s, t, op, m);
    var path := RoomHasPath(s, t, op, m);
    PathIsNonempty(s, op, path);
    s' := Advance(s0, s, t, op, m, FoundPath(path));
    assert path[..|path|] == path;
    hide Working;
    s' := KickAll(s0, s', t, op, m, path, |path| - 1);
    s' := AddThere(s0, s', t, op, m, path);
  }

  lemma SearchingHoldsNothing(s: State, t: nat, op: Op, m: map<Key, Value>)
    requires Working(s, t, op, m) && s.threads[t].pc.Searching?
    ensures s.threads[t].held == {}
  {
    InvOf(s, t);
  }

  lemma PathIsNonempty(s: State, op: Op, path: seq<Record>)
    requires PathOk(StartOf(s, s.hp, op), path)
    ensures path != []
  {
  }

  /** The table after n doublings. */
  ghost function GrownTimes(t: Table, hp: nat, slots: nat, n: nat): (t': Table)
    requires Shape(t, hp, slots)
    ensures Shape(t', hp + n, slots)
    decreases n
  {
    if n == 0 then t else GrownTimes(Grown(t, hp, slots), hp + 1, slots, n - 1)
  }

  /** There is room for the key, or there would be after n doublings. */
  ghost predicate RoomWithin(t: Table, hp: nat, slots: nat, key: Key, n: nat)
  {
    Shape(t, hp, slots) && !NoRoomIn(GrownTimes(t, hp, slots, n), hp + n, slots, key)
  }

  lemma RoomLater(t: Table, hp: nat, slots: nat, key: Key, n: nat)
    requires RoomWithin(t, hp, slots, key, n) && NoRoomIn(t, hp, slots, key)
    ensures n > 0 && RoomWithin(Grown(t, hp, slots), hp + 1, slots, key, n - 1)
  {
    hide NoRoomIn, Grown;
  }

  /** Having looked, the thread is done, or it is an insertion that has found both buckets full. */
  lemma AfterLook(s0: State, s: State, t: nat, op: Op, m: map<Key, Value>) returns (s': State, done: bool, res: Reply)
    requires LeadsTo(s0, t, s) && Looks(s, t, op, m)
    ensures LeadsTo(s0, t, s')
    ensures if done then Finished(s', t, op, m, res)
            else Expanding(s', t, op, m) && Searches(s', t, op) && SameTable(s, s') && op.key !in m
  {
    hide LeadsTo, Inv, Effect, OnLook, NoPlace, PlanOf, LockingStep, Unique, Contents, First, Second, TableOk, Settled;
    InvOf(s, t);
    hide ThreadOk, Exclusion;
    LookAct(s, t, op, m);
    var o := OnLook(s.table, s.hp, op, s.threads[t].pc.ins);
    NoRetry(s.table, s.hp, op, s.threads[t].pc.ins);
    OutcomeIsStep(s.table, s.hp, s.slots, s.pending, op, o, false);
    done, res := o.next.Done?, No;
    if done {
      hide Step;
      s' := Advance(s0, s, t, op, m, Go);
      res := o.next.res;
    } else {
      s' := AdvanceAlone(s0, s, t, op, m, Go);
      hide Working;
      s' := GiveAllBack(s0, s', t, op, m);
    }
  }

  lemma {:induction false} FinishFromLook(s0: State, s: State, t: nat, op: Op, m: map<Key, Value>, n: nat)
      returns (s': State, res: Reply)
    requires LeadsTo(s0, t, s) && Looks(s, t, op, m)
    requires IsInserter(op) && op.key !in m ==> RoomWithin(s.table, s.hp, s.slots, op.key, n)
    ensures LeadsTo(s0, t, s') && Finished(s', t, op, m, res)
    decreases n
  {
    hide LeadsTo, Looks, Expanding, AtFull, NoRoomIn, RoomWithin, Grown, Finished;
    var done: bool;
    s', done, res := AfterLook(s0, s, t, op, m);
    if !done {
      if NoRoomIn(s.table, s.hp, s.slots, op.key) {
        RoomLater(s.table, s.hp, s.slots, op.key, n);
        s' := GrowAndLook(s0, s', t, op, m);
        s', res := FinishFromLook(s0, s', t, op, m, n - 1);
      } else {
        ExpandingIsWorking(s', t, op, m);
        s' := InsertAlongPath(s0, s', t, op, m);
        res := InsertedResult(op);
      }
    }
  }

  lemma ExpandingIsWorking(s: State, t: nat, op: Op, m: map<Key, Value>)
    requires Expanding(s, t, op, m)
    ensures Working(s, t, op, m)
  {
  }

  /** A call that nobody disturbs comes to its end by its own steps, with its effect on the map and without throwing:
    * whatever the operation, as long as there is room for a new key, at once or after doubling the table some number
    * of times. This is so in every state of every run, wherever the other threads stand in their calls, as long as
    * none of them holds a lock. */
  lemma UndisturbedCall(run: seq<State>, i: nat, t: nat, op: Op, n: nat) returns (s': State, res: Reply)
    requires IsRun(run) && i < |run| && !run[i].misused && t < |run[i].threads| && run[i].threads[t].pc.Idle?
    requires Undisturbed(run[i], t) && Unique(run[i].table)
    requires IsInserter(op) && op.key !in Contents(run[i].table) ==>
      RoomWithin(run[i].table, run[i].hp, run[i].slots, op.key, n)
    ensures LeadsTo(run[i], t, s') && Finished(s', t, op, Contents(run[i].table), res)
  {
    RunKeepsInv(run, i);
    hide LeadsTo, Inv, Looks, NoRoomIn, IsRun, Finished, Contents, Unique, RoomWithin, Undisturbed;
    var s := LookFirst(run[i], t, op);
    s', res := FinishFromLook(run[i], s, t, op, Contents(run[i].table), n);
  }
}
