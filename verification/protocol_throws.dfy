/** When an insertion into the shared table may throw. */
module ProtocolThrows {
  import opened Hashing
  import opened Tables
  import opened TableSteps
  import opened Locks
  import opened CuckooPaths
  import opened Bfs
  import opened Protocol
  import opened AtomicMap
  import opened ProtocolSafety
  import opened ProtocolActions
  import opened ProtocolRefinement
  import opened ProtocolRelease

  /** Thread t is inside this operation. */
  ghost predicate Inside(s: State, t: nat, op: Op)
  {
    t < |s.threads| && Keyed(s.threads[t].pc) && s.threads[t].pc.op == op
  }

  /** The key of the operation is not in the map, and every slot of both its buckets is occupied. */
  ghost predicate AtFull(s: State, op: Op)
  {
    Unique(s.table) && NoPlace(s.table, s.hp, s.slots, op.key)
  }

  /** At position k of the run the buckets were full, in the call in which thread t still is at position i. */
  ghost predicate FullSince(run: seq<State>, k: nat, i: nat, t: nat, op: Op)
  {
    && k <= i < |run| && AtFull(run[k], op)
    && forall m :: k <= m <= i ==> Inside(run[m], t, op)
  }

  /** Looking for the key is what finds the buckets full. */
  lemma LookFindsFull(s: State, t: nat)
    requires Inv(s) && t < |s.threads| && s.threads[t].pc.Locking? && s.threads[t].pc.goal.Look?
    requires var pc := s.threads[t].pc; pc.checked && pc.n == |PlanOf(pc.hp, pc.op, pc.goal)|
    requires Act(s, t).Some? && FoundFull(Act(s, t).value.threads[t].pc)
    ensures AtFull(s, s.threads[t].pc.op)
  {
    hide Inv, TableOk, LockInd, First, Second, PlanOf, GoodOutcome, OnLook, Settled, HashSize;
    var pc := s.threads[t].pc;
    HashPowerPositive(s);
    InvOf(s, t);
    LookGuards(s, t);
    KeyBucketsSettled(s, t, pc.op.key);
    LookOutcome(s.table, s.hp, s.slots, s.pending, pc.op, pc.ins);
    FullOutcome(s.table, s.hp, s.slots, s.pending, pc.op, OnLook(s.table, s.hp, pc.op, pc.ins));
  }

  lemma FullOutcome(t: Table, hp: nat, slots: nat, pending: set<nat>, op: Op, o: Outcome)
    requires GoodOutcome(t, hp, slots, pending, op, o) && FoundFull(o.next)
    ensures NoPlace(t, hp, slots, op.key)
  {
    hide TableOk, First, Second, Contents, Unique, BucketFull;
  }

  lemma LockingFindsFull(s: State, t: nat, op: Op)
    requires Inv(s) && t < |s.threads| && s.threads[t].pc.Locking? && LockingStep(s, t).Some?
    requires var s' := LockingStep(s, t).value; Inside(s', t, op) && FoundFull(s'.threads[t].pc)
    ensures Inside(s, t, op) && (FoundFull(s.threads[t].pc) || AtFull(s, op))
  {
    InvOf(s, t);
    hide Inv, AtFull, TableOk, LocksFor, LockInd, PlanOf, OnLook, PathOk, ShiftValid, Move, Available;
    var pc := s.threads[t].pc;
    if pc.goal.Look? && !(pc.n == 1 && !pc.checked) && pc.n >= |PlanOf(pc.hp, pc.op, pc.goal)| {
      LookFindsFull(s, t);
    }
  }

  lemma ExpansionFindsFull(s: State, t: nat, c: Choice, op: Op)
    requires t < |s.threads| && InExpansion(s.threads[t].pc) && ExpansionStep(s, t, c).Some?
    requires var s' := ExpansionStep(s, t, c).value; Inside(s', t, op) && FoundFull(s'.threads[t].pc)
    ensures Inside(s, t, op) && FoundFull(s.threads[t].pc)
  {
    hide LocksFor, LockInd, MayUnlock, Available, HashSize, EmptyTable;
  }

  /** A thread that has found its buckets full after a step had found them so before, or they are full now. */
  lemma FoundFullStep(s: State, t: nat, c: Choice, op: Op)
    requires Inv(s) && t < |s.threads| && Step(s, t, c).Some?
    requires var s' := Step(s, t, c).value; Inside(s', t, op) && FoundFull(s'.threads[t].pc)
    ensures Inside(s, t, op) && (FoundFull(s.threads[t].pc) || AtFull(s, op))
  {
    InvOf(s, t);
    hide Inv, AtFull, TableOk, LocksFor, LockInd, PlanOf, PathOk, OnAdd, LockingStep, ExpansionStep;
    if s.threads[t].pc.Locking? {
      LockingFindsFull(s, t, op);
    } else if InExpansion(s.threads[t].pc) {
      ExpansionFindsFull(s, t, c, op);
    }
  }

  lemma {:induction false} FullEarlier(run: seq<State>, i: nat, t: nat, op: Op) returns (k: nat)
    requires IsRun(run) && i < |run| && Inside(run[i], t, op) && FoundFull(run[i].threads[t].pc)
    ensures FullSince(run, k, i, t, op)
  {
    hide Inv, Step, AtFull, FoundFull;
    k := 0;
    if i > 0 {
      var u, c := RunStep(run, i);
      InvOf(run[i - 1], u);
      hide ThreadOk, TableOk, Exclusion;
      StepFrame(run[i - 1], u, c);
      if u == t {
        FoundFullStep(run[i - 1], t, c, op);
      }
      if FoundFull(run[i - 1].threads[t].pc) {
        k := FullEarlier(run, i - 1, t, op);
      } else {
        k := i - 1;
      }
    }
  }

  /** In every run, whenever an insertion is about to throw, there was a moment in that same call at which its key
    * was not in the map and every slot of both its buckets was occupied. */
  lemma ThrewOnlyIfFull(run: seq<State>, i: nat, t: nat, op: Op) returns (k: nat)
    requires IsRun(run) && i < |run| && t < |run[i].threads|
    requires ClientOf(run[i].threads[t].pc) == Returning(op, Threw)
    ensures FullSince(run, k, i, t, op)
  {
    RunKeepsInv(run, i);
    InvOf(run[i], t);
    hide Inv, TableOk, IsRun;
    k := FullEarlier(run, i, t, op);
  }
}
