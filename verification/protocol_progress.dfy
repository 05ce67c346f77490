/** The shared table never deadlocks. */
module ProtocolProgress {
  import opened Hashing
  import opened Tables
  import opened TableSteps
  import opened Migration
  import opened Locks
  import opened CuckooPaths
  import opened Protocol
  import opened ProtocolSafety
  import opened ProtocolRefinement

  /** Thread t is inside an operation and can take a step. */
  ghost predicate CanStep(s: State, t: nat)
  {
    t < |s.threads| && s.threads[t].pc != Idle && exists c :: Step(s, t, c).Some?
  }

  /** Thread t is about to take lock l. */
  predicate WantsLock(s: State, t: nat, l: nat)
    requires t < |s.threads|
  {
    var pc := s.threads[t].pc;
    || (pc.Locking? && !(pc.n == 1 && !pc.checked) && pc.n < |PlanOf(pc.hp, pc.op, pc.goal)|
        && l == PlanOf(pc.hp, pc.op, pc.goal)[pc.n])
    || (pc.LockingAll? && pc.n < s.numLocks && l == pc.n)
    || (pc.Whole? && pc.owner.Acquiring? && pc.owner.n < s.numLocks && l == pc.owner.n)
  }

  predicate WantsSomeLock(s: State, t: nat)
    requires t < |s.threads|
  {
    var pc := s.threads[t].pc;
    || (pc.Locking? && !(pc.n == 1 && !pc.checked) && pc.n < |PlanOf(pc.hp, pc.op, pc.goal)|)
    || (pc.LockingAll? && pc.n < s.numLocks)
    || (pc.Whole? && pc.owner.Acquiring? && pc.owner.n < s.numLocks)
  }

  /** The lock that thread t is about to take. */
  function WantedLock(s: State, t: nat): (l: nat)
    requires t < |s.threads| && WantsSomeLock(s, t)
    ensures WantsLock(s, t, l)
  {
    var pc := s.threads[t].pc;
    if pc.Locking? then PlanOf(pc.hp, pc.op, pc.goal)[pc.n] else if pc.LockingAll? then pc.n else pc.owner.n
  }

  /** Locks are taken in ascending order: whatever a thread waits for lies above everything it holds. */
  lemma WaitsAboveHeld(s: State, t: nat, l: nat)
    requires Inv(s) && t < |s.threads| && WantsLock(s, t, l)
    ensures l < s.numLocks && forall k :: k in s.threads[t].held ==> k < l
  {
    InvOf(s, t);
    hide Inv, TableOk, LocksFor, PathOk;
    var pc := s.threads[t].pc;
    if pc.Locking? {
      PlanInRange(s, pc.hp, pc.op, pc.goal);
      hide PlanOf;
      AscendingAboveHeld(PlanOf(pc.hp, pc.op, pc.goal), pc.n);
    }
  }

  lemma AscendingAboveHeld(plan: seq<nat>, n: nat)
    requires Ascending(plan) && n < |plan|
    ensures forall k :: k in Elements(plan[..n]) ==> k < plan[n]
  {
    forall k | k in Elements(plan[..n])
      ensures k < plan[n]
    {
      var i :| 0 <= i < n && plan[..n][i] == k;
      assert plan[i] < plan[n];
    }
  }

  lemma AvailableCanStep(s: State, t: nat, l: nat)
    requires Inv(s) && t < |s.threads| && WantsLock(s, t, l) && Available(s, t, l)
    ensures CanStep(s, t)
  {
    hide Inv, TableOk, PlanOf;
    assert Step(s, t, Go).Some?;
  }

  /** Inside the migration something always remains to be done. */
  lemma MigratingCanStep(s: State, t: nat)
    requires Inv(s) && t < |s.threads| && s.threads[t].pc.Migrating?
    ensures CanStep(s, t)
  {
    InvOf(s, t);
    var th := s.threads[t];
    var hp := th.pc.hp;
    if s.pending != {} {
      var b :| b in s.pending;
      assert Doubled(s.table, hp, s.slots, b);
      hide Inv, TableOk, Doubled;
      assert Step(s, t, MigrateAt(b)).Some?;
    } else {
      hide Inv, TableOk, LocksFor, LockInd;
      if l :| l in th.held && l < LocksFor(hp) {
        assert MayUnlock(s, th.held, hp, l);
        assert Step(s, t, Unlock(l)).Some?;
      } else if l :| l in th.held {
        assert MayUnlock(s, th.held, hp, l);
        assert Step(s, t, Unlock(l)).Some?;
      } else {
        assert Step(s, t, Go).Some?;
      }
    }
  }

  lemma ReleasingCanStep(s: State, t: nat)
    requires t < |s.threads| && s.threads[t].pc.Releasing?
    ensures CanStep(s, t)
  {
    if l :| l in s.threads[t].held {
      assert Step(s, t, Unlock(l)).Some?;
    } else {
      assert Step(s, t, Go).Some?;
    }
  }

  lemma OwnerCanStep(s: State, t: nat)
    requires Inv(s) && t < |s.threads| && s.threads[t].pc.Whole? && !WantsSomeLock(s, t)
    ensures CanStep(s, t)
  {
    HashPowerPositive(s);
    hide Inv, TableOk, Unique, EmptyTable, Contents;
    assert Step(s, t, Go).Some?;
  }

  lemma LockedCanStep(s: State, t: nat)
    requires Inv(s) && t < |s.threads| && s.threads[t].pc.Locking? && !WantsSomeLock(s, t)
    ensures CanStep(s, t)
  {
    InvOf(s, t);
    HashPowerPositive(s);
    hide Inv, TableOk, PlanOf, OnLook, PathOk, First, Second;
    assert Step(s, t, Go).Some?;
  }

  lemma AddingCanStep(s: State, t: nat)
    requires Inv(s) && t < |s.threads| && s.threads[t].pc.Adding?
    ensures CanStep(s, t)
  {
    InvOf(s, t);
    HashPowerPositive(s);
    hide Inv, TableOk, OnAdd, First, Second;
    assert Step(s, t, Go).Some?;
  }

  lemma CheckingCanStep(s: State, t: nat)
    requires Inv(s) && t < |s.threads|
    requires s.threads[t].pc.ExpansionCheck? || (s.threads[t].pc.LockingAll? && !WantsSomeLock(s, t))
    ensures CanStep(s, t)
  {
    assert s.numLocks <= NUM_LOCKS;
    hide Inv, TableOk, EmptyTable, Below;
    var pc := s.threads[t].pc;
    if pc.ExpansionCheck? && s.hp == pc.hp {
      assert Step(s, t, Allocate(NUM_LOCKS)).Some?;
    } else {
      assert Step(s, t, Go).Some?;
    }
  }

  /** A thread inside an operation that waits neither for a bucket lock nor for the expansion lock can step. */
  lemma UnblockedCanStep(s: State, t: nat)
    requires Inv(s) && t < |s.threads| && s.threads[t].pc != Idle
    requires !WantsSomeLock(s, t) && !s.threads[t].pc.WaitExpansion?
    ensures CanStep(s, t)
  {
    hide Inv, CanStep, TableOk;
    match s.threads[t].pc
    case Locking(_, _, _, _, _, _) => LockedCanStep(s, t);
    case Adding(_, _, _, _, _) => AddingCanStep(s, t);
    case Releasing(_, _) => ReleasingCanStep(s, t);
    case Whole(_) => OwnerCanStep(s, t);
    case Migrating(_, _) => MigratingCanStep(s, t);
    case ExpansionCheck(_, _) => CheckingCanStep(s, t);
    case LockingAll(_, _, _) => CheckingCanStep(s, t);
    case _ => LocklessCanStep(s, t);
  }

  lemma LocklessCanStep(s: State, t: nat)
    requires t < |s.threads|
    requires var pc := s.threads[t].pc; pc.Ready? || pc.Searching? || pc.Moving? || pc.TableFull? || pc.Done?
    ensures CanStep(s, t)
  {
    if s.threads[t].pc.Searching? {
      assert Step(s, t, GiveUp).Some?;
    } else {
      assert Step(s, t, Go).Some?;
    }
  }

  /** A thread that cannot have lock l waits for a thread that holds it, which can step or waits higher up. */
  lemma {:induction false} WaitingForLock(s: State, t: nat, l: nat)
    requires Inv(s) && t < |s.threads| && WantsLock(s, t, l)
    ensures exists u: nat :: CanStep(s, u)
    decreases NUM_LOCKS - l
  {
    hide CanStep, Inv;
    LocksBounded(s);
    if Available(s, t, l) {
      AvailableCanStep(s, t, l);
    } else {
      var u :| 0 <= u < |s.threads| && l in s.threads[u].held;
      HolderIsBusy(s, u);
      if WantsSomeLock(s, u) {
        var k := WantedLock(s, u);
        WaitsAboveHeld(s, u, k);
        WaitingForLock(s, u, k);
      } else {
        UnblockedCanStep(s, u);
      }
    }
  }

  /** Nobody waits for the expansion lock, or idles, with a bucket lock in hand. */
  lemma HolderIsBusy(s: State, u: nat)
    requires Inv(s) && u < |s.threads| && s.threads[u].held != {}
    ensures s.threads[u].pc != Idle && !s.threads[u].pc.WaitExpansion?
  {
    InvOf(s, u);
  }

  /** In every reachable state in which some thread is inside an operation, some such thread can step. */
  lemma NoDeadlock(run: seq<State>, i: nat, t: nat)
    requires IsRun(run) && i < |run| && t < |run[i].threads| && run[i].threads[t].pc != Idle
    ensures exists u: nat :: CanStep(run[i], u)
    ensures !run[i].misused ==> exists s' :: Next(run[i], s')
  {
    BusyThreadStepsOn(run, i, t);
    hide IsRun, Step;
    var s := run[i];
    var u: nat :| CanStep(s, u);
    var c :| Step(s, u, c).Some?;
    assert !s.misused ==> StepsBy(s, Turn(u, c), Step(s, u, c).value) && Next(s, Step(s, u, c).value);
  }

  lemma BusyThreadStepsOn(run: seq<State>, i: nat, t: nat)
    requires IsRun(run) && i < |run| && t < |run[i].threads| && run[i].threads[t].pc != Idle
    ensures exists u: nat :: CanStep(run[i], u)
  {
    hide CanStep, Inv;
    RunKeepsInv(run, i);
    var s := run[i];
    if s.threads[t].pc.WaitExpansion? {
      if ExpansionFree(s) {
        FreeExpansionCanStep(s, t);
      } else {
        var u :| 0 <= u < |s.threads| && InExpansion(s.threads[u].pc);
        BusyThreadUnblocks(s, u);
      }
    } else {
      BusyThreadUnblocks(s, t);
    }
  }

  lemma FreeExpansionCanStep(s: State, t: nat)
    requires t < |s.threads| && s.threads[t].pc.WaitExpansion? && ExpansionFree(s)
    ensures CanStep(s, t)
  {
    assert Step(s, t, Go).Some?;
  }

  lemma BusyThreadUnblocks(s: State, t: nat)
    requires Inv(s) && t < |s.threads| && s.threads[t].pc != Idle && !s.threads[t].pc.WaitExpansion?
    ensures exists u: nat :: CanStep(s, u)
  {
    hide CanStep, Inv;
    if WantsSomeLock(s, t) {
      WaitingForLock(s, t, WantedLock(s, t));
    } else {
      UnblockedCanStep(s, t);
    }
  }
}
