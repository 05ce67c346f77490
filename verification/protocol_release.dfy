/** What the owner of the whole table unlocks. It unlocks as many locks as are allocated when it does so, which is
  * what it took exactly if no doubling has allocated more in between. */
module ProtocolRelease {
  import opened Options
  import opened Tables
  import opened TableSteps
  import opened Locks
  import opened CuckooPaths
  import opened Protocol
  import opened ProtocolSafety
  import opened ProtocolRefinement

  /** Thread t owns the whole table with `got` locks, or is giving them back. */
  predicate Owns(s: State, t: nat, got: nat)
  {
    t < |s.threads| && s.threads[t].pc.Whole? && !s.threads[t].pc.owner.Acquiring? && s.threads[t].pc.owner.got == got
  }

  /** Thread t is about to unlock lock n, or to notice that every allocated lock has been dealt with. */
  predicate GivesBack(s: State, t: nat, got: nat, n: nat)
  {
    Owns(s, t, got) && s.threads[t].pc.owner.GivingBack? && s.threads[t].pc.owner.n == n
  }

  /** Thread t has given back everything it took, and more locks are allocated than that. */
  predicate Overruns(s: State, t: nat)
  {
    && t < |s.threads| && s.threads[t].pc.Whole? && s.threads[t].pc.owner.GivingBack?
    && s.threads[t].pc.owner.n == s.threads[t].pc.owner.got < s.numLocks
  }

  /** Thread t became the owner at position k of the run, by taking every lock allocated then, and still is at i. */
  ghost predicate OwnerSince(run: seq<State>, k: nat, i: nat, t: nat, got: nat)
  {
    && k < i < |run| && t < |run[k].threads|
    && run[k].threads[t].pc.Whole? && run[k].threads[t].pc.owner.Acquiring?
    && run[k].threads[t].pc.owner.n == got == run[k].numLocks && run[k].threads[t].held == Below(got)
    && forall m :: k < m <= i ==> Owns(run[m], t, got)
  }

  // ----- Steps -----

  /** The only step that misuses a lock is that of an owner which has given back all it took while more are
    * allocated. */
  lemma MisuseStep(s: State, t: nat, c: Choice)
    requires Inv(s) && !s.misused && t < |s.threads| && Step(s, t, c).Some?
    ensures Step(s, t, c).value.misused <==> Overruns(s, t)
  {
    InvOf(s, t);
    hide Inv, TableOk, LockInd, LocksFor, PlanOf, OnLook, OnAdd, LockingStep, Exclusion;
    if s.threads[t].pc.Whole? && s.threads[t].pc.owner.GivingBack? {
      var owner := s.threads[t].pc.owner;
      assert owner.n in s.threads[t].held <==> owner.n < owner.got;
    } else {
      KeyedNeverMisuses(s, t, c);
    }
  }

  lemma ActFrame(s: State, t: nat)
    requires t < |s.threads| && s.threads[t].pc.Locking? && Act(s, t).Some?
    ensures FramedKeyed(s, t, Act(s, t).value)
  {
    hide LockInd, LocksFor, PlanOf, OnLook, ShiftValid, Move, InsertLocks, Occupied;
  }

  lemma ExpansionFrame(s: State, t: nat, c: Choice)
    requires t < |s.threads| && InExpansion(s.threads[t].pc) && ExpansionStep(s, t, c).Some?
    ensures FramedKeyed(s, t, ExpansionStep(s, t, c).value)
  {
    hide LockInd, LocksFor, MayUnlock, Available;
  }

  /** What a step of thread t leaves alone. */
  ghost predicate Framed(s: State, t: nat, s': State)
  {
    && |s'.threads| == |s.threads| && s.numLocks <= s'.numLocks
    && forall u :: 0 <= u < |s.threads| && u != t ==> s'.threads[u] == s.threads[u]
  }

  /** What a step of thread t inside an operation on one key, or outside any, leaves alone. */
  ghost predicate FramedKeyed(s: State, t: nat, s': State)
    requires t < |s.threads|
  {
    && Framed(s, t, s') && s'.misused == s.misused
    && (s'.threads[t].pc.Whole? ==> s'.threads[t].pc.owner.Acquiring?)
  }

  lemma KeyedFrame(s: State, t: nat, c: Choice)
    requires t < |s.threads| && Step(s, t, c).Some? && !s.threads[t].pc.Whole?
    requires ThreadOk(s, s.threads[t])
    ensures FramedKeyed(s, t, Step(s, t, c).value)
  {
    hide TableOk, LockInd, LocksFor, PlanOf, OnAdd, Available, Act, ExpansionStep;
    if s.threads[t].pc.Locking? && Act(s, t).Some? {
      ActFrame(s, t);
    }
    if InExpansion(s.threads[t].pc) {
      ExpansionFrame(s, t, c);
    }
  }

  lemma KeyedNeverMisuses(s: State, t: nat, c: Choice)
    requires t < |s.threads| && Step(s, t, c).Some? && ThreadOk(s, s.threads[t])
    requires !(s.threads[t].pc.Whole? && s.threads[t].pc.owner.GivingBack?)
    ensures Step(s, t, c).value.misused == s.misused
  {
    hide TableOk, LockInd, LocksFor, PlanOf, Available, ThreadOk, LockingStep, ExpansionStep, OnAdd;
    if !s.threads[t].pc.Whole? {
      KeyedFrame(s, t, c);
    }
  }

  /** A step changes one thread and never unallocates a lock. */
  lemma StepFrame(s: State, t: nat, c: Choice)
    requires t < |s.threads| && Step(s, t, c).Some? && ThreadOk(s, s.threads[t])
    ensures Framed(s, t, Step(s, t, c).value)
  {
    hide TableOk, LockInd, LocksFor, PlanOf, Available, ThreadOk, LockingStep, ExpansionStep, OnAdd;
    if !s.threads[t].pc.Whole? {
      KeyedFrame(s, t, c);
    }
  }

  /** A thread that owns the table after a step owned it before, or has just taken the last lock there is. */
  lemma OwnsBefore(s: State, t: nat, c: Choice, u: nat, got: nat)
    requires Inv(s) && t < |s.threads| && Step(s, t, c).Some? && Owns(Step(s, t, c).value, u, got)
    ensures Owns(s, u, got) || JustTookAll(s, u, got)
  {
    InvOf(s, t);
    StepFrame(s, t, c);
    if !s.threads[t].pc.Whole? {
      KeyedFrame(s, t, c);
      hide Step, Inv, ThreadOk;
    } else {
      hide Inv, TableOk, LocksFor, LockInd, Exclusion, Unique, Contents, EmptyTable, Available;
    }
  }

  ghost predicate JustTookAll(s: State, t: nat, got: nat)
  {
    && t < |s.threads| && s.threads[t].pc.Whole? && s.threads[t].pc.owner.Acquiring?
    && s.threads[t].pc.owner.n == got == s.numLocks && s.threads[t].held == Below(got)
  }

  // ----- Runs -----

  lemma RunStep(run: seq<State>, i: nat) returns (t: nat, c: Choice)
    requires IsRun(run) && 0 < i < |run|
    ensures t < |run[i - 1].threads| && Step(run[i - 1], t, c) == Some(run[i])
    ensures !run[i - 1].misused && Inv(run[i - 1])
  {
    hide Inv, Step;
    RunKeepsInv(run, i - 1);
    assert Next(run[i - 1], run[i - 1 + 1]);
    var turn :| StepsBy(run[i - 1], turn, run[i]);
    t, c := turn.thread, turn.choice;
  }

  /** Every owner took, at some earlier point of the run, all the locks that were allocated at that point. */
  lemma {:induction false} OwnerTookAll(run: seq<State>, i: nat, t: nat, got: nat) returns (k: nat)
    requires IsRun(run) && i < |run| && Owns(run[i], t, got)
    ensures OwnerSince(run, k, i, t, got)
  {
    hide Inv, Step, Init;
    k := 0;
    if i == 0 {
      NobodyOwnsAtStart(run[0]);
    } else {
      var u, c := RunStep(run, i);
      OwnsBefore(run[i - 1], u, c, t, got);
      if Owns(run[i - 1], t, got) {
        k := OwnerTookAll(run, i - 1, t, got);
      } else {
        k := i - 1;
      }
    }
  }

  lemma NobodyOwnsAtStart(s: State)
    requires Init(s)
    ensures forall t: nat, got: nat :: !Owns(s, t, got)
    ensures !s.misused
  {
  }

  /** An owner that has given back everything it took goes on to unlock a lock it does not hold exactly if more
    * locks have been allocated since it took them all. Otherwise it is done, and what it released is what it took. */
  lemma MisusedExactlyIfGrown(run: seq<State>, i: nat, t: nat, got: nat) returns (k: nat)
    requires IsRun(run) && i < |run| && !run[i].misused && GivesBack(run[i], t, got, got)
    ensures OwnerSince(run, k, i, t, got) && run[i].threads[t].held == {}
    ensures Step(run[i], t, Go).Some?
    ensures Step(run[i], t, Go).value.misused <==> run[k].numLocks < run[i].numLocks
    ensures run[k].numLocks == run[i].numLocks ==> Step(run[i], t, Go).value.threads[t] == Thread(Idle, {})
  {
    hide Inv, TableOk, LockInd, LocksFor;
    RunKeepsInv(run, i);
    InvOf(run[i], t);
    k := OwnerTookAll(run, i, t, got);
    assert run[i].threads[t].held == {};
  }

  /** Misuse is never in the past of a run, and at its end only as that last step. */
  lemma MisusedOnlyAtEnd(run: seq<State>, i: nat) returns (t: nat)
    requires IsRun(run) && i < |run| && run[i].misused
    ensures i == |run| - 1 && i > 0 && Overruns(run[i - 1], t)
  {
    hide Inv, Step, Init, Overruns;
    t := 0;
    NobodyOwnsAtStart(run[0]);
    if i < |run| - 1 {
      var u, c := RunStep(run, i + 1);
    } else if i > 0 {
      var u, c := RunStep(run, i);
      MisuseStep(run[i - 1], u, c);
      t := u;
    }
  }

  ghost predicate AllAllocated(s: State)
  {
    s.numLocks == NUM_LOCKS && forall t: nat, got: nat :: Owns(s, t, got) ==> got == NUM_LOCKS
  }

  lemma {:induction false} StaysAllAllocated(run: seq<State>, i: nat)
    requires IsRun(run) && i < |run| && run[0].numLocks == NUM_LOCKS
    ensures AllAllocated(run[i])
  {
    hide Inv, Step, Owns, Init;
    if i == 0 {
      NobodyOwnsAtStart(run[0]);
    } else {
      StaysAllAllocated(run, i - 1);
      var u, c := RunStep(run, i);
      InvOf(run[i - 1], u);
      hide ThreadOk, TableOk, Exclusion;
      StepFrame(run[i - 1], u, c);
      RunKeepsInv(run, i);
      LocksBounded(run[i]);
      forall t: nat, got: nat | Owns(run[i], t, got)
        ensures got == NUM_LOCKS
      {
        OwnsBefore(run[i - 1], u, c, t, got);
      }
    }
  }

  lemma NothingToOverrun(s: State, t: nat)
    requires AllAllocated(s)
    ensures !Overruns(s, t)
  {
    if t < |s.threads| && s.threads[t].pc.Whole? && s.threads[t].pc.owner.GivingBack? {
      var got := s.threads[t].pc.owner.got;
      assert Owns(s, t, got);
    }
  }

  /** With all locks allocated from the start, as at granularity 0 where one segment holds them all, no run ever
    * misuses a lock. */
  lemma AllAllocatedNeverMisuses(run: seq<State>, i: nat)
    requires IsRun(run) && i < |run| && run[0].numLocks == NUM_LOCKS
    ensures !run[i].misused
  {
    hide Owns, Overruns, AllAllocated, IsRun;
    if run[i].misused {
      var t := MisusedOnlyAtEnd(run, i);
      StaysAllAllocated(run, i - 1);
      NothingToOverrun(run[i - 1], t);
    }
  }
}
