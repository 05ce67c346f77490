/** A run in which the owner of the whole table unlocks a lock that it never took: an insertion allocates locks for
  * a larger table, while it waits to take them all, between the owner's taking and giving back of all locks. */
module ProtocolOverrun {
  import opened Hashing
  import opened Tables
  import opened TableSteps
  import opened Locks
  import opened LazyArrays
  import opened Protocol

  ghost predicate Reachable(s: State)
  {
    exists run :: IsRun(run) && run[|run| - 1] == s
  }

  lemma Start(s: State)
    requires Init(s)
    ensures Reachable(s)
  {
    hide Init;
    assert IsRun([s]);
    assert [s][|[s]| - 1] == s;
  }

  lemma Take(s: State, t: nat, c: Choice) returns (s': State)
    requires Reachable(s) && !s.misused && t < |s.threads| && Step(s, t, c).Some?
    ensures s' == Step(s, t, c).value && Reachable(s')
  {
    hide Step, Init;
    s' := Step(s, t, c).value;
    var run :| IsRun(run) && run[|run| - 1] == s;
    var longer := run + [s'];
    forall i | 0 <= i < |longer| - 1
      ensures Next(longer[i], longer[i + 1])
    {
      if i < |run| - 1 {
        assert Next(run[i], run[i + 1]);
        assert longer[i] == run[i] && longer[i + 1] == run[i + 1];
      } else {
        assert longer[i] == s && longer[i + 1] == s' && StepsBy(s, Turn(t, c), s');
      }
    }
    assert IsRun(longer);
    assert longer[|longer| - 1] == s';
  }

  // ----- A full table of two buckets with one slot each -----

  /** The i-th of several keys whose hash is 0. */
  function Twin(i: int): Key { Key(i, 0) }

  function FullTable(): Table
  {
    [[Full(0, Twin(1), 1)], [Full(0, Twin(2), 2)]]
  }

  const NewKey := Twin(3)

  function Adder(): Op { Insert(NewKey, 3) }

  /** With two buckets both are candidates of every key whose hash is 0. */
  lemma BothAreCandidates(i: int)
    ensures PartialKey(0) == 0 && HashSize(1) == 2
    ensures {First(1, Twin(i)), Second(1, Twin(i))} == {0, 1}
  {
    hide AltIndex, IndexHash, PartialKey;
    PartialOfSmallHash(0);
    assert HashSize(1) == 2;
    CandidatesCoincide(1, 0, First(1, Twin(i)));
  }

  lemma FullTableIsOk()
    ensures TableOk(FullTable(), 1, 1, {})
  {
    hide First, Second, PartialKey;
    BothAreCandidates(1);
    BothAreCandidates(2);
    forall b, s | Occupied(FullTable(), b, s)
      ensures s == 0 && (b == 0 || b == 1)
    {
    }
  }

  lemma NothingToFindOrFill()
    ensures First(1, NewKey) < 2 && Second(1, NewKey) < 2
    ensures OnLook(FullTable(), 1, Adder(), true) == Outcome(FullTable(), Searching(Adder(), true, 1))
  {
    hide First, Second;
    BothAreCandidates(3);
  }

  lemma AdderPlan()
    ensures PlanOf(1, Adder(), Look) == [0, 1]
    ensures LocksFor(1) == 2 && LocksFor(2) == 4
  {
    BothAreCandidates(3);
    SmallLocks();
    hide First, Second, LockInd, LocksFor, HashSize, PartialKey;
  }

  lemma SmallLocks()
    ensures LockInd(0) == 0 && LockInd(1) == 1
    ensures LocksFor(1) == 2 && LocksFor(2) == 4
  {
    assert HashSize(1) == 2 && HashSize(2) == 4;
  }

  ghost function At(numLocks: nat, adder: Thread, owner: Thread, misused: bool): State
  {
    State(1, 1, FullTable(), {}, numLocks, [adder, owner], misused)
  }

  const Quiet := Thread(Idle, {})

  lemma OneByOne()
    ensures var none: set<nat> := {}; none + {0} == {0}
    ensures var l0: set<nat>, l1: set<nat> := {0}, {1};
      l0 + l1 == {0, 1} && {0, 1} - l0 == l1 && l1 - l1 == {}
  {
  }

  lemma StartsReachable()
    ensures Reachable(At(2, Quiet, Quiet, false))
  {
    FullTableIsOk();
    AdderPlan();
    Start(At(2, Quiet, Quiet, false));
  }

  // ----- The insertion finds the table full and gets as far as the expansion lock -----

  lemma AdderLocksBoth()
    ensures Reachable(At(2, Thread(Locking(Adder(), true, 1, Look, 2, true), {0, 1}), Quiet, false))
  {
    hide TableOk, PlanOf, LocksFor, Reachable, OnLook;
    OneByOne();
    StartsReachable();
    AdderPlan();
    var s := Take(At(2, Quiet, Quiet, false), 0, Invoke(Adder()));
    assert s == At(2, Thread(Ready(Adder(), true), {}), Quiet, false);
    s := Take(s, 0, Go);
    assert s == At(2, Thread(Locking(Adder(), true, 1, Look, 0, false), {}), Quiet, false);
    s := Take(s, 0, Go);
    assert s == At(2, Thread(Locking(Adder(), true, 1, Look, 1, false), {0}), Quiet, false);
    s := Take(s, 0, Go);
    assert s == At(2, Thread(Locking(Adder(), true, 1, Look, 1, true), {0}), Quiet, false);
    s := Take(s, 0, Go);
    assert s == At(2, Thread(Locking(Adder(), true, 1, Look, 2, true), {0, 1}), Quiet, false);
  }

  lemma AdderSearches()
    ensures Reachable(At(2, Thread(Searching(Adder(), true, 1), {}), Quiet, false))
  {
    hide TableOk, PlanOf, LocksFor, Reachable, OnLook, First, Second;
    OneByOne();
    AdderLocksBoth();
    AdderPlan();
    NothingToFindOrFill();
    var s := Take(At(2, Thread(Locking(Adder(), true, 1, Look, 2, true), {0, 1}), Quiet, false), 0, Go);
    assert s == At(2, Thread(Releasing(Adder(), Searching(Adder(), true, 1)), {0, 1}), Quiet, false);
    s := Take(s, 0, Unlock(0));
    assert s == At(2, Thread(Releasing(Adder(), Searching(Adder(), true, 1)), {1}), Quiet, false);
    s := Take(s, 0, Unlock(1));
    assert s == At(2, Thread(Releasing(Adder(), Searching(Adder(), true, 1)), {}), Quiet, false);
    s := Take(s, 0, Go);
    assert s == At(2, Thread(Searching(Adder(), true, 1), {}), Quiet, false);
  }

  lemma AdderWaits()
    ensures Reachable(At(2, Thread(ExpansionCheck(Adder(), 1), {}), Quiet, false))
  {
    hide TableOk, PlanOf, LocksFor, Reachable, OnLook, First, Second;
    AdderSearches();
    var s := Take(At(2, Thread(Searching(Adder(), true, 1), {}), Quiet, false), 0, GiveUp);
    assert s == At(2, Thread(TableFull(Adder(), true, 1), {}), Quiet, false);
    s := Take(s, 0, Go);
    assert s == At(2, Thread(WaitExpansion(Adder(), 1), {}), Quiet, false);
    s := Take(s, 0, Go);
    assert s == At(2, Thread(ExpansionCheck(Adder(), 1), {}), Quiet, false);
  }

  // ----- The other thread takes both locks; then the insertion allocates two more -----

  function ListingOf(n: nat): PC
  {
    Whole(GivingBack(List, Listed(map[Twin(1) := 1, Twin(2) := 2]), 2, n))
  }

  lemma OwnerTakesBoth()
    ensures Reachable(At(2, Thread(ExpansionCheck(Adder(), 1), {}), Thread(Whole(Owning(List, 2)), {0, 1}), false))
  {
    hide TableOk, PlanOf, LocksFor, Reachable, OnLook, First, Second;
    OneByOne();
    AdderWaits();
    var adder := Thread(ExpansionCheck(Adder(), 1), {});
    var s := Take(At(2, adder, Quiet, false), 1, InvokeWhole(List));
    assert s == At(2, adder, Thread(Whole(Acquiring(List, 0)), {}), false);
    s := Take(s, 1, Go);
    assert s == At(2, adder, Thread(Whole(Acquiring(List, 1)), {0}), false);
    s := Take(s, 1, Go);
    assert s == At(2, adder, Thread(Whole(Acquiring(List, 2)), {0, 1}), false);
    s := Take(s, 1, Go);
    assert s == At(2, adder, Thread(Whole(Owning(List, 2)), {0, 1}), false);
  }

  lemma FullTableLists()
    ensures Unique(FullTable()) && Contents(FullTable()) == map[Twin(1) := 1, Twin(2) := 2]
  {
    FullTableIsOk();
    var t := FullTable();
    assert Occupied(t, 0, 0) && Occupied(t, 1, 0);
    SameContents(t, map[Twin(1) := 1, Twin(2) := 2]);
  }

  lemma MoreLocksWhileOwned()
    ensures Reachable(At(4, Thread(LockingAll(Adder(), 1, 0), {}), Thread(ListingOf(0), {0, 1}), false))
  {
    hide TableOk, PlanOf, LocksFor, Reachable, OnLook, First, Second, Unique, Contents;
    OwnerTakesBoth();
    FullTableLists();
    AdderPlan();
    var adder := Thread(ExpansionCheck(Adder(), 1), {});
    var s := Take(At(2, adder, Thread(Whole(Owning(List, 2)), {0, 1}), false), 1, Go);
    assert s == At(2, adder, Thread(ListingOf(0), {0, 1}), false);
    s := Take(s, 0, Allocate(4));
    assert s == At(4, Thread(LockingAll(Adder(), 1, 0), {}), Thread(ListingOf(0), {0, 1}), false);
  }

  /** The owner took locks 0 and 1, which were all there were, and goes on to unlock lock 2. At the granularity at
    * which every lock is allocated by itself, 4 is exactly what the doubling asks for. */
  lemma OverrunIsReachable()
    ensures AllocatedAfter(1, 2, LocksFor(2)) == 4
    ensures Reachable(At(4, Thread(LockingAll(Adder(), 1, 0), {}), Thread(ListingOf(2), {}), true))
  {
    hide TableOk, PlanOf, LocksFor, Reachable, OnLook, First, Second, Unique, Contents;
    OneByOne();
    MoreLocksWhileOwned();
    AdderPlan();
    var adder := Thread(LockingAll(Adder(), 1, 0), {});
    var s := Take(At(4, adder, Thread(ListingOf(0), {0, 1}), false), 1, Go);
    assert s == At(4, adder, Thread(ListingOf(1), {1}), false);
    s := Take(s, 1, Go);
    assert s == At(4, adder, Thread(ListingOf(2), {}), false);
    s := Take(s, 1, Go);
    assert s == At(4, adder, Thread(ListingOf(2), {}), true);
  }
}
