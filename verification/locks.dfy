/** The striped locks: which lock guards a bucket, and the order in which locks are taken. */
module Locks {
  import opened Bits
  import opened Hashing

  const NUM_LOCKS := 0x1_0000

  function LockInd(bucket: nat): (l: nat)
    ensures l < NUM_LOCKS && l == bucket % NUM_LOCKS
  {
    WordIsPow2();
    MaskIsMod(bucket, 16);
    And(bucket, NUM_LOCKS - 1)
  }

  /** How many locks guard a table of this hash power. */
  function LocksFor(hp: nat): (n: nat)
    ensures 0 < n <= NUM_LOCKS
  {
    if HashSize(hp) < NUM_LOCKS then HashSize(hp) else NUM_LOCKS
  }

  lemma LockIndInRange(hp: nat, b: nat)
    requires b < HashSize(hp)
    ensures LockInd(b) < LocksFor(hp)
  {
    if HashSize(hp) < NUM_LOCKS {
      ModUnique(b, NUM_LOCKS, 0, b);
    }
  }

  lemma LocksForGrows(hp: nat)
    ensures LocksFor(hp) <= LocksFor(hp + 1)
  {
  }

  lemma LocksForMonotone(hp: nat, other: nat)
    ensures hp <= other ==> LocksFor(hp) <= LocksFor(other)
  {
    if hp <= other {
      Pow2Monotone(hp, other);
    }
  }

  /** The upper half of a bucket shares its lock once there are 2^16 buckets, and before that is guarded by
    * one of the locks that the smaller table did not use. */
  lemma UpperHalfLock(hp: nat, b: nat)
    requires b < HashSize(hp)
    ensures hp >= 16 ==> LockInd(b + HashSize(hp)) == LockInd(b)
    ensures hp < 16 ==> LocksFor(hp) <= LockInd(b + HashSize(hp)) < LocksFor(hp + 1)
  {
    if hp >= 16 {
      UpperHalfShares(hp, b);
    } else {
      UpperHalfIsNew(hp, b);
    }
  }

  lemma UpperHalfShares(hp: nat, b: nat)
    requires b < HashSize(hp) && hp >= 16
    ensures LockInd(b + HashSize(hp)) == LockInd(b)
  {
    Pow2Multiple(hp);
    hide Pow2, And;
    var q :| HashSize(hp) == NUM_LOCKS * q;
    ModUnique(b + HashSize(hp), NUM_LOCKS, b / NUM_LOCKS + q, b % NUM_LOCKS);
  }

  lemma UpperHalfIsNew(hp: nat, b: nat)
    requires b < HashSize(hp) && hp < 16
    ensures LocksFor(hp) <= LockInd(b + HashSize(hp)) < LocksFor(hp + 1)
  {
    WordIsPow2();
    assert HashSize(hp + 1) == 2 * HashSize(hp);
    Pow2Monotone(hp + 1, 16);
    hide Pow2, And;
    ModUnique(b + HashSize(hp), NUM_LOCKS, 0, b + HashSize(hp));
  }

  lemma {:induction false} Pow2Multiple(hp: nat)
    requires hp >= 16
    ensures exists q: nat :: Pow2(hp) == NUM_LOCKS * q
    decreases hp
  {
    WordIsPow2();
    if hp == 16 {
      assert Pow2(hp) == NUM_LOCKS * 1;
    } else {
      Pow2Multiple(hp - 1);
      var q :| Pow2(hp - 1) == NUM_LOCKS * q;
      assert Pow2(hp) == NUM_LOCKS * (2 * q);
    }
  }

  predicate Ascending(plan: seq<nat>)
  {
    forall i, j :: 0 <= i < j < |plan| ==> plan[i] < plan[j]
  }

  ghost function Elements(plan: seq<nat>): (ls: set<nat>)
    ensures forall l :: l in ls <==> l in plan
  {
    set l | l in plan
  }

  lemma PrefixGrows(plan: seq<nat>, n: nat)
    requires n < |plan|
    ensures Elements(plan[..n + 1]) == Elements(plan[..n]) + {plan[n]}
  {
    assert plan[..n + 1] == plan[..n] + [plan[n]];
  }

  /** One, two or three lock indices in the order they are taken, each once. */
  function Plan2(l1: nat, l2: nat): (plan: seq<nat>)
    ensures Ascending(plan) && plan != [] && Elements(plan) == {l1, l2}
  {
    if l1 == l2 then [l1] else if l1 < l2 then [l1, l2] else [l2, l1]
  }

  function Plan3(l1: nat, l2: nat, l3: nat): (plan: seq<nat>)
    ensures Ascending(plan) && plan != [] && Elements(plan) == {l1, l2, l3}
  {
    var two := Plan2(l1, l2);
    if l3 in two then two
    else if l3 < two[0] then [l3] + two
    else if l3 > two[|two| - 1] then two + [l3]
    else [two[0], l3, two[1]]
  }
}
