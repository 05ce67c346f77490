/** The order in which the breadth-first search examines slots. It depends on the number of slots in a bucket alone,
  * not on the table, and so does the point at which the queue is full and the search gives up. */
module SearchOrder {
  import opened Bits
  import opened Hashing
  import opened Tables
  import opened PathCodes
  import opened Bfs

  /** The i-th slot tried; the cyclic order reaches all of them. */
  function NthSlot(slots: nat, start: nat, i: nat): (s: nat)
    requires slots > 0
    ensures s < slots
  {
    (start + i) % slots
  }

  lemma CyclicOrderCovers(slots: nat, start: nat, s: nat) returns (i: nat)
    requires start < slots && s < slots
    ensures i < slots && NthSlot(slots, start, i) == s
  {
    if s >= start {
      i := s - start;
      ModUnique(s, slots, 0, s);
    } else {
      i := s + slots - start;
      ModUnique(s + slots, slots, 1, s);
    }
  }

  /** The depth of the j-th node in breadth-first order, the two start buckets being the first two. */
  ghost function LevelOf(slots: nat, j: nat): (d: nat)
    requires slots > 0
  {
    if j < 2 then 0 else LevelOf(slots, ParentOf(slots, j)) + 1
  }

  /** The children of node k are nodes 2 + slots * k and up. */
  function ParentOf(slots: nat, j: nat): (k: nat)
    requires slots > 0 && j >= 2
    ensures k < j
  {
    QuotientAtMost(j - 2, slots);
    (j - 2) / slots
  }

  /** The path code of the j-th node: child i of a node is the one behind the i-th slot tried in its bucket. */
  ghost function CodeOf(slots: nat, j: nat): nat
    requires slots > 0
  {
    if j < 2 then j else ChildCode(slots, CodeOf(slots, ParentOf(slots, j)), (j - 2) % slots)
  }

  ghost function ChildCode(slots: nat, code: nat, i: nat): nat
    requires slots > 0
  {
    Extend(slots, code, TryOf(slots, code, i))
  }

  /** The slot tried as the i-th in the bucket that a path code leads to. */
  function TryOf(slots: nat, code: nat, i: nat): (s: nat)
    requires slots > 0
    ensures s < slots
  {
    NthSlot(slots, code % slots, i)
  }

  lemma NodeOfChild(slots: nat, j: nat, i: nat)
    requires i < slots
    ensures LevelOf(slots, 2 + slots * j + i) == LevelOf(slots, j) + 1
    ensures CodeOf(slots, 2 + slots * j + i) == ChildCode(slots, CodeOf(slots, j), i)
  {
    ModUnique(slots * j + i, slots, j, i);
  }

  // ----- Where the queue of 511 entries is full -----

  /** With four slots or more, the i-th slot tried at the j-th node is examined: the queue is neither full when the
    * node is taken off it nor when the slot is tried. */
  predicate Examined(slots: nat, j: nat, i: nat)
    requires slots > 0
  {
    i < slots && (slots - 1) * j < 509 && (slots - 1) * j + i < 510
  }

  /** The slot tried as the i-th at the j-th node is occupied. */
  ghost predicate TryFull(t: Table, g: Start, j: nat, i: nat)
    requires g.Valid()
  {
    Occupied(t, Walk(t, g, CodeOf(g.slots, j), LevelOf(g.slots, j)), TryOf(g.slots, CodeOf(g.slots, j), i))
  }

  /** Every slot that the search would ever examine is occupied. With up to three slots in a bucket the queue never
    * fills, and these are all the slots up to four kicks away. */
  ghost predicate NothingFree(t: Table, g: Start)
    requires g.Valid()
  {
    if g.slots <= 3 then ShallowerFull(t, g, MAX_BFS_PATH_LEN)
    else forall j: nat, i: nat :: Examined(g.slots, j, i) ==> TryFull(t, g, j, i)
  }

  /** An insertion of this key finds neither a free slot in its two buckets nor a path that frees one. */
  ghost predicate NoRoomIn(t: Table, hp: nat, slots: nat, key: Key)
  {
    var g := Start(hp, slots, First(hp, key), Second(hp, key));
    g.Valid() && BucketFull(t, slots, g.i1) && BucketFull(t, slots, g.i2) && NothingFree(t, g)
  }

  /** With four slots or more no node deeper than 3 is examined. */
  lemma ExaminedIsShallow(slots: nat, j: nat)
    requires slots >= 4 && (slots - 1) * j < 509
    ensures j < 170 && LevelOf(slots, j) <= 3
  {
    MulOrder(slots - 1, 3, j);
    LevelBound(slots, j, 42, 3);
  }

  lemma FewerParents(slots: nat, j: nat, n: nat)
    requires slots >= 4 && 2 <= j < 2 + 4 * n
    ensures ParentOf(slots, j) < n
  {
    var k := ParentOf(slots, j);
    assert j - 2 == slots * k + (j - 2) % slots;
    MulOrder(slots, 4, k);
  }

  lemma LevelBound(slots: nat, j: nat, n: nat, d: nat)
    requires slots >= 4 && j < 2 + 4 * n
    requires (n == 42 && d == 3) || (n == 10 && d == 2) || (n == 2 && d == 1)
    ensures LevelOf(slots, j) <= d
  {
    if j >= 2 {
      FewerParents(slots, j, n);
      if d > 1 {
        LevelBound(slots, ParentOf(slots, j), if d == 3 then 10 else 2, d - 1);
      } else {
        assert LevelOf(slots, ParentOf(slots, j)) == 0;
      }
    }
  }

  lemma {:induction false} CodeBound(slots: nat, j: nat)
    requires slots > 0
    ensures CodeOf(slots, j) < 2 * Pow(slots, LevelOf(slots, j))
  {
    if j < 2 {
      assert Pow(slots, 0) == 1;
    } else {
      var k := ParentOf(slots, j);
      CodeBound(slots, k);
      DigitBound(slots, CodeOf(slots, k), TryOf(slots, CodeOf(slots, k), (j - 2) % slots), LevelOf(slots, k));
    }
  }

  /** Every path code of every depth has its node. */
  lemma {:induction false} NodeWithCode(slots: nat, c: nat, e: nat) returns (j: nat)
    requires slots > 0 && c < 2 * Pow(slots, e)
    ensures LevelOf(slots, j) == e && CodeOf(slots, j) == c
    decreases e
  {
    if e == 0 {
      assert Pow(slots, 0) == 1;
      j := c;
    } else {
      hide Pow;
      PrefixBound(slots, c, e);
      var k := NodeWithCode(slots, c / slots, e - 1);
      var i := CyclicOrderCovers(slots, c / slots % slots, c % slots);
      NodeOfChild(slots, k, i);
      SplitExtends(slots, c);
      j := 2 + slots * k + i;
    }
  }

  // ----- What this means with four slots -----

  /** Every slot of every bucket at most three kicks away is occupied, with the possible exception of slot `free`
    * of the bucket that path code `last` leads to. */
  ghost predicate FullExcept(t: Table, g: Start, last: nat, free: nat)
    requires g.Valid()
  {
    && ShallowerFull(t, g, 3)
    && (forall c: nat :: c < 2 * Pow(g.slots, 3) && c != last ==> BucketFull(t, g.slots, Walk(t, g, c, 3)))
    && (forall s: nat :: s < g.slots && s != free ==> Occupied(t, Walk(t, g, last, 3), s))
  }

  /** With four slots the search examines two nodes, then 8, 32 and 128; the last of these is the node of this path
    * code, and the last slot it would examine there is this one. The queue fills just before it does. */
  const LAST_NODE := 78
  const UNSEEN_SLOT := 1

  ghost predicate FullButOne(t: Table, g: Start)
    requires g.Valid()
  {
    FullExcept(t, g, LAST_NODE, UNSEEN_SLOT)
  }

  lemma {:induction false} ShallowNode(j: nat, n: nat, d: nat)
    requires (n == 170 && d == 3) || (n == 42 && d == 2) || (n == 10 && d == 1) || (n == 2 && d == 0)
    ensures LevelOf(4, j) <= d ==> j < n
  {
    if j >= 2 && d > 0 {
      ShallowNode(ParentOf(4, j), if d == 3 then 42 else if d == 2 then 10 else 2, d - 1);
      assert j - 2 == 4 * ParentOf(4, j) + (j - 2) % 4;
    }
  }

  /** The node with this code is the last child of the node with the code's quotient. */
  lemma LastChild(j: nat, c: nat)
    requires j >= 2 && Turn(Digit(Rest(c)), 3) == Digit(c)
    ensures CodeOf(4, j) == c <==> CodeOf(4, ParentOf(4, j)) == Rest(c) && (j - 2) % 4 == 3
  {
    CodeStep(j);
    hide CodeOf, ChildCode, ParentOf, Digit, Rest, Turn;
    ChildDigits(CodeOf(4, ParentOf(4, j)), (j - 2) % 4);
    SameDigits(CodeOf(4, j), c);
    ThirdAfter(Digit(Rest(c)), (j - 2) % 4);
  }

  /** The last base-4 digit of a code, and the rest. */
  function Digit(c: nat): (d: nat)
    ensures d < 4
  {
    c % 4
  }

  function Rest(c: nat): nat { c / 4 }

  /** The slot tried as the i-th from slot p on. */
  function Turn(p: nat, i: nat): nat { (p + i) % 4 }

  lemma CodeStep(j: nat)
    requires j >= 2
    ensures CodeOf(4, j) == ChildCode(4, CodeOf(4, ParentOf(4, j)), (j - 2) % 4)
  {
  }

  /** A child code determines its parent and the position among its siblings. */
  lemma ChildDigits(code: nat, i: nat)
    requires i < 4
    ensures Rest(ChildCode(4, code, i)) == code && Digit(ChildCode(4, code, i)) == Turn(Digit(code), i)
  {
    ExtendSplits(4, code, TryOf(4, code, i));
  }

  lemma SameDigits(a: nat, b: nat)
    ensures a == b <==> Rest(a) == Rest(b) && Digit(a) == Digit(b)
  {
    assert a == 4 * (a / 4) + a % 4 && b == 4 * (b / 4) + b % 4;
  }

  lemma ThirdAfter(p: nat, i: nat)
    requires p < 4 && i < 4
    ensures Turn(p, i) == Turn(p, 3) <==> i == 3
  {
  }

  lemma Roots()
    ensures CodeOf(4, 0) == 0 && CodeOf(4, 1) == 1
  {
  }

  /** Path code 78 and the codes of the nodes above it. */
  lemma Ancestors()
    ensures Rest(78) == 19 && Rest(19) == 4 && Rest(4) == 1
    ensures Turn(Digit(19), 3) == Digit(78) && Turn(Digit(4), 3) == Digit(19) && Turn(Digit(1), 3) == Digit(4)
  {
  }

  lemma LastOfAll(j: nat, k: nat, l: nat, m: nat)
    requires m < 2 && l >= 2 && k >= 2 && j >= 2 && l == 4 * m + 2 + (l - 2) % 4
    requires k == 4 * l + 2 + (k - 2) % 4 && j == 4 * k + 2 + (j - 2) % 4
    ensures j == 169 <==> m == 1 && (j - 2) % 4 == (k - 2) % 4 == (l - 2) % 4 == 3
  {
  }

  /** Parent, grandparent and great-grandparent of a node of depth 3. */
  lemma Generations(j: nat) returns (k: nat, l: nat, m: nat)
    requires 42 <= j < 170
    ensures k == ParentOf(4, j) && 10 <= k < 42 && j == 4 * k + 2 + (j - 2) % 4
    ensures l == ParentOf(4, k) && 2 <= l < 10 && k == 4 * l + 2 + (k - 2) % 4
    ensures m == ParentOf(4, l) && m < 2 && l == 4 * m + 2 + (l - 2) % 4
  {
    k := (j - 2) / 4;
    l := (k - 2) / 4;
    m := (l - 2) / 4;
  }

  /** The last node of depth 3, and only it, has path code 78. */
  lemma LastNode(j: nat)
    requires 42 <= j < 170
    ensures CodeOf(4, j) == LAST_NODE <==> j == 169
  {
    Roots();
    Ancestors();
    hide CodeOf, ParentOf, Digit, Rest, Turn;
    var k, l, m := Generations(j);
    LastChild(j, 78);
    LastChild(k, 19);
    LastChild(l, 4);
    assert CodeOf(4, j) == 78 <==> m == 1 && (j - 2) % 4 == (k - 2) % 4 == (l - 2) % 4 == 3;
    LastOfAll(j, k, l, m);
  }

  /** All slots examined are occupied exactly if all within three kicks are, except for the one before which the
    * queue is full. */
  lemma FourSlots(t: Table, g: Start)
    requires g.Valid() && g.slots == 4
    ensures NothingFree(t, g) <==> FullButOne(t, g)
  {
    hide NothingFree, FullButOne;
    if FullButOne(t, g) {
      FourSlotsFull(t, g);
    }
    if NothingFree(t, g) {
      FourSlotsNothingFree(t, g);
    }
  }

  lemma FourSlotsFull(t: Table, g: Start)
    requires g.Valid() && g.slots == 4 && FullButOne(t, g)
    ensures NothingFree(t, g)
  {
    hide CodeOf, LevelOf, Walk, Pow;
    forall j: nat, i: nat | Examined(4, j, i)
      ensures TryFull(t, g, j, i)
    {
      ExaminedIsShallow(4, j);
      CodeBound(4, j);
      var e := LevelOf(4, j);
      if e <= 2 {
        assert BucketFull(t, 4, Walk(t, g, CodeOf(4, j), e));
      } else {
        LevelBoundConverse(j);
        LastNode(j);
        if j < 169 {
          assert BucketFull(t, 4, Walk(t, g, CodeOf(4, j), 3));
        } else {
          assert TryOf(4, 78, i) == (2 + i) % 4;
        }
      }
    }
  }

  lemma LevelBoundConverse(j: nat)
    ensures LevelOf(4, j) == 3 ==> j >= 42
  {
    if j < 42 {
      LevelBound(4, j, 10, 2);
    }
  }

  lemma FourSlotsNothingFree(t: Table, g: Start)
    requires g.Valid() && g.slots == 4 && NothingFree(t, g)
    ensures FullButOne(t, g)
  {
    hide CodeOf, LevelOf, Walk, Pow;
    forall c: nat, e: nat, s: nat |
      e <= 3 && c < 2 * Pow(4, e) && s < 4 && !(e == 3 && c == LAST_NODE && s == UNSEEN_SLOT)
      ensures Occupied(t, Walk(t, g, c, e), s)
    {
      SlotIsExamined(t, g, c, e, s);
    }
    LastNodeInRange();
  }

  lemma LastNodeInRange()
    ensures LAST_NODE < 2 * Pow(4, 3)
  {
  }

  lemma SlotIsExamined(t: Table, g: Start, c: nat, e: nat, s: nat)
    requires g.Valid() && g.slots == 4 && NothingFree(t, g)
    requires e <= 3 && c < 2 * Pow(4, e) && s < 4 && !(e == 3 && c == LAST_NODE && s == UNSEEN_SLOT)
    ensures Occupied(t, Walk(t, g, c, e), s)
  {
    var j := NodeWithCode(4, c, e);
    var i := CyclicOrderCovers(4, c % 4, s);
    ShallowNode(j, 170, 3);
    hide CodeOf, LevelOf, Walk, Pow, Occupied, NthSlot;
    SeenUnlessLast(j, i);
    assert Examined(4, j, i);
    assert TryFull(t, g, j, i);
  }

  /** The only slot within three kicks that goes unseen is the last one tried at the last node of depth 3. */
  lemma SeenUnlessLast(j: nat, i: nat)
    requires j < 170 && i < 4
    ensures Examined(4, j, i) <==> !(j == 169 && i == 3)
    ensures j == 169 ==>
      LevelOf(4, j) == 3 && CodeOf(4, j) == LAST_NODE && (TryOf(4, LAST_NODE, i) == UNSEEN_SLOT <==> i == 3)
  {
    hide CodeOf, LevelOf;
    if j == 169 {
      LevelOfLast();
      LastNode(j);
      assert TryOf(4, 78, i) == (2 + i) % 4;
    }
  }

  lemma LevelOfLast()
    ensures LevelOf(4, 169) == 3
  {
  }

  lemma FourSlotsNoRoom(t: Table, hp: nat, key: Key)
    ensures var g := Start(hp, 4, First(hp, key), Second(hp, key));
      g.Valid() && (NoRoomIn(t, hp, 4, key) <==> FullButOne(t, g))
  {
    var g := Start(hp, 4, First(hp, key), Second(hp, key));
    FourSlots(t, g);
    hide First, Second, NothingFree;
    assert Pow(4, 0) == 1;
    if FullButOne(t, g) {
      assert BucketFull(t, 4, Walk(t, g, 0, 0)) && BucketFull(t, 4, Walk(t, g, 1, 0));
    }
  }
}
