/** The breadth-first search for an empty slot, run while other threads change the table. */
module SlotSearches {
  import opened Bits
  import opened Hashing
  import opened Tables
  import opened SearchQueue
  import opened PathCodes
  import opened Bfs
  import opened SearchOrder

  /** What one short lock acquisition shows of the table. */
  datatype Snapshot = Snapshot(hp: nat, table: Table)

  /** Nothing changes while the search runs. */
  ghost predicate Unchanging(g: Start, env: nat -> Snapshot, t: Table)
  {
    forall i: nat :: env(i) == Snapshot(g.hp, t)
  }

  lemma OneUnchangingTable(g: Start, env: nat -> Snapshot)
    ensures forall t :: Unchanging(g, env, t) ==> t == env(0).table
  {
    forall t | Unchanging(g, env, t)
      ensures t == env(0).table
    {
      assert env(0) == Snapshot(g.hp, t);
    }
  }

  // ----- Why the search ends: the weight of the queue -----

  /** One more than everything that expanding a node of this depth can ever put on the queue. */
  ghost function Weight(slots: nat, depth: int): nat
    decreases MAX_BFS_PATH_LEN - depth
  {
    if depth >= MAX_BFS_PATH_LEN - 1 then 1 else 1 + slots * Weight(slots, depth + 1)
  }

  ghost function TotalWeight(slots: nat, q: seq<BSlot>): nat
  {
    if q == [] then 0 else TotalWeight(slots, q[..|q| - 1]) + Weight(slots, q[|q| - 1].depth)
  }

  lemma {:induction false} TotalWeightHead(slots: nat, x: BSlot, q: seq<BSlot>)
    ensures TotalWeight(slots, [x] + q) == Weight(slots, x.depth) + TotalWeight(slots, q)
    decreases |q|
  {
    if q == [] {
      assert ([x] + q)[..0] == [];
    } else {
      assert ([x] + q)[..|q|] == [x] + q[..|q| - 1];
      TotalWeightHead(slots, x, q[..|q| - 1]);
    }
  }

  lemma TotalWeightTail(slots: nat, q: seq<BSlot>, y: BSlot)
    ensures TotalWeight(slots, q + [y]) == TotalWeight(slots, q) + Weight(slots, y.depth)
  {
    assert (q + [y])[..|q|] == q;
  }

  /** What the children of a node that are not yet queued can still add. */
  ghost function ChildWeight(slots: nat, depth: int, left: nat): nat
  {
    if depth >= MAX_BFS_PATH_LEN - 1 then 0 else left * Weight(slots, depth + 1)
  }

  lemma ChildWeightStep(slots: nat, depth: int, left: nat)
    requires left > 0
    ensures ChildWeight(slots, depth, left)
         == ChildWeight(slots, depth, left - 1) + if depth >= MAX_BFS_PATH_LEN - 1 then 0 else Weight(slots, depth + 1)
  {
    if depth < MAX_BFS_PATH_LEN - 1 {
      var w := Weight(slots, depth + 1);
      assert left * w == (left - 1) * w + w;
    }
  }

  lemma WeightCoversChildren(slots: nat, depth: int)
    ensures ChildWeight(slots, depth, slots) < Weight(slots, depth)
  {
  }

  ghost predicate InRange(g: Start, x: BSlot)
  {
    0 <= x.depth < MAX_BFS_PATH_LEN && x.pathcode < 2 * Pow(g.slots, x.depth) && x.bucket < HashSize(g.hp)
  }

  /** The i-th slot tried in the bucket of x: the path code picks the slot to start from. */
  function TrySlot(g: Start, x: BSlot, i: nat): (s: nat)
    requires g.Valid()
    ensures s < g.slots
  {
    TryOf(g.slots, x.pathcode, i)
  }

  /** The first n slots tried are occupied and their children are on the queue. */
  ghost predicate Tried(t: Table, g: Start, x: BSlot, q: seq<BSlot>, n: nat)
    requires g.Valid()
  {
    forall i: nat :: i < n ==> SlotTried(t, g, x, q, TrySlot(g, x, i))
  }

  lemma TriedAll(t: Table, g: Start, x: BSlot, q: seq<BSlot>)
    requires g.Valid() && Tried(t, g, x, q, g.slots)
    ensures forall s: nat :: s < g.slots ==> SlotTried(t, g, x, q, s)
  {
    forall s: nat | s < g.slots
      ensures SlotTried(t, g, x, q, s)
    {
      var i := CyclicOrderCovers(g.slots, x.pathcode % g.slots, s);
      assert s == TrySlot(g, x, i);
    }
  }

  // ----- The invariants of the two loops -----

  ghost predicate AllInRange(g: Start, q: seq<BSlot>)
  {
    forall p :: 0 <= p < |q| ==> InRange(g, q[p])
  }

  // ----- Where the search is in its fixed order -----

  /** x is the j-th node. */
  ghost predicate Named(slots: nat, x: BSlot, j: nat)
    requires slots > 0
  {
    x.depth == LevelOf(slots, j) && x.pathcode == CodeOf(slots, j)
  }

  /** The queue holds the nodes from `taken` on. */
  ghost predicate InOrder(slots: nat, q: seq<BSlot>, taken: nat)
    requires slots > 0
  {
    forall p :: 0 <= p < |q| ==> Named(slots, q[p], taken + p)
  }

  /** Between nodes, with `taken` of them taken off the queue; every node so far had all its children queued. */
  ghost predicate OuterOrder(slots: nat, q: seq<BSlot>, taken: nat)
    requires slots > 0
  {
    slots >= 4 ==> |q| == 2 + (slots - 1) * taken && InOrder(slots, q, taken)
  }

  /** In the bucket of x, the last node taken, with i of its slots tried. */
  ghost predicate InnerOrder(slots: nat, q: seq<BSlot>, x: BSlot, taken: nat, i: nat)
    requires slots > 0
  {
    slots >= 4 ==>
      && taken > 0 && i <= slots && (slots - 1) * (taken - 1) < 509 && Named(slots, x, taken - 1)
      && |q| == 1 + (slots - 1) * (taken - 1) + i && InOrder(slots, q, taken)
  }

  lemma OrderEnter(slots: nat, waiting: seq<BSlot>, x: BSlot, q: seq<BSlot>, taken: nat)
    requires slots > 0 && OuterOrder(slots, waiting, taken)
    requires waiting == [x] + q && |waiting| < MAX_CUCKOO_COUNT - 1
    ensures InnerOrder(slots, q, x, taken + 1, 0)
  {
    hide Named;
    DropHead(waiting, x, q);
    if slots >= 4 {
      assert Named(slots, waiting[0], taken);
      forall p | 0 <= p < |q|
        ensures Named(slots, q[p], taken + 1 + p)
      {
        assert Named(slots, waiting[p + 1], taken + (p + 1));
      }
    }
  }

  lemma OrderQueue(slots: nat, q: seq<BSlot>, x: BSlot, taken: nat, i: nat, y: BSlot)
    requires slots > 0 && InnerOrder(slots, q, x, taken, i) && i < slots
    requires y.depth == x.depth + 1 && y.pathcode == ChildCode(slots, x.pathcode, i)
    ensures InnerOrder(slots, q + [y], x, taken, i + 1)
  {
    hide ChildCode, CodeOf, LevelOf;
    if slots >= 4 {
      NodeOfChild(slots, taken - 1, i);
      var k := taken - 1;
      assert slots * k == (slots - 1) * k + k;
      assert taken + |q| == 2 + slots * k + i;
      assert forall p :: 0 <= p < |q| ==> (q + [y])[p] == q[p];
    }
  }

  lemma OrderShallow(slots: nat, q: seq<BSlot>, x: BSlot, taken: nat, i: nat)
    requires slots >= 4 && InnerOrder(slots, q, x, taken, i)
    ensures x.depth <= 3
  {
    hide InOrder;
    ExaminedIsShallow(slots, taken - 1);
  }

  lemma OrderLeave(slots: nat, q: seq<BSlot>, x: BSlot, taken: nat)
    requires slots > 0 && InnerOrder(slots, q, x, taken, slots)
    ensures OuterOrder(slots, q, taken)
  {
    if slots >= 4 {
      assert (slots - 1) * taken == (slots - 1) * (taken - 1) + (slots - 1);
    }
  }

  /** Slots tried so far: all those of the nodes before the last one taken, and the first i of that one. */
  ghost predicate SoFarFull(t: Table, g: Start, taken: nat, i: nat)
    requires g.Valid()
  {
    forall j: nat, k: nat :: k < g.slots && (j + 1 < taken || (j + 1 == taken && k < i)) ==> TryFull(t, g, j, k)
  }

  lemma SoFarNext(t: Table, g: Start, x: BSlot, taken: nat, i: nat)
    requires g.Valid() && SoFarFull(t, g, taken, i) && NodeOk(t, g, x) && taken > 0 && Named(g.slots, x, taken - 1)
    requires i < g.slots && Occupied(t, x.bucket, TrySlot(g, x, i))
    ensures SoFarFull(t, g, taken, i + 1)
  {
    hide Walk, CodeOf, LevelOf, TryOf;
    assert TryFull(t, g, taken - 1, i);
  }

  /** What is found empty is one of the slots that the fixed order examines. */
  lemma FoundIsFree(t: Table, g: Start, q: seq<BSlot>, x: BSlot, taken: nat, i: nat)
    requires g.Valid() && NodeOk(t, g, x) && InnerOrder(g.slots, q, x, taken, i) && i < g.slots
    requires |q| < MAX_CUCKOO_COUNT - 1 && !Occupied(t, x.bucket, TrySlot(g, x, i))
    ensures !NothingFree(t, g)
  {
    hide Walk, CodeOf, LevelOf, TryOf, InOrder, Pow;
    if g.slots <= 3 {
      assert ShallowerFull(t, g, MAX_BFS_PATH_LEN) ==> BucketFull(t, g.slots, Walk(t, g, x.pathcode, x.depth));
    } else {
      assert Examined(g.slots, taken - 1, i);
      assert !TryFull(t, g, taken - 1, i);
    }
  }

  lemma StrideGrows(m: nat, j: nat, k: nat)
    ensures j >= k ==> m * j >= m * k
    ensures k > 0 ==> m * k == m * (k - 1) + m
  {
    if j >= k {
      assert m * j == m * k + m * (j - k);
    }
  }

  /** When the queue is full inside a bucket, everything examined has been seen. */
  lemma FullInside(t: Table, g: Start, q: seq<BSlot>, x: BSlot, taken: nat, i: nat)
    requires g.Valid() && g.slots >= 4 && InnerOrder(g.slots, q, x, taken, i) && i < g.slots
    requires |q| == MAX_CUCKOO_COUNT - 1 && SoFarFull(t, g, taken, i)
    ensures NothingFree(t, g)
  {
    hide InOrder, Named, TryFull;
    forall j: nat, k: nat | Examined(g.slots, j, k)
      ensures TryFull(t, g, j, k)
    {
      StrideGrows(g.slots - 1, j, taken);
    }
  }

  /** The same when it fills up with the last child of a node. */
  lemma FullBetween(t: Table, g: Start, q: seq<BSlot>, taken: nat)
    requires g.Valid() && g.slots >= 4 && OuterOrder(g.slots, q, taken)
    requires |q| == MAX_CUCKOO_COUNT - 1 && SoFarFull(t, g, taken, g.slots)
    ensures NothingFree(t, g)
  {
    hide InOrder, TryFull;
    forall j: nat, k: nat | Examined(g.slots, j, k)
      ensures TryFull(t, g, j, k)
    {
      StrideGrows(g.slots - 1, j, taken);
    }
  }

  lemma SoFarEnter(t: Table, g: Start, taken: nat)
    requires g.Valid() && SoFarFull(t, g, taken, g.slots)
    ensures SoFarFull(t, g, taken + 1, 0)
  {
    hide TryFull;
  }

  lemma {:induction false} LengthBelowWeight(slots: nat, q: seq<BSlot>)
    ensures |q| <= TotalWeight(slots, q)
  {
    if q != [] {
      LengthBelowWeight(slots, q[..|q| - 1]);
    }
  }

  /** With up to three slots there are at most 242 nodes. */
  lemma FewNodes(slots: nat)
    requires slots <= 3
    ensures 2 * Weight(slots, 0) <= 242
  {
    assert Weight(slots, 4) == 1;
    assert Weight(slots, 3) == 1 + slots <= 4;
    MulAtMost(slots, Weight(slots, 3), 4);
    assert Weight(slots, 2) <= 13;
    MulAtMost(slots, Weight(slots, 2), 13);
    assert Weight(slots, 1) <= 40;
    MulAtMost(slots, Weight(slots, 1), 40);
  }

  lemma MulAtMost(a: nat, b: nat, m: nat)
    requires a <= 3 && b <= m
    ensures a * b <= 3 * m
  {
  }

  /** An empty queue at the end means that every node was explored. */
  lemma QueueRanEmpty(t: Table, g: Start, done: set<Node>, lo: int)
    requires g.Valid() && Searching(t, g, done, {}, [], lo)
    ensures ShallowerFull(t, g, MAX_BFS_PATH_LEN)
  {
    AllShallowerFull(t, g, done, {}, [], lo, MAX_BFS_PATH_LEN - 1);
    hide Searching, Walk, Pow;
    forall c: nat, e: nat | e < MAX_BFS_PATH_LEN && c < 2 * Pow(g.slots, e)
      ensures BucketFull(t, g.slots, Walk(t, g, c, e))
    {
      if e == MAX_BFS_PATH_LEN - 1 {
        DoneOrCurrent(t, g, done, {}, [], lo, c, e);
      }
    }
  }

  lemma DropHead(waiting: seq<BSlot>, x: BSlot, q: seq<BSlot>)
    requires waiting == [x] + q
    ensures waiting[0] == x && waiting[1..] == q
    ensures forall p :: 0 <= p < |q| ==> q[p] == waiting[p + 1]
  {
  }

  /** What an unchanging table shows inside the bucket of x, for the order of the search and for its outcome. */
  ghost predicate StillOk(t: Table, g: Start, done: set<Node>, x: BSlot, q: seq<BSlot>, taken: nat, i: nat)
    requires g.Valid()
  {
    StillInner(t, g, done, x, q, i) && SoFarOk(t, g, taken, i)
  }

  /** Inside the bucket of x of an unchanging table. */
  ghost predicate StillInner(t: Table, g: Start, done: set<Node>, x: BSlot, q: seq<BSlot>, i: nat)
    requires g.Valid()
  {
    && NodeOk(t, g, x)
    && Searching(t, g, done, {(x.pathcode, x.depth)}, q, x.depth)
    && Tried(t, g, x, q, i)
  }

  lemma StillEnter(t: Table, g: Start, done: set<Node>, waiting: seq<BSlot>, x: BSlot, q: seq<BSlot>, lo: int)
    requires g.Valid() && Searching(t, g, done, {}, waiting, lo) && waiting == [x] + q
    ensures StillInner(t, g, done, x, q, 0)
  {
    assert waiting[0] == x && waiting[1..] == q;
    SearchDequeues(t, g, done, waiting, lo);
  }

  /** Finding slot s of the bucket of x empty: a shortest path. */
  lemma StillFound(t: Table, g: Start, done: set<Node>, x: BSlot, q: seq<BSlot>, i: nat, s: nat)
    requires g.Valid() && StillInner(t, g, done, x, q, i) && s < g.slots && !Occupied(t, x.bucket, s)
    ensures ShortestFree(t, g, Extend(g.slots, x.pathcode, s), x.depth) && NodeOk(t, g, x)
  {
    DigitBound(g.slots, x.pathcode, s, x.depth);
    ExtendSplits(g.slots, x.pathcode, s);
    AllShallowerFull(t, g, done, {(x.pathcode, x.depth)}, q, x.depth, x.depth);
  }

  lemma StillQueue(t: Table, g: Start, done: set<Node>, x: BSlot, q: seq<BSlot>, i: nat, y: BSlot)
    requires g.Valid() && StillInner(t, g, done, x, q, i) && i < g.slots && x.depth < MAX_BFS_PATH_LEN - 1
    requires Occupied(t, x.bucket, TrySlot(g, x, i)) && y == ChildSlot(t, g, x, TrySlot(g, x, i))
    ensures StillInner(t, g, done, x, q + [y], i + 1)
  {
    var s := TrySlot(g, x, i);
    ChildSlotOk(t, g, x, s);
    SearchEnqueues(t, g, done, {(x.pathcode, x.depth)}, x, q, y);
    TriedGrows(t, g, x, q, i, y);
  }

  lemma TriedGrows(t: Table, g: Start, x: BSlot, q: seq<BSlot>, i: nat, y: BSlot)
    requires g.Valid() && i < g.slots && Tried(t, g, x, q, i)
    requires Occupied(t, x.bucket, TrySlot(g, x, i))
    requires y.pathcode == Extend(g.slots, x.pathcode, TrySlot(g, x, i)) && y.depth == x.depth + 1
    ensures Tried(t, g, x, q + [y], i + 1)
  {
    NodesGrow(q, y);
    forall j: nat | j < i + 1
      ensures SlotTried(t, g, x, q + [y], TrySlot(g, x, j))
    {
      if j < i {
        assert SlotTried(t, g, x, q, TrySlot(g, x, j));
      }
    }
  }

  lemma StillPass(t: Table, g: Start, done: set<Node>, x: BSlot, q: seq<BSlot>, i: nat)
    requires g.Valid() && StillInner(t, g, done, x, q, i) && i < g.slots && x.depth == MAX_BFS_PATH_LEN - 1
    requires Occupied(t, x.bucket, TrySlot(g, x, i))
    ensures StillInner(t, g, done, x, q, i + 1)
  {
    forall j: nat | j < i + 1
      ensures SlotTried(t, g, x, q, TrySlot(g, x, j))
    {
    }
  }

  lemma StillLeave(t: Table, g: Start, done: set<Node>, x: BSlot, q: seq<BSlot>)
    requires g.Valid() && StillInner(t, g, done, x, q, g.slots)
    ensures Searching(t, g, done + {(x.pathcode, x.depth)}, {}, q, x.depth)
  {
    TriedAll(t, g, x, q);
    SearchFinishes(t, g, done, x, q);
  }

  lemma StillStarts(t: Table, g: Start, q: seq<BSlot>)
    requires g.Valid() && q == [BSlot(g.i1, 0, 0), BSlot(g.i2, 1, 0)]
    ensures Searching(t, g, {}, {}, q, 0)
    ensures AllInRange(g, q) && OuterOrder(g.slots, q, 0) && SoFarOk(t, g, 0, g.slots)
    ensures TotalWeight(g.slots, q) == 2 * Weight(g.slots, 0)
  {
    assert Pow(g.slots, 0) == 1;
    assert (q[0].pathcode, q[0].depth) == (0, 0) && (q[1].pathcode, q[1].depth) == (1, 0);
    hide Weight, LevelOf, CodeOf;
    WeightOfTwo(g.slots, q[0], q[1]);
    TwoInOrder(g.slots, q);
  }

  lemma WeightOfTwo(slots: nat, x: BSlot, y: BSlot)
    ensures TotalWeight(slots, [x, y]) == Weight(slots, x.depth) + Weight(slots, y.depth)
  {
    hide Weight;
    TotalWeightTail(slots, [], x);
    TotalWeightTail(slots, [x], y);
    assert [x, y] == [x] + [y] && [x] == [] + [x];
  }

  lemma TwoInOrder(slots: nat, q: seq<BSlot>)
    requires slots > 0 && |q| == 2 && q[0].pathcode == 0 && q[1].pathcode == 1 && q[0].depth == q[1].depth == 0
    ensures OuterOrder(slots, q, 0)
  {
  }

  /** With up to three slots what has been seen is in the search invariant already. */
  ghost predicate SoFarOk(t: Table, g: Start, taken: nat, i: nat)
    requires g.Valid()
  {
    g.slots >= 4 ==> SoFarFull(t, g, taken, i)
  }

  lemma SoFarOkEnter(t: Table, g: Start, taken: nat)
    requires g.Valid() && SoFarOk(t, g, taken, g.slots)
    ensures SoFarOk(t, g, taken + 1, 0)
  {
    if g.slots >= 4 {
      SoFarEnter(t, g, taken);
    }
  }

  lemma SoFarOkNext(t: Table, g: Start, done: set<Node>, q: seq<BSlot>, x: BSlot, taken: nat, i: nat)
    requires g.Valid() && StillInner(t, g, done, x, q, i) && InnerOrder(g.slots, q, x, taken, i)
    requires SoFarOk(t, g, taken, i) && i < g.slots && Occupied(t, x.bucket, TrySlot(g, x, i))
    ensures SoFarOk(t, g, taken, i + 1)
  {
    hide Searching, Tried, InOrder, NodeOk, Named, SoFarFull;
    if g.slots >= 4 {
      SoFarNext(t, g, x, taken, i);
    }
  }

  lemma FoundSlot(t: Table, g: Start, done: set<Node>, q: seq<BSlot>, x: BSlot, taken: nat, i: nat)
    requires g.Valid() && StillOk(t, g, done, x, q, taken, i) && InnerOrder(g.slots, q, x, taken, i) && i < g.slots
    requires |q| < MAX_CUCKOO_COUNT - 1 && !Occupied(t, x.bucket, TrySlot(g, x, i))
    ensures ShortestFree(t, g, Extend(g.slots, x.pathcode, TrySlot(g, x, i)), x.depth) && !NothingFree(t, g)
  {
    hide StillInner, InnerOrder, NothingFree, ShortestFree, SoFarOk, NodeOk;
    StillFound(t, g, done, x, q, i, TrySlot(g, x, i));
    FoundIsFree(t, g, q, x, taken, i);
  }

  lemma NextSlot(
      t: Table, g: Start, done: set<Node>, q: seq<BSlot>, x: BSlot, taken: nat, i: nat, q': seq<BSlot>)
    requires g.Valid() && StillOk(t, g, done, x, q, taken, i) && InnerOrder(g.slots, q, x, taken, i)
    requires i < g.slots && Occupied(t, x.bucket, TrySlot(g, x, i))
    requires q' == if x.depth < MAX_BFS_PATH_LEN - 1 then q + [ChildSlot(t, g, x, TrySlot(g, x, i))] else q
    ensures StillOk(t, g, done, x, q', taken, i + 1)
  {
    StillDepth(t, g, done, q, x, i);
    hide StillInner, InnerOrder, SoFarOk, NodeOk, Kick;
    SoFarOkNext(t, g, done, q, x, taken, i);
    if x.depth < MAX_BFS_PATH_LEN - 1 {
      StillQueue(t, g, done, x, q, i, ChildSlot(t, g, x, TrySlot(g, x, i)));
    } else {
      StillPass(t, g, done, x, q, i);
    }
  }

  lemma StillDepth(t: Table, g: Start, done: set<Node>, q: seq<BSlot>, x: BSlot, i: nat)
    requires g.Valid() && StillInner(t, g, done, x, q, i)
    ensures x.depth < MAX_BFS_PATH_LEN
  {
  }

  lemma LeaveBucket(t: Table, g: Start, done: set<Node>, q: seq<BSlot>, x: BSlot, taken: nat)
    requires g.Valid() && StillOk(t, g, done, x, q, taken, g.slots)
    ensures Searching(t, g, done + {(x.pathcode, x.depth)}, {}, q, x.depth) && SoFarOk(t, g, taken, g.slots)
  {
    hide StillInner, Searching, SoFarOk;
    StillLeave(t, g, done, x, q);
  }

  lemma StopInBucket(t: Table, g: Start, done: set<Node>, q: seq<BSlot>, x: BSlot, taken: nat, i: nat)
    requires g.Valid() && g.slots >= 4 && StillOk(t, g, done, x, q, taken, i) && InnerOrder(g.slots, q, x, taken, i)
    requires i < g.slots && |q| == MAX_CUCKOO_COUNT - 1
    ensures NothingFree(t, g)
  {
    hide StillInner, InnerOrder, NothingFree, SoFarFull;
    FullInside(t, g, q, x, taken, i);
  }

  lemma OrderPass(slots: nat, q: seq<BSlot>, x: BSlot, taken: nat, i: nat)
    requires slots > 0 && InnerOrder(slots, q, x, taken, i) && x.depth == MAX_BFS_PATH_LEN - 1
    ensures slots <= 3 && InnerOrder(slots, q, x, taken, i + 1)
  {
    hide InOrder, Named;
    if slots >= 4 {
      OrderShallow(slots, q, x, taken, i);
    }
  }

  /** The search stops between nodes: the queue has run empty, or has filled with the last child of a node. */
  lemma NothingLeft(t: Table, g: Start, done: set<Node>, q: seq<BSlot>, lo: int, taken: nat)
    requires g.Valid() && Searching(t, g, done, {}, q, lo) && OuterOrder(g.slots, q, taken)
    requires SoFarOk(t, g, taken, g.slots) && (q == [] || |q| == MAX_CUCKOO_COUNT - 1)
    requires g.slots <= 3 ==> TotalWeight(g.slots, q) <= 242
    ensures NothingFree(t, g)
  {
    hide Searching, InOrder, SoFarFull, TotalWeight;
    LengthBelowWeight(g.slots, q);
    if g.slots <= 3 {
      QueueRanEmpty(t, g, done, lo);
    } else {
      assert (g.slots - 1) * taken >= 0 by { MulGap(g.slots - 1, taken); }
      FullBetween(t, g, q, taken);
    }
  }

  /** The inner loop: looks at the slots of the bucket of x in turn, each under its own lock acquisition,
    * queueing a child for every occupied one, until an empty slot is found or the queue is full. */
  method ExamineBucket(
      g: Start, env: nat -> Snapshot, clock: nat, q: BQueue, x: BSlot,
      ghost t: Table, ghost still: bool, ghost done: set<Node>, ghost taken: nat)
      returns (changed: bool, found: int, finished: bool, clock': nat)
    requires g.Valid() && forall i: nat :: env(i).hp == g.hp ==> Shape(env(i).table, g.hp, g.slots)
    requires q.Valid() && AllInRange(g, q.Contents()) && InRange(g, x)
    requires InnerOrder(g.slots, q.Contents(), x, taken, 0)
    requires g.slots <= 3 ==> TotalWeight(g.slots, q.Contents()) + Weight(g.slots, x.depth) <= 242
    requires still ==>
      Unchanging(g, env, t) && StillOk(t, g, done, x, q.Contents(), taken, 0)
    modifies q`last, q.slots
    ensures q.Valid() && AllInRange(g, q.Contents())
    ensures still ==> !changed
    ensures found < g.slots
    ensures found >= 0 ==> Extend(g.slots, x.pathcode, found) < 2 * Pow(g.slots, x.depth + 1)
    ensures found >= 0 && still ==> ShortestFree(t, g, Extend(g.slots, x.pathcode, found), x.depth)
    ensures found >= 0 && still ==> !NothingFree(t, g)
    ensures !changed && found < 0 ==>
      && TotalWeight(g.slots, q.Contents()) < old(TotalWeight(g.slots, q.Contents())) + Weight(g.slots, x.depth)
      && (finished ==> OuterOrder(g.slots, q.Contents(), taken))
      && (finished && still ==>
           && Searching(t, g, done + {(x.pathcode, x.depth)}, {}, q.Contents(), x.depth)
           && SoFarOk(t, g, taken, g.slots))
      && (!finished ==> q.Full() && g.slots >= 4)
      && (!finished && still ==> NothingFree(t, g))
  {
    hide StillOk, InnerOrder, OuterOrder, SoFarOk, NothingFree, Searching, ShortestFree, TotalWeight, Weight,
      ChildWeight, Pow, Tried, AltIndex, Extend, BQueue.Contents, BQueue.Increment;
    changed, found, finished, clock' := false, -1, false, clock;
    WeightCoversChildren(g.slots, x.depth);
    var startingSlot := x.pathcode % g.slots;
    var i := 0;
    while i < g.slots && !q.Full()
      invariant i <= g.slots && q.Valid() && AllInRange(g, q.Contents())
      invariant InnerOrder(g.slots, q.Contents(), x, taken, i)
      invariant still ==> StillOk(t, g, done, x, q.Contents(), taken, i)
      invariant TotalWeight(g.slots, q.Contents()) + ChildWeight(g.slots, x.depth, g.slots - i)
        < old(TotalWeight(g.slots, q.Contents())) + Weight(g.slots, x.depth)
    {
      var slot := NthSlot(g.slots, startingSlot, i);
      assert slot == TrySlot(g, x, i);
      var seen := env(clock');
      clock' := clock' + 1;
      if seen.hp != g.hp {
        return true, -1, false, clock';
      }
      var b := seen.table[x.bucket];
      if b[slot].Empty? {
        DigitBound(g.slots, x.pathcode, slot, x.depth);
        if still { FoundSlot(t, g, done, q.Contents(), x, taken, i); }
        return false, slot, false, clock';
      }
      ChildWeightStep(g.slots, x.depth, g.slots - i);
      if x.depth < MAX_BFS_PATH_LEN - 1 {
        DigitBound(g.slots, x.pathcode, slot, x.depth);
        var y := BSlot(AltIndex(g.hp, b[slot].partial, x.bucket), Extend(g.slots, x.pathcode, slot), x.depth + 1);
        TotalWeightTail(g.slots, q.Contents(), y);
        OrderQueue(g.slots, q.Contents(), x, taken, i, y);
        if still { NextSlot(t, g, done, q.Contents(), x, taken, i, q.Contents() + [y]); }
        q.Enqueue(y);
      } else {
        OrderPass(g.slots, q.Contents(), x, taken, i);
        if still { NextSlot(t, g, done, q.Contents(), x, taken, i, q.Contents()); }
      }
      i := i + 1;
    }
    finished := i == g.slots;
    LengthBelowWeight(g.slots, q.Contents());
    if finished {
      OrderLeave(g.slots, q.Contents(), x, taken);
      if still { LeaveBucket(t, g, done, q.Contents(), x, taken); }
    } else if still {
      StopInBucket(t, g, done, q.Contents(), x, taken, i);
    }
  }

  /** The search. Each look at a slot happens under its own lock acquisition, the i-th of which shows
    * `env(i)`; `changed` reports that one of them found another hash power, and depth -1 that no path was
    * found. It terminates whatever the other threads do. */
  method SlotSearch(g: Start, env: nat -> Snapshot) returns (changed: bool, x: BSlot)
    requires g.Valid()
    requires forall i: nat :: env(i).hp == g.hp ==> Shape(env(i).table, g.hp, g.slots)
    // Whatever the table does, a path found has a code and depth that fit its slots...
    ensures !changed ==> -1 <= x.depth < MAX_BFS_PATH_LEN
    ensures !changed && x.depth >= 0 ==> x.pathcode < 2 * Pow(g.slots, x.depth + 1)
    // ... and with four slots or more the queue fills before depth 4 is ever examined.
    ensures !changed && g.slots >= 4 ==> x.depth <= 3
    // Over an unchanging table the path found is a shortest one ...
    ensures forall t :: Unchanging(g, env, t) ==> !changed && (x.depth >= 0 ==> ShortestFree(t, g, x.pathcode, x.depth))
    // ... and the search fails exactly if every slot in its fixed order is occupied.
    ensures forall t :: Unchanging(g, env, t) ==> (x.depth < 0 <==> NothingFree(t, g))
  {
    OneUnchangingTable(g, env);
    hide Unchanging, StillInner, InnerOrder, OuterOrder, SoFarOk, NothingFree, Searching, ShortestFree, TotalWeight,
      Weight, NodeOk, Tried, Pow, Extend, BQueue.Contents, BQueue.Increment, HashSize;
    ghost var t, still := env(0).table, Unchanging(g, env, env(0).table);
    var q := new BQueue();
    q.Enqueue(BSlot(g.i1, 0, 0));
    q.Enqueue(BSlot(g.i2, 1, 0));
    var clock: nat := 0;
    ghost var done: set<Node>, lo, taken: nat, partial := {}, 0, 0, false;
    StillStarts(t, g, q.Contents());
    if g.slots <= 3 { FewNodes(g.slots); }
    while !q.Full() && !q.Empty()
      invariant q.Valid() && fresh(q) && fresh(q.slots)
      invariant AllInRange(g, q.Contents())
      invariant g.slots <= 3 ==> TotalWeight(g.slots, q.Contents()) <= 242
      invariant partial ==> q.Full() && g.slots >= 4 && (still ==> NothingFree(t, g))
      invariant !partial ==> OuterOrder(g.slots, q.Contents(), taken)
      invariant !partial && still ==> Searching(t, g, done, {}, q.Contents(), lo) && SoFarOk(t, g, taken, g.slots)
      decreases TotalWeight(g.slots, q.Contents())
    {
      ghost var waiting := q.Contents();
      x := q.Dequeue();
      DropHead(waiting, x, q.Contents());
      TotalWeightHead(g.slots, x, q.Contents());
      OrderEnter(g.slots, waiting, x, q.Contents(), taken);
      taken := taken + 1;
      if still {
        StillEnter(t, g, done, waiting, x, q.Contents(), lo);
        SoFarOkEnter(t, g, taken - 1);
      }
      if g.slots >= 4 { OrderShallow(g.slots, q.Contents(), x, taken, 0); }
      var hpChanged, slot, finished, now := ExamineBucket(g, env, clock, q, x, t, still, done, taken);
      clock := now;
      if hpChanged {
        return true, x;
      }
      if slot >= 0 {
        return false, x.(pathcode := Extend(g.slots, x.pathcode, slot));
      }
      done, lo := done + {(x.pathcode, x.depth)}, x.depth;
      partial := !finished;
    }
    if still && !partial {
      NothingLeft(t, g, done, q.Contents(), lo, taken);
    }
    return false, BSlot(0, 0, -1);
  }
}
