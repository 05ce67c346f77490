/** What the breadth-first search explores: kick paths through a table, and the invariant of the search. */
module Bfs {
  import opened Hashing
  import opened Tables
  import opened SearchQueue
  import opened PathCodes

  /** The longest path the search follows has five slots, so depths run from 0 to 4. */
  const MAX_BFS_PATH_LEN := 5

  datatype Start = Start(hp: nat, slots: nat, i1: nat, i2: nat)
  {
    predicate Valid()
    {
      slots > 0 && i1 < HashSize(hp) && i2 < HashSize(hp)
    }
  }

  /** A search node is identified by its path code and depth. */
  type Node = (nat, int)

  /** The node reached from n by kicking out slot s. */
  function Child(slots: nat, n: Node, s: nat): Node
  {
    (Extend(slots, n.0, s), n.1 + 1)
  }

  /** Where the entry in slot `s` of bucket `b` would be kicked to. */
  function Kick(t: Table, hp: nat, b: nat, s: nat): (r: nat)
    ensures b < HashSize(hp) ==> r < HashSize(hp)
  {
    if Occupied(t, b, s) then AltIndex(hp, t[b][s].partial, b) else b
  }

  /** The bucket reached by following the path that `code` encodes. */
  function Walk(t: Table, g: Start, code: nat, depth: nat): (b: nat)
    requires g.Valid()
    ensures b < HashSize(g.hp)
    decreases depth
  {
    if depth == 0 then if code == 0 then g.i1 else g.i2
    else Kick(t, g.hp, Walk(t, g, code / g.slots, depth - 1), code % g.slots)
  }

  lemma WalkStep(t: Table, g: Start, code: nat, depth: nat, s: nat)
    requires g.Valid() && s < g.slots
    ensures Walk(t, g, Extend(g.slots, code, s), depth + 1) == Kick(t, g.hp, Walk(t, g, code, depth), s)
  {
    ExtendSplits(g.slots, code, s);
  }

  ghost predicate BucketFull(t: Table, slots: nat, b: nat)
  {
    forall s :: 0 <= s < slots ==> Occupied(t, b, s)
  }

  /** Every bucket fewer than `depth` kicks away from the start buckets is full. */
  ghost predicate ShallowerFull(t: Table, g: Start, depth: int)
    requires g.Valid()
  {
    forall c: nat, e: nat :: e < depth && c < 2 * Pow(g.slots, e) ==> BucketFull(t, g.slots, Walk(t, g, c, e))
  }

  /** `code` leads to an empty slot, and nothing shorter does. */
  ghost predicate ShortestFree(t: Table, g: Start, code: nat, depth: nat)
    requires g.Valid()
  {
    && code < 2 * Pow(g.slots, depth + 1)
    && !Occupied(t, Walk(t, g, code / g.slots, depth), code % g.slots)
    && ShallowerFull(t, g, depth)
  }

  // ----- The nodes waiting in the queue -----

  ghost function Nodes(q: seq<BSlot>): (ns: set<Node>)
    ensures forall p :: 0 <= p < |q| ==> (q[p].pathcode, q[p].depth) in ns
    ensures forall n :: n in ns ==> exists p :: 0 <= p < |q| && n == (q[p].pathcode, q[p].depth)
  {
    set p | 0 <= p < |q| :: (q[p].pathcode, q[p].depth)
  }

  ghost predicate NodeOk(t: Table, g: Start, x: BSlot)
    requires g.Valid()
  {
    && 0 <= x.depth < MAX_BFS_PATH_LEN
    && x.pathcode < 2 * Pow(g.slots, x.depth)
    && x.bucket == Walk(t, g, x.pathcode, x.depth)
  }

  /** Node n has been examined: its bucket is full and its children are known. */
  ghost predicate Explored(t: Table, g: Start, known: set<Node>, n: Node)
    requires g.Valid()
  {
    && n.1 >= 0
    && BucketFull(t, g.slots, Walk(t, g, n.0, n.1))
    && (n.1 < MAX_BFS_PATH_LEN - 1 ==> forall s: nat :: s < g.slots ==> Child(g.slots, n, s) in known)
  }

  /** The search invariant over an unchanging table: `done` nodes are explored, `current` holds the node
    * taken off the queue but not finished, and the queue `q` spans at most two depths, `lo` and `lo + 1`. */
  ghost predicate Searching(t: Table, g: Start, done: set<Node>, current: set<Node>, q: seq<BSlot>, lo: int)
    requires g.Valid()
  {
    && (forall p :: 0 <= p < |q| ==> NodeOk(t, g, q[p]) && lo <= q[p].depth <= lo + 1)
    && (forall p, r :: 0 <= p < r < |q| ==> q[p].depth <= q[r].depth)
    && (0, 0) in done + current + Nodes(q) && (1, 0) in done + current + Nodes(q)
    && (forall n :: n in done ==> Explored(t, g, done + current + Nodes(q), n))
  }

  lemma SearchDequeues(t: Table, g: Start, done: set<Node>, q: seq<BSlot>, lo: int)
    requires g.Valid() && q != [] && Searching(t, g, done, {}, q, lo)
    ensures Searching(t, g, done, {(q[0].pathcode, q[0].depth)}, q[1..], q[0].depth)
  {
    hide Walk, Pow, NodeOk, Explored, Nodes;
    var x := (q[0].pathcode, q[0].depth);
    assert Nodes(q) == {x} + Nodes(q[1..]) by {
      forall n | n in Nodes(q)
        ensures n in {x} + Nodes(q[1..])
      {
        var p :| 0 <= p < |q| && n == (q[p].pathcode, q[p].depth);
        if p > 0 {
          assert q[1..][p - 1] == q[p];
        }
      }
    }
    assert done + {} + Nodes(q) == done + {x} + Nodes(q[1..]);
  }

  /** The queue entry made for slot `s` of the bucket of `x`. */
  function ChildSlot(t: Table, g: Start, x: BSlot, s: nat): BSlot
  {
    BSlot(Kick(t, g.hp, x.bucket, s), Extend(g.slots, x.pathcode, s), x.depth + 1)
  }

  lemma ChildSlotOk(t: Table, g: Start, x: BSlot, s: nat)
    requires g.Valid() && s < g.slots && NodeOk(t, g, x) && x.depth < MAX_BFS_PATH_LEN - 1
    ensures NodeOk(t, g, ChildSlot(t, g, x, s))
  {
    WalkStep(t, g, x.pathcode, x.depth, s);
    DigitBound(g.slots, x.pathcode, s, x.depth);
  }

  lemma NodesGrow(q: seq<BSlot>, y: BSlot)
    ensures Nodes(q + [y]) == Nodes(q) + {(y.pathcode, y.depth)}
  {
    forall n | n in Nodes(q)
      ensures n in Nodes(q + [y])
    {
      var p :| 0 <= p < |q| && n == (q[p].pathcode, q[p].depth);
      assert (q + [y])[p] == q[p];
    }
    assert (q + [y])[|q|] == y;
  }

  lemma SearchEnqueues(t: Table, g: Start, done: set<Node>, current: set<Node>, x: BSlot, q: seq<BSlot>, y: BSlot)
    requires g.Valid() && Searching(t, g, done, current, q, x.depth)
    requires NodeOk(t, g, y) && y.depth == x.depth + 1
    ensures Searching(t, g, done, current, q + [y], x.depth)
  {
    hide Walk, Pow, NodeOk, Nodes, BucketFull;
    NodesGrow(q, y);
    var known, known' := done + current + Nodes(q), done + current + Nodes(q + [y]);
    forall n | n in done
      ensures Explored(t, g, known', n)
    {
      assert Explored(t, g, known, n);
    }
  }

  /** Slot s of the bucket of x is occupied and its child is on the queue. */
  ghost predicate SlotTried(t: Table, g: Start, x: BSlot, q: seq<BSlot>, s: nat)
  {
    && Occupied(t, x.bucket, s)
    && (x.depth < MAX_BFS_PATH_LEN - 1 ==> Child(g.slots, (x.pathcode, x.depth), s) in Nodes(q))
  }

  lemma SearchFinishes(t: Table, g: Start, done: set<Node>, x: BSlot, q: seq<BSlot>)
    requires g.Valid() && NodeOk(t, g, x)
    requires Searching(t, g, done, {(x.pathcode, x.depth)}, q, x.depth)
    requires forall s: nat :: s < g.slots ==> SlotTried(t, g, x, q, s)
    ensures Searching(t, g, done + {(x.pathcode, x.depth)}, {}, q, x.depth)
  {
    var n := (x.pathcode, x.depth);
    var known := (done + {n}) + {} + Nodes(q);
    assert done + {n} + Nodes(q) == known;
    forall s: nat | s < g.slots
      ensures Occupied(t, x.bucket, s)
      ensures x.depth < MAX_BFS_PATH_LEN - 1 ==> Child(g.slots, n, s) in known
    {
      assert SlotTried(t, g, x, q, s);
    }
    assert Explored(t, g, known, n);
  }

  lemma Parent(slots: nat, c: nat, e: nat) returns (p: nat, s: nat)
    requires slots > 0 && e > 0 && c < 2 * Pow(slots, e)
    ensures p < 2 * Pow(slots, e - 1) && s < slots
    ensures Child(slots, (p, e - 1), s) == (c, e)
  {
    p, s := c / slots, c % slots;
    PrefixBound(slots, c, e);
    ChildOfParent(slots, c, e);
  }

  lemma ChildOfParent(slots: nat, c: nat, e: nat)
    requires slots > 0 && e > 0
    ensures Child(slots, (c / slots, e - 1), c % slots) == (c, e)
  {
  }

  /** A node shallower than everything still waiting has been explored. */
  lemma {:induction false} ShallowIsDone(
      t: Table, g: Start, done: set<Node>, current: set<Node>, q: seq<BSlot>, lo: int, c: nat, e: nat, d: int)
    requires g.Valid() && Searching(t, g, done, current, q, lo)
    requires forall n :: n in current + Nodes(q) ==> n.1 >= d
    requires e < d <= MAX_BFS_PATH_LEN - 1 && c < 2 * Pow(g.slots, e)
    ensures (c, e) in done
    decreases e
  {
    hide Walk, BucketFull, NodeOk, Nodes;
    var all := done + current + Nodes(q);
    if e == 0 {
      assert Pow(g.slots, 0) == 1;
    } else {
      var p, s := Parent(g.slots, c, e);
      ShallowIsDone(t, g, done, current, q, lo, p, e - 1, d);
      assert Explored(t, g, all, (p, e - 1));
      assert Child(g.slots, (p, e - 1), s) in all;
    }
  }

  lemma AllShallowerFull(
      t: Table, g: Start, done: set<Node>, current: set<Node>, q: seq<BSlot>, lo: int, d: int)
    requires g.Valid() && Searching(t, g, done, current, q, lo) && d <= MAX_BFS_PATH_LEN - 1
    requires forall n :: n in current + Nodes(q) ==> n.1 >= d
    ensures ShallowerFull(t, g, d)
  {
    forall c: nat, e: nat | e < d && c < 2 * Pow(g.slots, e)
      ensures BucketFull(t, g.slots, Walk(t, g, c, e))
    {
      ShallowIsDone(t, g, done, current, q, lo, c, e, d);
      assert Explored(t, g, done + current + Nodes(q), (c, e));
    }
  }

  /** When everything still queued is deeper than depth e, a node of depth e is explored or being examined. */
  lemma DoneOrCurrent(
      t: Table, g: Start, done: set<Node>, current: set<Node>, q: seq<BSlot>, lo: int, c: nat, e: nat)
    requires g.Valid() && Searching(t, g, done, current, q, lo) && 0 < e <= MAX_BFS_PATH_LEN - 1
    requires (forall n :: n in current ==> n.1 >= e) && (forall n :: n in Nodes(q) ==> n.1 > e)
    requires c < 2 * Pow(g.slots, e)
    ensures (c, e) in current || BucketFull(t, g.slots, Walk(t, g, c, e))
  {
    hide Walk, Nodes;
    var all := done + current + Nodes(q);
    var p, s := Parent(g.slots, c, e);
    ShallowIsDone(t, g, done, current, q, lo, p, e - 1, e);
    assert Explored(t, g, all, (p, e - 1));
    assert Child(g.slots, (p, e - 1), s) in all;
    assert (c, e) in done ==> Explored(t, g, all, (c, e));
  }

  // ----- The path a code stands for -----

  /** The j-th bucket of the path with these slots. */
  function PathBucket(t: Table, g: Start, root: nat, path: seq<nat>, j: nat): nat
    requires g.Valid() && j <= |path|
  {
    Walk(t, g, Encode(g.slots, root, path[..j]), j)
  }

  lemma PathBucketStep(t: Table, g: Start, root: nat, path: seq<nat>, j: nat)
    requires g.Valid() && j < |path| && IsDigits(g.slots, path)
    ensures PathBucket(t, g, root, path, j + 1) == Kick(t, g.hp, PathBucket(t, g, root, path, j), path[j])
  {
    assert path[..j + 1][..j] == path[..j];
    WalkStep(t, g, Encode(g.slots, root, path[..j]), j, path[j]);
  }

  /** Cutting the stretch between two visits of the same bucket out of a path leads to the same place. */
  lemma {:induction false} Shortcut(t: Table, g: Start, root: nat, path: seq<nat>, i: nat, j: nat, k: nat)
    requires g.Valid() && i < j <= k <= |path| && IsDigits(g.slots, path)
    requires PathBucket(t, g, root, path, i) == PathBucket(t, g, root, path, j)
    ensures var cut := path[..i] + path[j..k];
      Walk(t, g, Encode(g.slots, root, cut), |cut|) == PathBucket(t, g, root, path, k)
    decreases k
  {
    if k == j {
      assert path[..i] + path[j..k] == path[..i];
    } else {
      Shortcut(t, g, root, path, i, j, k - 1);
      ShortcutStep(t, g, root, path, i, j, k);
    }
  }

  lemma ShortcutStep(t: Table, g: Start, root: nat, path: seq<nat>, i: nat, j: nat, k: nat)
    requires g.Valid() && i < j < k <= |path| && IsDigits(g.slots, path)
    requires var cut := path[..i] + path[j..k - 1];
      Walk(t, g, Encode(g.slots, root, cut), |cut|) == PathBucket(t, g, root, path, k - 1)
    ensures var cut := path[..i] + path[j..k];
      Walk(t, g, Encode(g.slots, root, cut), |cut|) == PathBucket(t, g, root, path, k)
  {
    hide Walk, Kick, Encode, Extend, Pow;
    PathBucketStep(t, g, root, path, k - 1);
    assert path[..i] + path[j..k] == (path[..i] + path[j..k - 1]) + [path[k - 1]];
    WalkAppend(t, g, root, path[..i] + path[j..k - 1], path[k - 1]);
  }

  lemma WalkAppend(t: Table, g: Start, root: nat, path: seq<nat>, s: nat)
    requires g.Valid() && s < g.slots
    ensures Walk(t, g, Encode(g.slots, root, path + [s]), |path| + 1)
         == Kick(t, g.hp, Walk(t, g, Encode(g.slots, root, path), |path|), s)
  {
    assert (path + [s])[..|path|] == path;
    WalkStep(t, g, Encode(g.slots, root, path), |path|, s);
  }

  /** The path of a code ends in the slot that the last digit names, of the bucket that the rest leads to. */
  lemma LastOfPath(t: Table, g: Start, code: nat, depth: nat)
    requires g.Valid() && code < 2 * Pow(g.slots, depth + 1)
    ensures var path := DecodeSlots(g.slots, code, depth + 1);
      var root := DecodeRoot(g.slots, code, depth + 1);
      && root < 2 && path[depth] == code % g.slots
      && PathBucket(t, g, root, path, depth) == Walk(t, g, code / g.slots, depth)
  {
    hide Walk, Extend, Pow, Encode, DecodeSlots, DecodeRoot;
    var path, root := DecodeSlots(g.slots, code, depth + 1), DecodeRoot(g.slots, code, depth + 1);
    EncodeDecode(g.slots, code, depth + 1);
    EncodeDecode(g.slots, code / g.slots, depth);
    DecodeStep(g.slots, code, depth);
    assert path[..depth] == DecodeSlots(g.slots, code / g.slots, depth);
  }

  lemma InnerSlotIsFull(t: Table, g: Start, root: nat, path: seq<nat>, depth: nat, j: nat)
    requires g.Valid() && root < 2 && j < depth < |path| && IsDigits(g.slots, path) && ShallowerFull(t, g, depth)
    ensures Occupied(t, PathBucket(t, g, root, path, j), path[j])
  {
    hide Walk, Extend, Pow, Encode;
    DecodeEncode(g.slots, root, path[..j]);
    assert BucketFull(t, g.slots, PathBucket(t, g, root, path, j));
  }

  /** The buckets of a shortest path to an empty slot are pairwise distinct, and all but the last slot of
    * the path are occupied. */
  lemma ShortestPathIsSimple(t: Table, g: Start, code: nat, depth: nat)
    requires g.Valid() && ShortestFree(t, g, code, depth)
    ensures var path := DecodeSlots(g.slots, code, depth + 1);
      var root := DecodeRoot(g.slots, code, depth + 1);
      && root < 2
      && (forall i, j :: 0 <= i < j <= depth ==>
           PathBucket(t, g, root, path, i) != PathBucket(t, g, root, path, j))
      && (forall j :: 0 <= j < depth ==> Occupied(t, PathBucket(t, g, root, path, j), path[j]))
      && !Occupied(t, PathBucket(t, g, root, path, depth), path[depth])
  {
    hide Walk, PathBucket, Extend, Pow, ShallowerFull, DecodeSlots, DecodeRoot;
    var path, root := DecodeSlots(g.slots, code, depth + 1), DecodeRoot(g.slots, code, depth + 1);
    LastOfPath(t, g, code, depth);
    forall j | 0 <= j < depth
      ensures Occupied(t, PathBucket(t, g, root, path, j), path[j])
    {
      InnerSlotIsFull(t, g, root, path, depth, j);
    }
    forall i, j | 0 <= i < j <= depth
      ensures PathBucket(t, g, root, path, i) != PathBucket(t, g, root, path, j)
    {
      if PathBucket(t, g, root, path, i) == PathBucket(t, g, root, path, j) {
        ShortcutIsFull(t, g, root, path, i, j, depth);
      }
    }
  }

  lemma ShortcutIsFull(t: Table, g: Start, root: nat, path: seq<nat>, i: nat, j: nat, depth: nat)
    requires g.Valid() && root < 2 && i < j <= depth < |path| && IsDigits(g.slots, path)
    requires PathBucket(t, g, root, path, i) == PathBucket(t, g, root, path, j)
    requires ShallowerFull(t, g, depth)
    ensures Occupied(t, PathBucket(t, g, root, path, depth), path[depth])
  {
    hide Walk, PathBucket, Extend, Pow, Encode;
    var cut := path[..i] + path[j..depth];
    Shortcut(t, g, root, path, i, j, depth);
    DecodeEncode(g.slots, root, cut);
    assert BucketFull(t, g.slots, Walk(t, g, Encode(g.slots, root, cut), |cut|));
  }
}
