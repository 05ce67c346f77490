/** The fixed-size circular queue of the breadth-first search, refining a FIFO sequence. */
module SearchQueue {
  import opened Bits

  /** The array size; one cell stays free, so at most 511 entries are queued. */
  const MAX_CUCKOO_COUNT := 512

  /** A node of the search: the bucket reached, the code of the slots kicked out on the way, how many of
    * them there are. */
  datatype BSlot = BSlot(bucket: nat, pathcode: nat, depth: int)

  class BQueue {
    const slots: array<BSlot>
    var first: nat
    var last: nat

    ghost predicate Valid()
      reads this
    {
      slots.Length == MAX_CUCKOO_COUNT && first < MAX_CUCKOO_COUNT && last < MAX_CUCKOO_COUNT
    }

    ghost function Contents(): (q: seq<BSlot>)
      requires Valid()
      reads this, slots
      ensures |q| < MAX_CUCKOO_COUNT
    {
      if first <= last then slots[first..last] else slots[first..] + slots[..last]
    }

    static function Increment(ind: nat): (r: nat)
      ensures r < MAX_CUCKOO_COUNT
      ensures ind < MAX_CUCKOO_COUNT ==> r == if ind + 1 == MAX_CUCKOO_COUNT then 0 else ind + 1
    {
      MaskIsMod(ind + 1, 9);
      assert Pow2(9) == MAX_CUCKOO_COUNT;
      And(ind + 1, MAX_CUCKOO_COUNT - 1)
    }

    constructor ()
      ensures Valid() && fresh(slots) && Contents() == []
    {
      slots := new BSlot[MAX_CUCKOO_COUNT](i => BSlot(0, 0, 0));
      first, last := 0, 0;
    }

    predicate Empty()
      requires Valid()
      reads this, slots
      ensures Empty() <==> Contents() == []
    {
      first == last
    }

    predicate Full()
      requires Valid()
      reads this, slots
      ensures Full() <==> |Contents()| == MAX_CUCKOO_COUNT - 1
    {
      Increment(last) == first
    }

    method Enqueue(x: BSlot)
      requires Valid() && !Full()
      modifies this`last, slots
      ensures Valid() && Contents() == old(Contents()) + [x]
    {
      slots[last] := x;
      last := Increment(last);
    }

    method Dequeue() returns (x: BSlot)
      requires Valid() && !Empty()
      modifies this`first
      ensures Valid() && [x] + Contents() == old(Contents())
    {
      x := slots[first];
      first := Increment(first);
    }
  }
}
