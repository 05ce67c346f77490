/** The lazily allocated lock array: fixed-size segments that come into being on demand and never move. */
module LazyArrays {
  import opened Bits
  import opened Hashing
  import opened Locks

  /** How many elements can be indexed after `allocate(target)`, when `have` could before. */
  function AllocatedAfter(segment: nat, have: nat, target: nat): nat
    requires segment > 0
  {
    var needed := if target == 0 then 0 else ((target - 1) / segment + 1) * segment;
    if needed > have then needed else have
  }

  lemma RoundUp(segment: nat, target: nat, total: nat)
    requires segment > 0 && 0 < target <= total && total % segment == 0
    ensures target <= ((target - 1) / segment + 1) * segment <= total
  {
    var q, m := (target - 1) / segment, total / segment;
    assert target - 1 == segment * q + (target - 1) % segment;
    assert total == m * segment;
    WholeSegments(m, q, segment);
    WholeSegments(q + 1, m, segment);
    assert (q + 1) * segment == segment * q + segment;
  }

  /** With any segment size that divides 2^16, allocating for a table of some hash power makes every lock that
    * table needs available and never exceeds the array, whatever was allocated before. */
  lemma AllocationCovers(segment: nat, have: nat, hp: nat)
    requires segment > 0 && NUM_LOCKS % segment == 0 && have <= NUM_LOCKS
    ensures LocksFor(hp) <= AllocatedAfter(segment, have, LocksFor(hp)) <= NUM_LOCKS
    ensures have <= AllocatedAfter(segment, have, LocksFor(hp))
  {
    RoundUp(segment, LocksFor(hp), NUM_LOCKS);
  }

  /** Segments of counters; a counter is created as zero. */
  class LazyArray {
    const offsetBits: nat
    const segmentBits: nat
    const segments: array<array?<nat>>
    ghost var count: nat  // the first `count` segments are allocated

    ghost predicate Valid()
      reads this, segments
    {
      && segments.Length == NumSegments() && count <= NumSegments()
      && (forall i :: 0 <= i < segments.Length ==> (segments[i] != null <==> i < count))
      && (forall i :: 0 <= i < count ==> segments[i] != null && segments[i].Length == SegmentSize())
      && (forall i, j :: 0 <= i < j < count ==> segments[i] != segments[j])
    }

    function SegmentSize(): (size: nat)
      ensures size > 0
    {
      Pow2(offsetBits)
    }

    function NumSegments(): nat { Pow2(segmentBits) }

    function GetSegment(i: nat): nat
    {
      QuotientIsNat(i, SegmentSize());
      i / SegmentSize()
    }

    function GetOffset(i: nat): (r: nat)
      ensures r < SegmentSize()
    {
      MaskIsMod(i, offsetBits);
      And(i, SegmentSize() - 1)
    }

    ghost function Segments(): set<object>
      reads this, segments
    {
      set i | 0 <= i < segments.Length && segments[i] != null :: segments[i]
    }

    /** The first n segments in a row. */
    ghost function Joined(n: nat): (s: seq<nat>)
      requires Valid() && n <= count
      reads this, segments, Segments()
      ensures |s| == n * SegmentSize()
    {
      if n == 0 then [] else Joined(n - 1) + segments[n - 1][..]
    }

    /** The elements that can be indexed, in order. */
    ghost function Contents(): (s: seq<nat>)
      requires Valid()
      reads this, segments, Segments()
      ensures |s| == count * SegmentSize()
    {
      Joined(count)
    }

    lemma {:induction false} JoinedAt(n: nat, i: nat)
      requires Valid() && n <= count && i < n * SegmentSize()
      ensures GetSegment(i) < n && Joined(n)[i] == segments[GetSegment(i)][GetOffset(i)]
    {
      hide Pow2, And;
      var m, k := SegmentSize(), n - 1;
      InLastSegment(i, n, m);
      if i < k * m {
        JoinedAt(k, i);
      } else {
        MaskIsMod(i, offsetBits);
        ModUnique(i, m, k, i - k * m);
      }
    }

    /** Segment and offset of an index lead to the element with that index. */
    lemma AddressesContents()
      requires Valid()
      ensures forall i: nat :: i < |Contents()| <==> GetSegment(i) < count
      ensures forall i: nat :: i < |Contents()| ==> Contents()[i] == segments[GetSegment(i)][GetOffset(i)]
    {
      hide Pow2, And, Joined, GetSegment, GetOffset;
      forall i: nat
        ensures i < |Contents()| <==> GetSegment(i) < count
        ensures i < |Contents()| ==> Contents()[i] == segments[GetSegment(i)][GetOffset(i)]
      {
        SegmentBelow(count, i);
        if i < |Contents()| {
          JoinedAt(count, i);
        }
      }
    }

    lemma SegmentBelow(n: nat, i: nat)
      ensures i < n * SegmentSize() <==> GetSegment(i) < n
    {
      hide Pow2;
      var m := SegmentSize();
      InLastSegment(i, n, m);
    }

    /** Segment and offset identify the element. */
    lemma SplitIsInjective(i: nat, j: nat)
      requires GetSegment(i) == GetSegment(j) && GetOffset(i) == GetOffset(j)
      ensures i == j
    {
      hide And, Pow2;
      MaskIsMod(i, offsetBits);
      MaskIsMod(j, offsetBits);
      DivModUnique(i, j, SegmentSize());
    }

    constructor (offsetBits: nat, segmentBits: nat)
      ensures this.offsetBits == offsetBits && this.segmentBits == segmentBits
      ensures Valid() && fresh(segments) && Contents() == []
    {
      this.offsetBits, this.segmentBits := offsetBits, segmentBits;
      segments := new array?<nat>[Pow2(segmentBits)](i => null);
      count := 0;
    }

    /** Allocates the missing segments up to the one of element target - 1. Elements that exist keep their values and
      * segments their place; zeros are added at the end. */
    method Allocate(target: nat)
      requires Valid() && (target > 0 ==> GetSegment(target - 1) < NumSegments())
      modifies this`count, segments
      ensures Valid() && |old(Contents())| <= |Contents()|
      ensures Contents()[..|old(Contents())|] == old(Contents())
      ensures forall i :: |old(Contents())| <= i < |Contents()| ==> Contents()[i] == 0
      ensures count ==
        if target == 0 || GetSegment(target - 1) < old(count) then old(count) else GetSegment(target - 1) + 1
      ensures count * SegmentSize() == AllocatedAfter(SegmentSize(), old(count) * SegmentSize(), target)
      ensures forall i :: 0 <= i < old(count) ==>
        segments[i] == old(segments[i]) && segments[i][..] == old(segments[i][..])
      ensures forall i :: old(count) <= i < count ==>
        fresh(segments[i]) && forall k :: 0 <= k < SegmentSize() ==> segments[i][k] == 0
    {
      ghost var before := Contents();
      AddressesContents();
      if target == 0 {
        return;
      }
      hide Pow2, And, Contents, GetSegment, GetOffset, AllocatedAfter;
      var lastSegment := GetSegment(target - 1);
      AllocatesWhole(target);
      var i := 0;
      while i <= lastSegment
        invariant Valid() && i <= lastSegment + 1
        invariant count == if i < old(count) then old(count) else i
        invariant forall k :: 0 <= k < old(count) ==>
          segments[k] == old(segments[k]) && segments[k][..] == old(segments[k][..])
        invariant forall j :: old(count) <= j < count ==>
          fresh(segments[j]) && forall k :: 0 <= k < SegmentSize() ==> segments[j][k] == 0
      {
        if segments[i] == null {
          var created := new nat[SegmentSize()](k => 0);
          segments[i] := created;
          count := count + 1;
        }
        i := i + 1;
      }
      Extended(before, old(count));
    }

    lemma AllocatesWhole(target: nat)
      requires target > 0
      ensures var last := GetSegment(target - 1);
        AllocatedAfter(SegmentSize(), count * SegmentSize(), target)
          == (if last < count then count else last + 1) * SegmentSize()
    {
      hide Pow2;
      WholeSegments(GetSegment(target - 1) + 1, count, SegmentSize());
    }

    /** Added segments of zeros leave the elements in front of them as they were. */
    lemma Extended(before: seq<nat>, was: nat)
      requires Valid() && was <= count && |before| == was * SegmentSize()
      requires forall i: nat :: i < |before| ==>
        GetSegment(i) < was && before[i] == segments[GetSegment(i)][GetOffset(i)]
      requires forall j :: was <= j < count ==> forall k :: 0 <= k < SegmentSize() ==> segments[j][k] == 0
      ensures |before| <= |Contents()| && Contents()[..|before|] == before
      ensures forall i :: |before| <= i < |Contents()| ==> Contents()[i] == 0
    {
      AddressesContents();
      hide Pow2, And, Contents, GetSegment, GetOffset;
      WholeSegments(was, count, SegmentSize());
      forall i: nat | |before| <= i < |Contents()|
        ensures Contents()[i] == 0
      {
        SegmentBelow(was, i);
      }
    }

    /** The number of elements that can be indexed from the beginning. */
    method AllocatedSize() returns (size: nat)
      requires Valid()
      ensures size == |Contents()|
    {
      var n := 0;
      while n < NumSegments() && segments[n] != null
        invariant n <= count
      {
        n := n + 1;
      }
      size := n * SegmentSize();
    }

    method Clear()
      requires Valid()
      modifies this`count, segments
      ensures Valid() && Contents() == []
    {
      var i := 0;
      while i < segments.Length
        invariant i <= segments.Length && segments.Length == NumSegments()
        invariant forall k :: 0 <= k < i ==> segments[k] == null
      {
        segments[i] := null;
        i := i + 1;
      }
      count := 0;
    }

    /** Every index below an allocated target is inside an allocated segment. */
    lemma IndexInRange(i: nat, target: nat)
      requires i < target && GetSegment(target - 1) < count
      ensures GetSegment(i) < count
    {
      DivMonotone(i, target - 1, SegmentSize());
    }

    method Get(i: nat) returns (x: nat)
      requires Valid() && GetSegment(i) < count
      ensures i < |Contents()| && x == Contents()[i]
    {
      AddressesContents();
      x := segments[GetSegment(i)][GetOffset(i)];
    }

    /** Writing one element changes no other. */
    method Set(i: nat, x: nat)
      requires Valid() && GetSegment(i) < count
      modifies segments[GetSegment(i)]
      ensures Valid() && i < |old(Contents())| && Contents() == old(Contents())[i := x]
    {
      ghost var before := Contents();
      AddressesContents();
      segments[GetSegment(i)][GetOffset(i)] := x;
      forall j: nat | j != i && GetSegment(j) == GetSegment(i)
        ensures GetOffset(j) != GetOffset(i)
      {
        if GetOffset(j) == GetOffset(i) {
          SplitIsInjective(i, j);
        }
      }
      hide And, Pow2, Contents;
      AddressesContents();
      forall j | 0 <= j < |before|
        ensures Contents()[j] == before[i := x][j]
      {
      }
    }
  }

  /** The segments of the lock array, whatever the granularity, are a whole number of locks and together make up
    * all of them. */
  lemma GranularityDivides(granularity: nat)
    requires granularity <= 16
    ensures Pow2(granularity) * Pow2(16 - granularity) == NUM_LOCKS
    ensures NUM_LOCKS % Pow2(16 - granularity) == 0
  {
    hide Pow2;
    Pow2Adds(granularity, 16 - granularity);
    WordIsPow2();
    ModUnique(NUM_LOCKS, Pow2(16 - granularity), Pow2(granularity), 0);
  }

  /** What construction and every doubling do: from then on each lock of the table can be indexed, the locks there
    * already were are untouched, and the array never outgrows its segments. */
  method AllocateForTable(locks: LazyArray, hp: nat)
    requires locks.Valid() && locks.segmentBits <= 16 && locks.offsetBits == 16 - locks.segmentBits
    modifies locks`count, locks.segments
    ensures locks.Valid() && LocksFor(hp) <= locks.count * locks.SegmentSize() <= NUM_LOCKS
    ensures forall i :: 0 <= i < LocksFor(hp) ==> locks.GetSegment(i) < locks.count
    ensures old(locks.count) <= locks.count
    ensures forall i :: 0 <= i < old(locks.count) ==>
      locks.segments[i] == old(locks.segments[i]) && locks.segments[i][..] == old(locks.segments[i][..])
  {
    hide Pow2, LocksFor, AllocatedAfter;
    LastLockInRange(locks, hp);
    locks.Allocate(LocksFor(hp));
    AllLocksInRange(locks, hp);
  }

  lemma LastLockInRange(locks: LazyArray, hp: nat)
    requires locks.count <= locks.NumSegments() && locks.segmentBits <= 16 && locks.offsetBits == 16 - locks.segmentBits
    ensures locks.GetSegment(LocksFor(hp) - 1) < locks.NumSegments()
    ensures locks.count * locks.SegmentSize() <= NUM_LOCKS && NUM_LOCKS % locks.SegmentSize() == 0
    ensures var have := locks.count * locks.SegmentSize();
      LocksFor(hp) <= AllocatedAfter(locks.SegmentSize(), have, LocksFor(hp)) <= NUM_LOCKS
  {
    hide Pow2, LocksFor, AllocatedAfter;
    var m := locks.SegmentSize();
    GranularityDivides(locks.segmentBits);
    WholeSegments(locks.count, locks.NumSegments(), m);
    AllocationCovers(m, locks.count * m, hp);
    InLastSegment(LocksFor(hp) - 1, locks.NumSegments(), m);
  }

  lemma InLastSegment(i: nat, n: nat, m: nat)
    requires m > 0
    ensures i < n * m <==> i / m < n
  {
    var q := i / m;
    assert i == m * q + i % m;
    assert n * m == m * q + m * (n - q);
    MulGap(m, n - q);
  }

  lemma AllLocksInRange(locks: LazyArray, hp: nat)
    requires LocksFor(hp) <= locks.count * locks.SegmentSize()
    ensures forall i :: 0 <= i < LocksFor(hp) ==> locks.GetSegment(i) < locks.count
  {
    hide Pow2, LocksFor;
    var m := locks.SegmentSize();
    forall i | 0 <= i < LocksFor(hp)
      ensures locks.GetSegment(i) < locks.count
    {
      InLastSegment(i, locks.count, m);
    }
  }

  lemma DivModUnique(i: nat, j: nat, m: nat)
    requires m > 0 && i / m == j / m && i % m == j % m
    ensures i == j
  {
    assert i == m * (i / m) + i % m && j == m * (j / m) + j % m;
  }

  lemma WholeSegments(a: nat, b: nat, m: nat)
    requires m > 0
    ensures a * m > b * m <==> a > b
  {
    MulGap(m, a - b);
    assert a * m == b * m + m * (a - b);
  }
}
