/** The datagram queue that makes room for a new item by dropping its oldest ones. */
module DatagramQueues {
  import opened Common
  import opened ByteBuffers

  /** The sum of the sizes from position `i` on. */
  ghost function Sum(sizes: seq<nat>, i: nat): nat
    decreases |sizes| - i
  {
    if i >= |sizes| then 0 else sizes[i] + Sum(sizes, i + 1)
  }

  /** How many items have to go, the oldest first, until the rest fits into `room`. */
  ghost function Dropped(sizes: seq<nat>, i: nat, room: nat): (k: nat)
    requires i <= |sizes|
    ensures i <= k <= |sizes|
    decreases |sizes| - i
  {
    if Sum(sizes, i) <= room then i else Dropped(sizes, i + 1, room)
  }

  /** What is kept is the longest suffix that fits. */
  lemma {:induction false} KeepsLongestSuffix(sizes: seq<nat>, i: nat, room: nat)
    requires i <= |sizes|
    ensures Sum(sizes, Dropped(sizes, i, room)) <= room
    ensures forall j :: i <= j < Dropped(sizes, i, room) ==> Sum(sizes, j) > room
    decreases |sizes| - i
  {
    if Sum(sizes, i) > room {
      KeepsLongestSuffix(sizes, i + 1, room);
    }
  }

  /** Dropping a front and appending an item changes the sum accordingly. */
  lemma {:induction false} SumOfSuffix(sizes: seq<nat>, k: nat, i: nat)
    requires k + i <= |sizes|
    ensures Sum(sizes[k..], i) == Sum(sizes, k + i)
    decreases |sizes| - i
  {
    if k + i < |sizes| {
      SumOfSuffix(sizes, k, i + 1);
    }
  }

  lemma {:induction false} SumOfAppend(sizes: seq<nat>, size: nat, i: nat)
    requires i <= |sizes|
    ensures Sum(sizes + [size], i) == Sum(sizes, i) + size
    decreases |sizes| - i
  {
    if i < |sizes| {
      SumOfAppend(sizes, size, i + 1);
    }
  }

  /** `ticket` numbers the items in the order of submission; the C++ has no such field. */
  datatype QueueItem = QueueItem(memSize: nat, buffer: Buffer, remoteHost: string, remotePort: nat, ticket: nat)

  ghost function MemSizes(items: seq<QueueItem>): (sizes: seq<nat>)
    ensures |sizes| == |items|
  {
    seq(|items|, i requires 0 <= i < |items| => items[i].memSize)
  }

  lemma MemSizesOfSuffix(items: seq<QueueItem>, k: nat)
    requires k <= |items|
    ensures MemSizes(items[k..]) == MemSizes(items)[k..]
  {
  }

  /**
   The queue after `Push`, and whether something was discarded: an item that cannot fit is refused, else
   the queue becomes its longest suffix that fits together with the item, and the item.
   */
  ghost function Pushed(queue: seq<QueueItem>, item: QueueItem, limit: nat): (seq<QueueItem>, bool) {
    if item.memSize > limit then (queue, true)
    else
      var k := Dropped(MemSizes(queue), 0, limit - item.memSize);
      (queue[k..] + [item], k > 0)
  }

  /**
   An item that cannot fit changes nothing. Else no longer suffix of the queue would have fitted
   together with the item.
   */
  lemma PushedIsLongest(queue: seq<QueueItem>, item: QueueItem, limit: nat)
    ensures item.memSize > limit ==> Pushed(queue, item, limit).0 == queue && Pushed(queue, item, limit).1
    ensures item.memSize <= limit ==>
              var (after, discarded) := Pushed(queue, item, limit);
              var k := |queue| + 1 - |after|;
              && 0 <= k <= |queue| && after == queue[k..] + [item] && (discarded <==> k > 0)
              && Sum(MemSizes(after), 0) <= limit
              && forall j :: 0 <= j < k ==> Sum(MemSizes(queue[j..] + [item]), 0) > limit
  {
    if item.memSize <= limit {
      AcceptedIsLongest(queue, item, limit);
    }
  }

  lemma AcceptedIsLongest(queue: seq<QueueItem>, item: QueueItem, limit: nat)
    requires item.memSize <= limit
    ensures var (after, discarded) := Pushed(queue, item, limit);
            var k := |queue| + 1 - |after|;
            && 0 <= k <= |queue| && after == queue[k..] + [item] && (discarded <==> k > 0)
            && Sum(MemSizes(after), 0) <= limit
            && forall j :: 0 <= j < k ==> Sum(MemSizes(queue[j..] + [item]), 0) > limit
  {
    var k := Dropped(MemSizes(queue), 0, limit - item.memSize);
    KeepsLongestSuffix(MemSizes(queue), 0, limit - item.memSize);
    forall j | 0 <= j <= k
      ensures Sum(MemSizes(queue[j..] + [item]), 0) == Sum(MemSizes(queue), j) + item.memSize
    {
      assert MemSizes(queue[j..] + [item]) == MemSizes(queue)[j..] + [item.memSize];
      SumOfAppend(MemSizes(queue)[j..], item.memSize, 0);
      SumOfSuffix(MemSizes(queue), j, 0);
    }
  }

  class DatagramQueue {
    var memSize: nat
    var memSizeLimit: nat
    var queue: seq<QueueItem>

    ghost predicate Valid()
      reads this
    {
      memSize == Sum(MemSizes(queue), 0) && memSize <= memSizeLimit
    }

    constructor ()
      ensures Valid() && queue == [] && memSizeLimit == 2 * 1024 * 1024
    {
      memSize, memSizeLimit, queue := 0, 2 * 1024 * 1024, [];
    }

    method Pop()
      requires memSize == Sum(MemSizes(queue), 0)
      modifies this`memSize, this`queue
      ensures memSize == Sum(MemSizes(queue), 0) && memSize <= old(memSize)
      ensures queue == if old(queue) == [] then [] else old(queue)[1..]
    {
      if queue != [] {
        SumOfSuffix(MemSizes(queue), 1, 0);
        assert MemSizes(queue)[1..] == MemSizes(queue[1..]);
        memSize := memSize - queue[0].memSize;
        queue := queue[1..];
      }
    }

    method Push(item: QueueItem) returns (datagramsDiscarded: bool)
      requires Valid()
      modifies this`memSize, this`queue
      ensures Valid() && (queue, datagramsDiscarded) == Pushed(old(queue), item, memSizeLimit)
    {
      datagramsDiscarded := false;
      if memSizeLimit < item.memSize {
        return true;
      }
      datagramsDiscarded := MakeRoom(item.memSize);
      SumOfAppend(MemSizes(queue), item.memSize, 0);
      assert MemSizes(queue + [item]) == MemSizes(queue) + [item.memSize];
      queue := queue + [item];
      memSize := memSize + item.memSize;
    }

    /** The eviction loop of `Push`. */
    method MakeRoom(size: nat) returns (datagramsDiscarded: bool)
      requires memSize == Sum(MemSizes(queue), 0) && size <= memSizeLimit
      modifies this`memSize, this`queue
      ensures memSize == Sum(MemSizes(queue), 0) && memSize + size <= memSizeLimit
      ensures var k := Dropped(MemSizes(old(queue)), 0, memSizeLimit - size);
              queue == old(queue)[k..] && (datagramsDiscarded <==> k > 0)
    {
      datagramsDiscarded := false;
      ghost var sizes, dropped := MemSizes(queue), 0;
      while memSize > memSizeLimit || memSizeLimit - memSize < size
        invariant dropped <= |sizes| && queue == old(queue)[dropped..]
        invariant memSize == Sum(MemSizes(queue), 0) == Sum(sizes, dropped)
        invariant Dropped(sizes, 0, memSizeLimit - size) == Dropped(sizes, dropped, memSizeLimit - size)
        invariant datagramsDiscarded <==> dropped > 0
        decreases |queue|
      {
        Pop();
        datagramsDiscarded := true;
        dropped := dropped + 1;
        SumOfSuffix(sizes, dropped, 0);
        MemSizesOfSuffix(old(queue), dropped);
      }
    }

    method Clear()
      modifies this`memSize, this`queue
      ensures Valid() && queue == []
    {
      queue := [];
      memSize := 0;
    }

    method SetMemSizeLimit(limit: nat)
      requires Valid()
      modifies this
      ensures Valid() && memSizeLimit == limit
      ensures queue == old(queue)[Dropped(MemSizes(old(queue)), 0, limit)..]
    {
      memSizeLimit := limit;
      ghost var sizes, dropped := MemSizes(queue), 0;
      while memSize > memSizeLimit
        invariant memSizeLimit == limit
        invariant dropped <= |sizes| && queue == old(queue)[dropped..]
        invariant memSize == Sum(MemSizes(queue), 0) == Sum(sizes, dropped)
        invariant Dropped(sizes, 0, limit) == Dropped(sizes, dropped, limit)
        decreases |queue|
      {
        Pop();
        dropped := dropped + 1;
        SumOfSuffix(sizes, dropped, 0);
        MemSizesOfSuffix(old(queue), dropped);
      }
    }
  }
}
