/**
 The receiving half of a UDP socket. It shares no field with the sending half. What Asio receives is
 copied into a buffer of its own, which receive() later hands to the client.
 */
module UdpReceivers {
  import opened Common
  import opened ByteBuffers
  import opened DatagramQueues

  /** The limit of the receive queue, which is never changed, and the size of Asio's block. */
  const LIMIT: nat := 2 * 1024 * 1024
  const MAX_DATAGRAM: nat := 65536

  datatype Arrival = Arrival(payload: seq<byte>, host: string, port: nat)

  /**
   Everything that arrived; of it the queue holds what came from `oldest` on. `taken` are the positions
   of the datagrams that receive() has returned.
   */
  datatype Reception = Reception(arrived: seq<Arrival>, oldest: nat, taken: seq<nat>)

  const NOTHING := Reception([], 0, [])

  datatype Event = Arrived(d: Arrival) | Receive | Close

  ghost function Sizes(overhead: nat, arrived: seq<Arrival>): (sizes: seq<nat>)
    ensures |sizes| == |arrived|
  {
    seq(|arrived|, i requires 0 <= i < |arrived| => overhead + |arrived[i].payload|)
  }

  /** Every datagram that can arrive fits into an empty queue. */
  ghost predicate Enabled(overhead: nat, r: Reception, e: Event) {
    overhead + MAX_DATAGRAM <= LIMIT && r.oldest <= |r.arrived| && (e.Arrived? ==> |e.d.payload| <= MAX_DATAGRAM)
  }

  ghost function Step(overhead: nat, r: Reception, e: Event): (n: Reception)
    requires Enabled(overhead, r, e)
    ensures n.oldest <= |n.arrived|
  {
    match e
    case Arrived(d) =>
      var room := LIMIT - (overhead + |d.payload|);
      r.(arrived := r.arrived + [d], oldest := Dropped(Sizes(overhead, r.arrived), r.oldest, room))
    case Receive => if r.oldest < |r.arrived| then r.(oldest := r.oldest + 1, taken := r.taken + [r.oldest]) else r
    case Close => r.(oldest := |r.arrived|)
  }

  ghost predicate Legal(overhead: nat, r: Reception, es: seq<Event>)
    decreases |es|
  {
    es == [] || (Enabled(overhead, r, es[0]) && Legal(overhead, Step(overhead, r, es[0]), es[1..]))
  }

  ghost function After(overhead: nat, r: Reception, es: seq<Event>): Reception
    requires Legal(overhead, r, es)
    decreases |es|
  {
    if es == [] then r else After(overhead, Step(overhead, r, es[0]), es[1..])
  }

  // ----- what holds over every run -----

  /** What the datagrams from position i to before position j take up together. */
  ghost function Span(overhead: nat, arrived: seq<Arrival>, i: nat, j: nat): nat
    requires j <= |arrived|
  {
    Sum(Sizes(overhead, arrived[..j]), i)
  }

  /** Datagram `i` and those that arrived after it, up to some later one, together exceed the limit. */
  ghost predicate Crowded(overhead: nat, arrived: seq<Arrival>, i: nat) {
    exists j :: i + 2 <= j <= |arrived| && Span(overhead, arrived, i, j) > LIMIT
  }

  ghost predicate Inv(overhead: nat, r: Reception) {
    && r.oldest <= |r.arrived| && Sum(Sizes(overhead, r.arrived), r.oldest) <= LIMIT
    && (forall j, k :: 0 <= j < k < |r.taken| ==> r.taken[j] < r.taken[k])
    && (forall k :: 0 <= k < |r.taken| ==> r.taken[k] < r.oldest)
  }

  /** What left the queue without being taken had to make room. */
  ghost predicate LostForRoom(overhead: nat, r: Reception) {
    forall i :: 0 <= i < r.oldest && i !in r.taken ==> Crowded(overhead, r.arrived, i)
  }

  lemma StaysCrowded(overhead: nat, arrived: seq<Arrival>, d: Arrival, i: nat)
    requires Crowded(overhead, arrived, i)
    ensures Crowded(overhead, arrived + [d], i)
  {
    var j :| i + 2 <= j <= |arrived| && Span(overhead, arrived, i, j) > LIMIT;
    assert (arrived + [d])[..j] == arrived[..j];
    assert Span(overhead, arrived + [d], i, j) > LIMIT;
  }

  lemma ArrivalKeeps(overhead: nat, r: Reception, d: Arrival)
    requires Inv(overhead, r) && Enabled(overhead, r, Arrived(d))
    ensures Inv(overhead, Step(overhead, r, Arrived(d)))
    ensures LostForRoom(overhead, r) ==> LostForRoom(overhead, Step(overhead, r, Arrived(d)))
  {
    var n, size, sizes := Step(overhead, r, Arrived(d)), overhead + |d.payload|, Sizes(overhead, r.arrived);
    KeepsLongestSuffix(sizes, r.oldest, LIMIT - size);
    assert Sizes(overhead, n.arrived) == sizes + [size];
    SumOfAppend(sizes, size, n.oldest);
    forall i | 0 <= i < n.oldest && i !in n.taken && LostForRoom(overhead, r)
      ensures Crowded(overhead, n.arrived, i)
    {
      if i < r.oldest {
        StaysCrowded(overhead, r.arrived, d, i);
      } else {
        SumOfAppend(sizes, size, i);
        assert n.arrived[..|n.arrived|] == n.arrived;
        assert Span(overhead, n.arrived, i, |n.arrived|) > LIMIT;
      }
    }
  }

  lemma ReceiveKeeps(overhead: nat, r: Reception)
    requires Inv(overhead, r) && Enabled(overhead, r, Receive)
    ensures Inv(overhead, Step(overhead, r, Receive))
    ensures LostForRoom(overhead, r) ==> LostForRoom(overhead, Step(overhead, r, Receive))
  {
    var n := Step(overhead, r, Receive);
    if r.oldest < |r.arrived| {
      assert n.taken[|r.taken|] == r.oldest;
      assert forall i :: i in r.taken ==> i in n.taken;
    }
  }

  lemma {:induction false} RunKeeps(overhead: nat, r: Reception, es: seq<Event>)
    requires Inv(overhead, r) && Legal(overhead, r, es)
    ensures Inv(overhead, After(overhead, r, es))
    ensures LostForRoom(overhead, r) && Close !in es ==> LostForRoom(overhead, After(overhead, r, es))
    decreases |es|
  {
    if es != [] {
      match es[0] {
        case Arrived(d) => ArrivalKeeps(overhead, r, d);
        case Receive => ReceiveKeeps(overhead, r);
        case Close => assert es[0] in es;
      }
      RunKeeps(overhead, Step(overhead, r, es[0]), es[1..]);
    }
  }

  // ----- told from the events -----

  /** Everything that comes in. */
  function Arrivals(es: seq<Event>): seq<Arrival> {
    if es == [] then [] else (if es[0].Arrived? then [es[0].d] else []) + Arrivals(es[1..])
  }

  /** The positions of the datagrams that the receive() calls of a run return. */
  ghost function Returned(overhead: nat, r: Reception, es: seq<Event>): seq<nat>
    requires Legal(overhead, r, es)
    decreases |es|
  {
    if es == [] then []
    else
      (if es[0].Receive? && r.oldest < |r.arrived| then [r.oldest] else []) + Returned(overhead, Step(overhead, r, es[0]), es[1..])
  }

  lemma {:induction false} RunRecords(overhead: nat, r: Reception, es: seq<Event>)
    requires Legal(overhead, r, es)
    ensures After(overhead, r, es).arrived == r.arrived + Arrivals(es)
    ensures After(overhead, r, es).taken == r.taken + Returned(overhead, r, es)
    decreases |es|
  {
    if es != [] {
      var n := Step(overhead, r, es[0]);
      RunRecords(overhead, n, es[1..]);
      Grouped(r.arrived, if es[0].Arrived? then [es[0].d] else [], Arrivals(es[1..]));
      Grouped(r.taken, if es[0].Receive? && r.oldest < |r.arrived| then [r.oldest] else [], Returned(overhead, n, es[1..]));
      assert r.arrived + [] == r.arrived && r.taken + [] == r.taken;
    }
  }

  /**
   Over every run, receive() returns datagrams in the order of their arrival, each at most once; and as
   long as the socket is not closed a datagram that is neither returned nor waiting is lost because it
   and later ones exceed the limit.
   */
  lemma ReceivedInOrder(overhead: nat, es: seq<Event>)
    requires Legal(overhead, NOTHING, es)
    ensures var r, got := After(overhead, NOTHING, es), Returned(overhead, NOTHING, es);
            && r.arrived == Arrivals(es) && r.oldest <= |r.arrived|
            && (forall j, k :: 0 <= j < k < |got| ==> got[j] < got[k])
            && (forall k :: 0 <= k < |got| ==> got[k] < r.oldest)
            && (Close !in es ==> forall i :: 0 <= i < r.oldest ==> i in got || Crowded(overhead, r.arrived, i))
  {
    RunKeeps(overhead, NOTHING, es);
    RunFromNothing(overhead, es);
  }

  lemma RunFromNothing(overhead: nat, es: seq<Event>)
    requires Legal(overhead, NOTHING, es)
    ensures var r := After(overhead, NOTHING, es); r.arrived == Arrivals(es) && r.taken == Returned(overhead, NOTHING, es)
  {
    RunRecords(overhead, NOTHING, es);
    Grouped([], [], Arrivals(es));
    Grouped([], [], Returned(overhead, NOTHING, es));
  }

  lemma StepAdvances(overhead: nat, r: Reception, e: Event)
    requires Enabled(overhead, r, e)
    ensures r.oldest <= Step(overhead, r, e).oldest
  {
  }

  lemma {:induction false} ReturnedFromOldest(overhead: nat, r: Reception, es: seq<Event>)
    requires Legal(overhead, r, es)
    ensures forall k :: 0 <= k < |Returned(overhead, r, es)| ==> Returned(overhead, r, es)[k] >= r.oldest
    decreases |es|
  {
    if es != [] {
      StepAdvances(overhead, r, es[0]);
      ReturnedFromOldest(overhead, Step(overhead, r, es[0]), es[1..]);
    }
  }

  lemma {:induction false} AfterConcat(overhead: nat, r: Reception, a: seq<Event>, b: seq<Event>)
    requires Legal(overhead, r, a + b)
    ensures Legal(overhead, r, a) && Legal(overhead, After(overhead, r, a), b)
    decreases |a|
  {
    if a == [] {
      assert a + b == b;
    } else {
      assert (a + b)[1..] == a[1..] + b;
      AfterConcat(overhead, Step(overhead, r, a[0]), a[1..], b);
    }
  }

  /** What arrived before a close is never returned after it. */
  lemma ClosedForGood(overhead: nat, a: seq<Event>, b: seq<Event>)
    requires Legal(overhead, NOTHING, a + ([Close] + b))
    ensures Legal(overhead, NOTHING, a) && Legal(overhead, After(overhead, NOTHING, a), [Close] + b)
    ensures var got := Returned(overhead, After(overhead, NOTHING, a), [Close] + b);
            forall k :: 0 <= k < |got| ==> got[k] >= |Arrivals(a)|
  {
    AfterConcat(overhead, NOTHING, a, [Close] + b);
    RunFromNothing(overhead, a);
    var r := After(overhead, NOTHING, a);
    assert ([Close] + b)[0] == Close && ([Close] + b)[1..] == b;
    ReturnedFromOldest(overhead, Step(overhead, r, Close), b);
    assert Returned(overhead, r, [Close] + b) == [] + Returned(overhead, Step(overhead, r, Close), b);
  }

  /** The items to drop from a suffix are the items to drop from the whole, counted from the suffix on. */
  lemma {:induction false} DroppedOfSuffix(sizes: seq<nat>, k: nat, i: nat, room: nat)
    requires k + i <= |sizes|
    ensures k + Dropped(sizes[k..], i, room) == Dropped(sizes, k + i, room)
    decreases |sizes| - i
  {
    SumOfSuffix(sizes, k, i);
    if Sum(sizes, k + i) > room {
      assert k + i < |sizes|;
      DroppedOfSuffix(sizes, k, i + 1, room);
    }
  }

  // ----- the object -----

  class UdpReceiver {
    const overhead: nat
    const receivequeue: DatagramQueue
    var receiveBuffer: Buffer
    var remoteIp: string
    var remotePort: nat
    ghost var history: Reception
    ghost var Repr: set<object>

    ghost predicate Holds(item: QueueItem, d: Arrival)
      reads item.buffer
    {
      && item.buffer.data == d.payload && item.buffer.readIndex == 0
      && item.memSize == overhead + |d.payload| && item.remoteHost == d.host && item.remotePort == d.port
    }

    ghost predicate HoldsAll(items: seq<QueueItem>, from: nat, arrived: seq<Arrival>)
      reads set item | item in items :: item.buffer
    {
      |arrived| == from + |items| && forall j :: 0 <= j < |items| ==> Holds(items[j], arrived[from + j])
    }

    /** Every buffer has one owner: a queue item, or the client. */
    static ghost predicate Unshared(items: seq<QueueItem>, client: Buffer) {
      && (forall j, k :: 0 <= j < k < |items| ==> items[j].buffer != items[k].buffer)
      && (forall j :: 0 <= j < |items| ==> items[j].buffer != client)
    }

    ghost predicate Owns()
      reads this, receivequeue`queue
    {
      && {this, receivequeue, receiveBuffer} <= Repr
      && forall j :: 0 <= j < |receivequeue.queue| ==> receivequeue.queue[j].buffer in Repr
    }

    ghost predicate Valid()
      reads this, receivequeue, Repr
    {
      && Owns() && overhead + MAX_DATAGRAM <= LIMIT
      && receivequeue.Valid() && receivequeue.memSizeLimit == LIMIT
      && HoldsAll(receivequeue.queue, history.oldest, history.arrived) && Unshared(receivequeue.queue, receiveBuffer)
      && receiveBuffer.Valid()
    }

    constructor (overhead: nat)
      requires overhead + MAX_DATAGRAM <= LIMIT
      ensures Valid() && fresh(Repr) && history == NOTHING && this.overhead == overhead
    {
      this.overhead := overhead;
      receivequeue := new DatagramQueue();
      receiveBuffer := new Buffer();
      remoteIp, remotePort, history := "", 0, NOTHING;
      Repr := {this, receivequeue, receiveBuffer};
    }

    lemma SameSizes()
      requires Valid()
      ensures MemSizes(receivequeue.queue) == Sizes(overhead, history.arrived)[history.oldest..]
    {
    }

    /** A received datagram is copied out of Asio's block, which the next one may overwrite. */
    method HandleReceive(ok: bool, recvbuffer: array<byte>, bytesTransferred: nat, host: string, port: nat)
      requires Valid() && bytesTransferred <= recvbuffer.Length == MAX_DATAGRAM
      modifies this`history, this`Repr, receivequeue
      ensures Valid() && fresh(Repr - old(Repr))
      ensures history == if ok then Step(overhead, old(history), Arrived(Arrival(recvbuffer[..bytesTransferred], host, port)))
                         else old(history)
    {
      if ok {
        var buffer := new Buffer();
        buffer.Write(recvbuffer[..bytesTransferred]);
        assert buffer.data == recvbuffer[..bytesTransferred];
        Repr := Repr + {buffer};
        Enqueue(buffer, host, port);
      }
    }

    lemma HoldsSuffix(items: seq<QueueItem>, from: nat, arrived: seq<Arrival>, k: nat)
      requires HoldsAll(items, from, arrived) && k <= |items|
      ensures HoldsAll(items[k..], from + k, arrived)
    {
    }

    lemma HoldsMore(items: seq<QueueItem>, from: nat, arrived: seq<Arrival>, item: QueueItem, d: Arrival)
      requires HoldsAll(items, from, arrived) && Holds(item, d)
      ensures HoldsAll(items + [item], from, arrived + [d])
    {
    }

    static lemma UnsharedAfter(items: seq<QueueItem>, client: Buffer, k: nat, item: QueueItem)
      requires Unshared(items, client) && k <= |items| && item.buffer != client
      requires forall j :: 0 <= j < |items| ==> items[j].buffer != item.buffer
      ensures Unshared(items[k..] + [item], client)
    {
    }

    method Enqueue(buffer: Buffer, host: string, port: nat)
      requires Valid() && |buffer.data| <= MAX_DATAGRAM && buffer.readIndex == 0 && buffer in Repr
      requires buffer != receiveBuffer && forall j :: 0 <= j < |receivequeue.queue| ==> receivequeue.queue[j].buffer != buffer
      modifies this`history, receivequeue
      ensures Valid() && history == Step(overhead, old(history), Arrived(Arrival(buffer.data, host, port)))
    {
      var item := QueueItem(overhead + buffer.Size(), buffer, host, port, 0);
      ghost var items, next := Arriving(item, Arrival(buffer.data, host, port));
      var discarded := receivequeue.Push(item);
      history := next;
    }

    /** What the queue and the reception are once the item is pushed. */
    lemma Arriving(item: QueueItem, d: Arrival) returns (items: seq<QueueItem>, next: Reception)
      requires Valid() && |d.payload| <= MAX_DATAGRAM && Holds(item, d) && item.buffer in Repr
      requires item.buffer != receiveBuffer && forall j :: 0 <= j < |receivequeue.queue| ==> receivequeue.queue[j].buffer != item.buffer
      ensures items == Pushed(receivequeue.queue, item, LIMIT).0
      ensures next == Step(overhead, history, Arrived(d))
      ensures HoldsAll(items, next.oldest, next.arrived) && Unshared(items, receiveBuffer)
      ensures forall j :: 0 <= j < |items| ==> items[j].buffer in Repr
    {
      var was, k := receivequeue.queue, Dropped(MemSizes(receivequeue.queue), 0, LIMIT - item.memSize);
      SameSizes();
      DroppedOfSuffix(Sizes(overhead, history.arrived), history.oldest, 0, LIMIT - item.memSize);
      HoldsSuffix(was, history.oldest, history.arrived, k);
      HoldsMore(was[k..], history.oldest + k, history.arrived, item, d);
      UnsharedAfter(was, receiveBuffer, k, item);
      items, next := was[k..] + [item], Step(overhead, history, Arrived(d));
    }

    /** What stays in the queue once the oldest datagram goes to the client. */
    lemma Taking()
      requires Valid() && receivequeue.queue != []
      ensures var items, next := receivequeue.queue[1..], Step(overhead, history, Event.Receive);
              && HoldsAll(items, next.oldest, next.arrived) && Unshared(items, receivequeue.queue[0].buffer)
              && Holds(receivequeue.queue[0], history.arrived[history.oldest])
    {
      HoldsSuffix(receivequeue.queue, history.oldest, history.arrived, 1);
    }

    method Receive() returns (ok: bool)
      requires Valid()
      modifies this`receiveBuffer, this`remoteIp, this`remotePort, this`history, receivequeue, receiveBuffer
      ensures Valid() && history == Step(overhead, old(history), Event.Receive)
      ensures ok <==> old(history.oldest) < |old(history.arrived)|
      ensures receiveBuffer.readIndex == 0
      ensures Arrival(receiveBuffer.data, remoteIp, remotePort) ==
                if ok then old(history.arrived[history.oldest]) else Arrival([], "", 0)
    {
      if receivequeue.queue == [] {
        receiveBuffer.Clear();
        remoteIp, remotePort := "", 0;
        return false;
      }
      var item := receivequeue.queue[0];
      Taking();
      receiveBuffer, remoteIp, remotePort := item.buffer, item.remoteHost, item.remotePort;
      receivequeue.Pop();
      history := Step(overhead, history, Event.Receive);
      return true;
    }

    method Close()
      requires Valid()
      modifies this`history, receivequeue, receiveBuffer
      ensures Valid() && history == Step(overhead, old(history), Event.Close)
      ensures receiveBuffer.data == []
    {
      receivequeue.Clear();
      receiveBuffer.Clear();
      history := Step(overhead, history, Event.Close);
    }
  }

  /** One event: a client call, or a datagram that comes in through Asio's block. */
  method Perform(s: UdpReceiver, e: Event, recvbuffer: array<byte>)
    requires s.Valid() && Enabled(s.overhead, s.history, e)
    requires recvbuffer.Length == MAX_DATAGRAM && recvbuffer !in s.Repr
    modifies s.Repr, recvbuffer
    ensures s.Valid() && s.history == Step(s.overhead, old(s.history), e)
    ensures fresh(s.Repr - old(s.Repr)) && recvbuffer !in s.Repr
  {
    match e {
      case Arrived(d) =>
        forall i | 0 <= i < |d.payload| {
          recvbuffer[i] := d.payload[i];
        }
        assert recvbuffer[..|d.payload|] == d.payload;
        s.HandleReceive(true, recvbuffer, |d.payload|, d.host, d.port);
      case Receive => var ok := s.Receive();
      case Close => s.Close();
    }
  }

  /** One block serves all datagrams of a run: those queued earlier stay what they are. */
  method Run(s: UdpReceiver, es: seq<Event>)
    requires s.Valid() && Legal(s.overhead, s.history, es)
    modifies s.Repr
    ensures s.Valid() && s.history == After(s.overhead, old(s.history), es) && fresh(s.Repr - old(s.Repr))
  {
    var recvbuffer := new byte[MAX_DATAGRAM];
    assert es[0..] == es;
    for i := 0 to |es|
      invariant s.Valid() && fresh(s.Repr - old(s.Repr)) && recvbuffer !in s.Repr
      invariant Legal(s.overhead, s.history, es[i..])
      invariant After(s.overhead, s.history, es[i..]) == After(s.overhead, old(s.history), es)
    {
      assert es[i..][0] == es[i] && es[i..][1..] == es[i + 1..];
      Perform(s, es[i], recvbuffer);
    }
  }
}
