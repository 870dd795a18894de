/**
 The UDP socket's sending side. Payload buffers are heap objects shared between the socket, its
 queue items and Asio; `Linked` reads them through those references. `Valid` adds that the buffer
 being written is shared with nobody, which is why later writes cannot change a submitted payload.
 */
module UdpSockets {
  import opened Common
  import opened AddressOrder
  import opened ByteBuffers
  import opened DatagramQueues
  import U = UdpProtocol

  class UdpSocket {
    const cfg: U.Config
    const sendqueue: DatagramQueue
    var asyncSendInProgress: bool
    var sendBuffer: Buffer
    // what Asio holds for the handler of the operation in progress
    var buffer: Buffer?
    var looking: bool
    var target: Endpoint
    var endpoints: V4FirstIterator?
    var nextTicket: nat
    ghost var world: U.World
    ghost var Repr: set<object>

    /** No queue item and no operation in progress refers to the buffer being written. */
    ghost predicate Private()
      reads this`sendBuffer, this`buffer, sendqueue`queue
    {
      buffer != sendBuffer && forall j :: 0 <= j < |sendqueue.queue| ==> sendqueue.queue[j].buffer != sendBuffer
    }

    ghost predicate SameItem(item: QueueItem, d: U.Datagram)
      reads item.buffer
    {
      && item.ticket == d.ticket && item.remoteHost == d.host && item.remotePort == d.port
      && item.buffer.data == d.payload && item.memSize == cfg.overhead + |d.payload|
    }

    ghost predicate SameQueue(items: seq<QueueItem>, queue: seq<U.Datagram>)
      reads set item | item in items :: item.buffer
    {
      |items| == |queue| && forall j :: 0 <= j < |items| ==> SameItem(items[j], queue[j])
    }

    ghost predicate SameOp(op: U.Op)
      reads this, buffer, endpoints
    {
      match op
      case Idle => !asyncSendInProgress && buffer == null
      case Looking(d) => asyncSendInProgress && looking && buffer != null && buffer.data == d.payload
      case Transmitting(d, to, rest) =>
        && asyncSendInProgress && !looking && buffer != null && buffer.data == d.payload
        && target == to && endpoints != null && endpoints.Valid() && endpoints.Remaining() == rest
    }

    /** Everything the methods may change. */
    ghost predicate Owns()
      reads this, sendqueue`queue
    {
      && {this, sendqueue, sendBuffer} <= Repr
      && (endpoints != null ==> endpoints in Repr) && (buffer != null ==> buffer in Repr)
      && forall j :: 0 <= j < |sendqueue.queue| ==> sendqueue.queue[j].buffer in Repr
    }

    /** The object is in the state `world` of the machine. */
    ghost predicate Linked()
      reads this, sendqueue, Repr
    {
      && Owns() && sendqueue.Valid() && sendqueue.memSizeLimit == world.s.limit
      && SameQueue(sendqueue.queue, world.s.queue) && SameOp(world.s.op)
      && sendBuffer.Valid() && sendBuffer.data == world.s.sendBuffer
      && nextTicket == |world.h.submitted|
    }

    /** While a handler runs, its endpoints are its own; all else is as linked. */
    ghost predicate Handling()
      reads this, sendqueue, Repr
    {
      && Owns() && sendqueue.Valid() && sendqueue.memSizeLimit == world.s.limit
      && SameQueue(sendqueue.queue, world.s.queue)
      && !world.s.op.Idle? && asyncSendInProgress && buffer != null && buffer.data == world.s.op.d.payload
      && sendBuffer.Valid() && sendBuffer.data == world.s.sendBuffer
      && nextTicket == |world.h.submitted|
    }

    /** At a step boundary nobody else refers to the buffer being written. */
    ghost predicate Valid()
      reads this, sendqueue, Repr
    {
      Linked() && Private()
    }

    constructor (cfg: U.Config)
      ensures Valid() && fresh(Repr) && this.cfg == cfg && world == U.NewWorld(2 * 1024 * 1024)
    {
      this.cfg := cfg;
      sendqueue := new DatagramQueue();
      sendBuffer := new Buffer();
      asyncSendInProgress, buffer, looking, target, endpoints, nextTicket := false, null, false, DEFAULT_ENDPOINT, null, 0;
      world := U.NewWorld(2 * 1024 * 1024);
      Repr := {this, sendqueue, sendBuffer};
    }

    method Write(bytes: seq<byte>)
      requires Valid()
      modifies this`world, sendBuffer
      ensures Valid() && world == U.Step(cfg, old(world), U.Write(bytes))
    {
      sendBuffer.Write(bytes);
      world := world.(s := world.s.(sendBuffer := world.s.sendBuffer + bytes));
    }

    lemma SameSizes(items: seq<QueueItem>, queue: seq<U.Datagram>)
      requires SameQueue(items, queue)
      ensures MemSizes(items) == U.Sizes(cfg, queue)
    {
    }

    lemma SameSuffix(items: seq<QueueItem>, queue: seq<U.Datagram>, k: nat)
      requires SameQueue(items, queue) && k <= |items|
      ensures SameQueue(items[k..], queue[k..])
    {
    }

    lemma SameWithOneMore(items: seq<QueueItem>, queue: seq<U.Datagram>, item: QueueItem, d: U.Datagram)
      requires SameQueue(items, queue) && SameItem(item, d)
      ensures SameQueue(items + [item], queue + [d])
    {
    }

    /** What the queue and the machine are once the item is pushed. */
    lemma Pushed(item: QueueItem) returns (items: seq<QueueItem>, next: U.World, discarded: bool)
      requires Linked() && item.buffer == sendBuffer && item.memSize == cfg.overhead + |sendBuffer.data| && item.ticket == nextTicket
      ensures (next, discarded) == U.Enqueue(cfg, world, item.remoteHost, item.remotePort)
      ensures next.s.op == world.s.op && next.s.limit == world.s.limit && next.s.sendBuffer == world.s.sendBuffer
      ensures |next.h.submitted| == nextTicket + 1
      ensures SameQueue(items, next.s.queue) && forall j :: 0 <= j < |items| ==> items[j].buffer in Repr
      ensures (items, discarded) == DatagramQueues.Pushed(sendqueue.queue, item, sendqueue.memSizeLimit)
    {
      SameSizes(sendqueue.queue, world.s.queue);
      next := U.Enqueue(cfg, world, item.remoteHost, item.remotePort).0;
      var r := DatagramQueues.Pushed(sendqueue.queue, item, sendqueue.memSizeLimit);
      items, discarded := r.0, r.1;
      if item.memSize <= sendqueue.memSizeLimit {
        var k := Dropped(MemSizes(sendqueue.queue), 0, sendqueue.memSizeLimit - item.memSize);
        SameSuffix(sendqueue.queue, world.s.queue, k);
        SameWithOneMore(sendqueue.queue[k..], world.s.queue[k..], item,
                        U.Datagram(nextTicket, sendBuffer.data, item.remoteHost, item.remotePort));
      }
    }

    /** Queues an item that refers to the buffer being written. */
    method PushItem(host: string, port: nat) returns (discarded: bool)
      requires Linked()
      modifies this`world, this`nextTicket, sendqueue
      ensures Linked() && (world, discarded) == U.Enqueue(cfg, old(world), host, port)
    {
      var item := QueueItem(cfg.overhead + sendBuffer.Size(), sendBuffer, host, port, nextTicket);
      ghost var items, next, reported := Pushed(item);
      discarded := sendqueue.Push(item);
      nextTicket := nextTicket + 1;
      world := next;
    }

    /** Takes the next datagram off the queue and looks up its host, synchronously if it is an address. */
    method AsyncSend()
      requires Linked() && world.s.op.Idle?
      modifies this`world, this`asyncSendInProgress, this`buffer, this`looking, this`target, this`endpoints, this`Repr, sendqueue
      ensures Linked() && world == U.AsyncSend(cfg, old(world)) && (old(Private()) ==> Private())
      ensures fresh(Repr - old(Repr)) && old(Repr) <= Repr
      decreases |world.s.queue|, 0
    {
      if sendqueue.queue == [] {
        return;
      }
      var item := TakeNext();
      var address := cfg.literal(item.remoteHost, item.remotePort);
      if address.Some? {
        HandleResolve([address.value]);
      }
    }

    method TakeNext() returns (item: QueueItem)
      requires Linked() && world.s.op.Idle? && sendqueue.queue != []
      modifies this`world, this`asyncSendInProgress, this`buffer, this`looking, sendqueue
      ensures Linked() && world == U.Dequeue(old(world)) && (old(Private()) ==> Private())
      ensures item.remoteHost == world.s.op.d.host && item.remotePort == world.s.op.d.port
    {
      item := sendqueue.queue[0];
      sendqueue.Pop();
      asyncSendInProgress, looking, buffer := true, true, item.buffer;
      world := U.Dequeue(world);
    }

    /** A failed lookup has an empty list; either way the sending starts in the error branch of HandleSend. */
    method HandleResolve(list: seq<Endpoint>)
      requires Linked() && world.s.op.Looking?
      modifies this`world, this`asyncSendInProgress, this`buffer, this`looking, this`target, this`endpoints, this`Repr, sendqueue
      ensures Linked() && world == U.HandleResolve(cfg, old(world), list) && (old(Private()) ==> Private())
      ensures fresh(Repr - old(Repr)) && old(Repr) <= Repr
      decreases |world.s.queue|, 2
    {
      world := world.(h := world.h.(found := list));
      var found := new V4FirstIterator(list);
      Repr := Repr + {found};
      HandleSend(false, found);
    }

    method HandleSend(ok: bool, rest: V4FirstIterator)
      requires Linked() && !world.s.op.Idle? && (ok ==> world.s.op.Transmitting?) && rest.Valid() && rest in Repr
      modifies this`world, this`asyncSendInProgress, this`buffer, this`looking, this`target, this`endpoints, this`Repr, sendqueue, rest
      ensures Linked() && world == U.HandleSend(cfg, old(world), ok, old(rest.Remaining())) && (old(Private()) ==> Private())
      ensures fresh(Repr - old(Repr)) && old(Repr) <= Repr
      decreases |world.s.queue|, 1
    {
      if !ok && rest.HasNext() {
        var endpoint := NextOpen(rest);
        if U.IsOpen(cfg, endpoint) {
          StartSend(endpoint, rest);
          return;
        }
      }
      FinishSend(ok);
      if sendqueue.queue != [] {
        AsyncSend();
      }
    }

    /** `async_send_to`: the handler keeps the buffer and the rest of the endpoints. */
    method StartSend(endpoint: Endpoint, rest: V4FirstIterator)
      requires Handling() && rest.Valid() && rest in Repr
      modifies this`world, this`looking, this`target, this`endpoints
      ensures Linked() && world == U.Transmit(old(world), [endpoint] + rest.Remaining()) && (old(Private()) ==> Private())
    {
      looking, target, endpoints := false, endpoint, rest;
      world := U.Transmit(world, [endpoint] + rest.Remaining());
    }

    method FinishSend(ok: bool)
      requires Handling() && (ok ==> world.s.op.Transmitting?)
      modifies this`world, this`asyncSendInProgress, this`buffer
      ensures Linked() && world == U.Finish(old(world), ok) && (old(Private()) ==> Private())
    {
      asyncSendInProgress, buffer := false, null;
      world := U.Finish(world, ok);
    }

    /** The do-while loop of handleSend: the first endpoint with an open socket, else the last endpoint. */
    method NextOpen(rest: V4FirstIterator) returns (endpoint: Endpoint)
      requires rest.Valid() && rest.Remaining() != []
      modifies rest
      ensures rest.Valid()
      ensures U.NextOpen(cfg, old(rest.Remaining())) ==
                if U.IsOpen(cfg, endpoint) then [endpoint] + rest.Remaining() else []
    {
      endpoint := rest.Next();
      while !U.IsOpen(cfg, endpoint) && rest.HasNext()
        invariant rest.Valid()
        invariant U.NextOpen(cfg, old(rest.Remaining())) ==
                    if U.IsOpen(cfg, endpoint) then [endpoint] + rest.Remaining() else U.NextOpen(cfg, rest.Remaining())
        decreases |rest.Remaining()|
      {
        ghost var before := rest.Remaining();
        endpoint := rest.Next();
        assert before[1..] == rest.Remaining();
      }
    }

    // ----- client calls -----

    // What the steps of the machine are, so that the methods need not look inside the pump.

    lemma SubmitIsPumped(w: U.World, host: string, port: nat)
      ensures U.Pump(cfg, U.Enqueue(cfg, w, host, port).0) == U.Step(cfg, w, U.Submit(host, port))
    {
    }

    lemma BroadcastIsPumped(w: U.World, addresses: seq<string>, port: nat)
      ensures U.Pump(cfg, U.EnqueueAll(cfg, w, addresses, port).0) == U.Step(cfg, w, U.Broadcast(addresses, port))
    {
    }

    lemma SendDoneIsHandled(w: U.World, ok: bool)
      requires w.s.op.Transmitting?
      ensures U.HandleSend(cfg, w, ok, w.s.op.rest) == U.Step(cfg, w, U.SendDone(ok))
    {
    }

    lemma ResolvedIsHandled(w: U.World, list: seq<Endpoint>)
      requires w.s.op.Looking?
      ensures U.HandleResolve(cfg, w, list) == U.Step(cfg, w, U.Resolved(list))
    {
    }

    /** The pump, started if it is idle, and a fresh buffer for what is written next. */
    method Pump()
      requires Linked()
      modifies this, sendqueue
      ensures Valid() && world == U.Pump(cfg, old(world))
      ensures fresh(sendBuffer) && fresh(Repr - old(Repr))
    {
      if !asyncSendInProgress {
        AsyncSend();
      }
      ReplaceBuffer();
    }

    /** `sendBuffer_.reset(new Buffer())`. */
    method ReplaceBuffer()
      requires Linked()
      modifies this`world, this`sendBuffer, this`Repr
      ensures Valid() && world == old(world).(s := old(world).s.(sendBuffer := []))
      ensures fresh(sendBuffer) && Repr == old(Repr) + {sendBuffer}
    {
      sendBuffer := new Buffer();
      Repr := Repr + {sendBuffer};
      world := world.(s := world.s.(sendBuffer := []));
    }

    method Send(host: string, port: nat) returns (datagramsDiscarded: bool)
      requires Valid()
      modifies this, sendqueue
      ensures Valid() && world == U.Step(cfg, old(world), U.Submit(host, port))
      ensures datagramsDiscarded == U.Enqueue(cfg, old(world), host, port).1
      ensures fresh(sendBuffer) && fresh(Repr - old(Repr))
    {
      SubmitIsPumped(world, host, port);
      datagramsDiscarded := PushItem(host, port);
      Pump();
    }

    /** One item for each broadcast address, all with the same buffer. */
    method Broadcast(addresses: seq<string>, port: nat) returns (anyDiscarded: bool)
      requires Valid()
      modifies this, sendqueue
      ensures Valid() && world == U.Step(cfg, old(world), U.Broadcast(addresses, port))
      ensures anyDiscarded == U.EnqueueAll(cfg, old(world), addresses, port).1
      ensures fresh(sendBuffer) && fresh(Repr - old(Repr))
    {
      anyDiscarded := false;
      for i := 0 to |addresses|
        invariant Linked() && Repr == old(Repr)
        invariant (world, anyDiscarded) == U.EnqueueAll(cfg, old(world), addresses[..i], port)
      {
        var discarded := PushItem(addresses[i], port);
        anyDiscarded := anyDiscarded || discarded;
        assert addresses[..i + 1][..i] == addresses[..i];
      }
      assert addresses[..|addresses|] == addresses;
      BroadcastIsPumped(old(world), addresses, port);
      Pump();
    }

    method SetSendbufferLimit(maxSize: nat)
      requires Valid()
      modifies this`world, sendqueue
      ensures Valid() && world == U.Step(cfg, old(world), U.SetLimit(maxSize))
    {
      SameSizes(sendqueue.queue, world.s.queue);
      SameSuffix(sendqueue.queue, world.s.queue, Dropped(MemSizes(sendqueue.queue), 0, maxSize));
      sendqueue.SetMemSizeLimit(maxSize);
      world := U.SetLimitStep(cfg, world, maxSize);
    }

    method Close()
      requires Valid()
      modifies this`world, sendqueue, sendBuffer
      ensures Valid() && world == U.Step(cfg, old(world), U.Close)
    {
      sendqueue.Clear();
      sendBuffer.Clear();
      world := U.Step(cfg, world, U.Close);
    }

    // ----- completions -----

    method HandleSendDone(ok: bool)
      requires Valid() && world.s.op.Transmitting?
      modifies this`world, this`asyncSendInProgress, this`buffer, this`looking, this`target, this`endpoints, this`Repr, sendqueue, endpoints
      ensures Valid() && world == U.Step(cfg, old(world), U.SendDone(ok))
      ensures fresh(Repr - old(Repr))
    {
      ghost var before := world;
      HandleSend(ok, endpoints);
      SendDoneIsHandled(before, ok);
    }

    method HandleResolveDone(list: seq<Endpoint>)
      requires Valid() && world.s.op.Looking?
      modifies this`world, this`asyncSendInProgress, this`buffer, this`looking, this`target, this`endpoints, this`Repr, sendqueue
      ensures Valid() && world == U.Step(cfg, old(world), U.Resolved(list))
      ensures fresh(Repr - old(Repr))
    {
      ResolvedIsHandled(world, list);
      HandleResolve(list);
    }

    /** getSendbufferSize: queued items with their overhead, and the buffer being written. */
    method GetSendbufferSize() returns (size: nat)
      requires Valid()
      ensures size == Sum(U.Sizes(cfg, world.s.queue), 0) + |world.s.sendBuffer|
    {
      SameSizes(sendqueue.queue, world.s.queue);
      size := sendqueue.memSize + sendBuffer.Size();
    }
  }

  // ----- runs of an object -----

  /** One event: the client call, or the completion handler. */
  method Perform(s: UdpSocket, e: U.Event)
    requires s.Valid() && U.Enabled(s.world, e)
    modifies s.Repr
    ensures s.Valid() && s.world == U.Step(s.cfg, old(s.world), e) && fresh(s.Repr - old(s.Repr))
  {
    match e {
      case Write(bytes) => s.Write(bytes);
      case Submit(host, port) => var discarded := s.Send(host, port);
      case Broadcast(addresses, port) => var discarded := s.Broadcast(addresses, port);
      case SetLimit(max) => s.SetSendbufferLimit(max);
      case Close => s.Close();
      case Resolved(list) => s.HandleResolveDone(list);
      case SendDone(ok) => s.HandleSendDone(ok);
    }
  }

  /** Whatever events can happen, the object goes through the run of the machine. */
  method Run(s: UdpSocket, es: seq<U.Event>)
    requires s.Valid() && U.Legal(s.cfg, s.world, es)
    modifies s.Repr
    ensures s.Valid() && s.world == U.After(s.cfg, old(s.world), es) && fresh(s.Repr - old(s.Repr))
  {
    assert es[0..] == es;
    for i := 0 to |es|
      invariant s.Valid() && fresh(s.Repr - old(s.Repr))
      invariant U.Legal(s.cfg, s.world, es[i..])
      invariant U.After(s.cfg, s.world, es[i..]) == U.After(s.cfg, old(s.world), es)
    {
      assert es[i..][0] == es[i] && es[i..][1..] == es[i + 1..];
      Perform(s, es[i]);
    }
  }
}
