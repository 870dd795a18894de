/** What holds of the sending side of a UDP socket over every run. */
module UdpRuns {
  import opened Common
  import opened AddressOrder
  import opened UdpProtocol
  import opened DatagramQueues

  // ----- the invariant -----

  ghost predicate Done(f: Fate) {
    f.Sent? || f.GivenUp?
  }

  /** Everything submitted has a ticket and a fate. */
  ghost predicate Numbered(h: History) {
    |h.fate| == |h.submitted| && forall i :: 0 <= i < |h.submitted| ==> h.submitted[i].ticket == i
  }

  /** The queue holds exactly the datagrams whose fate is Queued, as submitted and in that order. */
  ghost predicate QueueOk(queue: seq<Datagram>, h: History)
    requires |h.fate| == |h.submitted|
  {
    && (forall j :: 0 <= j < |queue| ==>
          queue[j].ticket < |h.fate| && h.submitted[queue[j].ticket] == queue[j] && h.fate[queue[j].ticket] == Queued)
    && (forall j, k :: 0 <= j < k < |queue| ==> queue[j].ticket < queue[k].ticket)
    && (forall i :: 0 <= i < |h.fate| && h.fate[i] == Queued ==> Among(queue, i))
  }

  /** The operation in progress is for the one Active datagram, which came before every queued one. */
  ghost predicate OpOk(op: Op, queue: seq<Datagram>, h: History)
    requires |h.fate| == |h.submitted|
  {
    match op
    case Idle => forall i :: 0 <= i < |h.fate| ==> h.fate[i] != Active
    case _ =>
      && op.d.ticket < |h.fate| && h.submitted[op.d.ticket] == op.d
      && (forall i :: 0 <= i < |h.fate| ==> (h.fate[i] == Active <==> i == op.d.ticket))
      && (forall j :: 0 <= j < |queue| ==> op.d.ticket < queue[j].ticket)
  }

  /** Datagrams are finished in the order of submission. */
  ghost predicate InOrder(op: Op, queue: seq<Datagram>, h: History) {
    forall i :: 0 <= i < |h.fate| && Done(h.fate[i]) ==>
      (op.Idle? || i < op.d.ticket) && forall j :: 0 <= j < |queue| ==> i < queue[j].ticket
  }

  /** The wire has exactly the Sent datagrams, each once, in order and as submitted. */
  ghost predicate WireOk(h: History)
    requires |h.fate| == |h.submitted|
  {
    && (forall k :: 0 <= k < |h.wire| ==>
          && h.wire[k].ticket < |h.fate|
          && h.fate[h.wire[k].ticket] == Sent(h.wire[k].to)
          && h.wire[k].payload == h.submitted[h.wire[k].ticket].payload)
    && (forall j, k :: 0 <= j < k < |h.wire| ==> h.wire[j].ticket < h.wire[k].ticket)
    && (forall i :: 0 <= i < |h.fate| && h.fate[i].Sent? ==> exists k :: 0 <= k < |h.wire| && h.wire[k].ticket == i)
  }

  /** Every reachable endpoint, in order, has been tried for what was given up. */
  ghost predicate TriedAll(cfg: Config, h: History) {
    forall i :: 0 <= i < |h.fate| && h.fate[i].GivenUp? ==> h.fate[i].tried == Reachable(cfg, Ordered(h.fate[i].found))
  }

  /** What has been tried and what is left make up the reachable endpoints of the lookup. */
  ghost predicate TryingOk(cfg: Config, op: Op, h: History) {
    match op
    case Idle => true
    case Looking(_) => h.tried == []
    case Transmitting(_, to, rest) =>
      h.tried != [] && h.tried[|h.tried| - 1] == to && h.tried + Reachable(cfg, rest) == Reachable(cfg, Ordered(h.found))
  }

  ghost predicate Core(cfg: Config, w: World) {
    && Numbered(w.h) && QueueOk(w.s.queue, w.h) && OpOk(w.s.op, w.s.queue, w.h) && InOrder(w.s.op, w.s.queue, w.h)
    && WireOk(w.h) && TriedAll(cfg, w.h) && TryingOk(cfg, w.s.op, w.h)
    && Sum(Sizes(cfg, w.s.queue), 0) <= w.s.limit
  }

  /** At a step boundary a non-empty queue implies an operation in progress. */
  ghost predicate Inv(cfg: Config, w: World) {
    Core(cfg, w) && (w.s.op.Idle? ==> w.s.queue == [])
  }

  // ----- every step keeps it -----

  lemma SizesOfSuffix(cfg: Config, queue: seq<Datagram>, k: nat)
    requires k <= |queue|
    ensures Sum(Sizes(cfg, queue[k..]), 0) == Sum(Sizes(cfg, queue), k)
  {
    assert Sizes(cfg, queue)[k..] == Sizes(cfg, queue[k..]);
    SumOfSuffix(Sizes(cfg, queue), k, 0);
  }

  lemma {:induction false} SumShrinks(sizes: seq<nat>, i: nat, k: nat)
    requires i <= k <= |sizes|
    ensures Sum(sizes, k) <= Sum(sizes, i)
    decreases k - i
  {
    if i < k {
      SumShrinks(sizes, i + 1, k);
    }
  }

  lemma DequeueKeepsQueue(cfg: Config, w: World)
    requires Core(cfg, w) && w.s.op.Idle? && w.s.queue != []
    ensures Numbered(Dequeue(w).h) && QueueOk(Dequeue(w).s.queue, Dequeue(w).h)
  {
    var n := Dequeue(w);
    forall i | 0 <= i < |n.h.fate| && n.h.fate[i] == Queued
      ensures Among(n.s.queue, i)
    {
      var j :| 0 <= j < |w.s.queue| && w.s.queue[j].ticket == i;
      assert n.s.queue[j - 1] == w.s.queue[j];
    }
  }

  lemma DequeueKeeps(cfg: Config, w: World)
    requires Core(cfg, w) && w.s.op.Idle? && w.s.queue != []
    ensures Core(cfg, Dequeue(w))
  {
    DequeueKeepsQueue(cfg, w);
    SizesOfSuffix(cfg, w.s.queue, 1);
    SumShrinks(Sizes(cfg, w.s.queue), 0, 1);
  }

  lemma {:induction false} NextOpenSkipsClosed(cfg: Config, rest: seq<Endpoint>)
    ensures var open := NextOpen(cfg, rest);
            Reachable(cfg, rest) == if open == [] then [] else [open[0]] + Reachable(cfg, open[1..])
  {
    if rest != [] && !IsOpen(cfg, rest[0]) {
      NextOpenSkipsClosed(cfg, rest[1..]);
    }
  }

  /** What is left to try once the current transmission has failed, or once the lookup is done. */
  ghost predicate LeftToTry(cfg: Config, w: World, rest: seq<Endpoint>) {
    w.h.tried + Reachable(cfg, rest) == Reachable(cfg, Ordered(w.h.found))
  }

  lemma TransmitKeeps(cfg: Config, w: World, rest: seq<Endpoint>)
    requires Core(cfg, w) && !w.s.op.Idle? && LeftToTry(cfg, w, rest) && NextOpen(cfg, rest) != []
    ensures Core(cfg, Transmit(w, NextOpen(cfg, rest)))
  {
    NextOpenSkipsClosed(cfg, rest);
    var open := NextOpen(cfg, rest);
    assert w.h.tried + ([open[0]] + Reachable(cfg, open[1..])) == (w.h.tried + [open[0]]) + Reachable(cfg, open[1..]);
  }

  /** What was transmitted before the active datagram came before it. */
  lemma WireIsBefore(cfg: Config, w: World)
    requires Core(cfg, w) && !w.s.op.Idle?
    ensures forall k :: 0 <= k < |w.h.wire| ==> w.h.wire[k].ticket < w.s.op.d.ticket
  {
    forall k | 0 <= k < |w.h.wire|
      ensures w.h.wire[k].ticket < w.s.op.d.ticket
    {
      assert Done(w.h.fate[w.h.wire[k].ticket]);
    }
  }

  /** The transmissions recorded so far stay what they are when another datagram is finished ... */
  lemma OldWireOk(h: History, ticket: nat, fate: Fate)
    requires |h.fate| == |h.submitted| && WireOk(h) && ticket < |h.fate| && h.fate[ticket] == Active
    ensures forall k :: 0 <= k < |h.wire| ==>
              && h.wire[k].ticket < |h.fate| && h.wire[k].ticket != ticket
              && h.fate[h.wire[k].ticket] == Sent(h.wire[k].to)
    ensures !fate.Sent? ==> WireOk(h.(fate := h.fate[ticket := fate]))
  {
  }

  /** ... and the new one goes to the end. */
  lemma NewWireOk(h: History, ticket: nat, to: Endpoint)
    requires |h.fate| == |h.submitted| && WireOk(h) && ticket < |h.fate| && h.fate[ticket] == Active
    requires forall k :: 0 <= k < |h.wire| ==> h.wire[k].ticket < ticket
    ensures var wire := h.wire + [Transmission(ticket, h.submitted[ticket].payload, to)];
            WireOk(h.(fate := h.fate[ticket := Sent(to)], wire := wire))
  {
    var wire, fate := h.wire + [Transmission(ticket, h.submitted[ticket].payload, to)], h.fate[ticket := Sent(to)];
    OldWireOk(h, ticket, Sent(to));
    forall i | 0 <= i < |fate| && fate[i].Sent?
      ensures exists k :: 0 <= k < |wire| && wire[k].ticket == i
    {
      if i == ticket {
        assert wire[|h.wire|].ticket == i;
      } else {
        var k :| 0 <= k < |h.wire| && h.wire[k].ticket == i;
        assert wire[k].ticket == i;
      }
    }
  }

  lemma FinishKeepsWire(cfg: Config, w: World, ok: bool)
    requires Core(cfg, w) && !w.s.op.Idle? && (ok ==> w.s.op.Transmitting?)
    ensures |Finish(w, ok).h.fate| == |w.h.fate| && WireOk(Finish(w, ok).h)
  {
    WireIsBefore(cfg, w);
    if ok {
      NewWireOk(w.h, w.s.op.d.ticket, w.s.op.to);
    } else {
      OldWireOk(w.h, w.s.op.d.ticket, GivenUp(w.h.found, w.h.tried));
    }
  }

  lemma FinishKeepsQueue(cfg: Config, w: World, ok: bool)
    requires Core(cfg, w) && !w.s.op.Idle? && (ok ==> w.s.op.Transmitting?)
    ensures var n := Finish(w, ok); Numbered(n.h) && QueueOk(n.s.queue, n.h)
  {
  }

  lemma FinishKeepsOrder(cfg: Config, w: World, ok: bool)
    requires Core(cfg, w) && !w.s.op.Idle? && (ok ==> w.s.op.Transmitting?)
    ensures var n := Finish(w, ok);
            |n.h.fate| == |n.h.submitted| && OpOk(n.s.op, n.s.queue, n.h) && InOrder(n.s.op, n.s.queue, n.h)
  {
  }

  lemma FinishKeepsTried(cfg: Config, w: World, ok: bool)
    requires TriedAll(cfg, w.h) && !w.s.op.Idle? && (ok ==> w.s.op.Transmitting?)
    requires !ok ==> w.h.tried == Reachable(cfg, Ordered(w.h.found))
    ensures TriedAll(cfg, Finish(w, ok).h)
  {
  }

  lemma FinishKeeps(cfg: Config, w: World, ok: bool)
    requires Core(cfg, w) && !w.s.op.Idle? && (ok ==> w.s.op.Transmitting?)
    requires !ok ==> w.h.tried == Reachable(cfg, Ordered(w.h.found))
    ensures Core(cfg, Finish(w, ok))
  {
    FinishKeepsQueue(cfg, w, ok);
    FinishKeepsOrder(cfg, w, ok);
    FinishKeepsWire(cfg, w, ok);
    FinishKeepsTried(cfg, w, ok);
  }

  lemma LookupLeavesAll(cfg: Config, w: World, list: seq<Endpoint>)
    requires Core(cfg, w) && w.s.op.Looking?
    ensures var n := w.(h := w.h.(found := list));
            Core(cfg, n) && LeftToTry(cfg, n, Ordered(list))
  {
  }

  lemma {:induction false} AsyncSendKeeps(cfg: Config, w: World)
    requires Core(cfg, w) && w.s.op.Idle?
    ensures Inv(cfg, AsyncSend(cfg, w))
    decreases |w.s.queue|, 0
  {
    if w.s.queue != [] {
      DequeueKeeps(cfg, w);
      var n := Dequeue(w);
      match cfg.literal(n.s.op.d.host, n.s.op.d.port)
      case None =>
      case Some(endpoint) => HandleResolveKeeps(cfg, n, [endpoint]);
    }
  }

  lemma {:induction false} HandleResolveKeeps(cfg: Config, w: World, list: seq<Endpoint>)
    requires Core(cfg, w) && w.s.op.Looking?
    ensures Inv(cfg, HandleResolve(cfg, w, list))
    decreases |w.s.queue|, 2
  {
    LookupLeavesAll(cfg, w, list);
    HandleSendKeeps(cfg, w.(h := w.h.(found := list)), false, Ordered(list));
  }

  lemma {:induction false} HandleSendKeeps(cfg: Config, w: World, ok: bool, rest: seq<Endpoint>)
    requires Core(cfg, w) && !w.s.op.Idle? && (ok ==> w.s.op.Transmitting?)
    requires !ok ==> LeftToTry(cfg, w, rest)
    ensures Inv(cfg, HandleSend(cfg, w, ok, rest))
    decreases |w.s.queue|, 1
  {
    if !ok && NextOpen(cfg, rest) != [] {
      TransmitKeeps(cfg, w, rest);
    } else {
      NextOpenSkipsClosed(cfg, rest);
      FinishKeeps(cfg, w, ok);
      AsyncSendKeeps(cfg, Finish(w, ok));
    }
  }

  // ----- client calls -----

  ghost predicate Evicts(w: World, n: World, k: nat) {
    && k <= |w.s.queue|
    && n.s.queue == w.s.queue[k..] && n.h == w.h.(fate := Discard(w.h.fate, w.s.queue[..k]))
    && n.s.op == w.s.op
  }

  /** Dropping a front of the queue discards just its datagrams. */
  lemma EvictKeepsQueue(cfg: Config, w: World, n: World, k: nat)
    requires Core(cfg, w) && Evicts(w, n, k)
    ensures Numbered(n.h) && QueueOk(n.s.queue, n.h)
  {
    forall j | 0 <= j < |n.s.queue|
      ensures n.s.queue[j] == w.s.queue[k + j] && !Among(w.s.queue[..k], n.s.queue[j].ticket)
    {
    }
    EvictLeavesQueued(cfg, w, n, k);
  }

  lemma EvictLeavesQueued(cfg: Config, w: World, n: World, k: nat)
    requires Core(cfg, w) && Evicts(w, n, k)
    ensures forall i :: 0 <= i < |n.h.fate| && n.h.fate[i] == Queued ==> Among(n.s.queue, i)
  {
    forall i | 0 <= i < |n.h.fate| && n.h.fate[i] == Queued
      ensures Among(n.s.queue, i)
    {
      var j :| 0 <= j < |w.s.queue| && w.s.queue[j].ticket == i;
      if j >= k {
        assert n.s.queue[j - k] == w.s.queue[j];
      }
    }
  }

  lemma EvictTouchesOnlyQueued(cfg: Config, w: World, n: World, k: nat)
    requires Core(cfg, w) && Evicts(w, n, k)
    ensures |n.h.fate| == |w.h.fate|
    ensures forall i :: 0 <= i < |n.h.fate| ==>
              n.h.fate[i] == w.h.fate[i] || (w.h.fate[i] == Queued && n.h.fate[i] == Discarded)
  {
    forall i | 0 <= i < |n.h.fate| && Among(w.s.queue[..k], i)
      ensures w.h.fate[i] == Queued
    {
      var j :| 0 <= j < |w.s.queue[..k]| && w.s.queue[..k][j].ticket == i;
      assert w.s.queue[j].ticket == i;
    }
  }

  lemma EvictKeeps(cfg: Config, w: World, n: World, k: nat)
    requires Core(cfg, w) && Evicts(w, n, k) && Sum(Sizes(cfg, w.s.queue), k) <= n.s.limit
    ensures Core(cfg, n)
  {
    EvictKeepsQueue(cfg, w, n, k);
    EvictKeepsOrder(cfg, w, n, k);
    EvictKeepsWire(cfg, w, n, k);
    SizesOfSuffix(cfg, w.s.queue, k);
  }

  lemma EvictKeepsOrder(cfg: Config, w: World, n: World, k: nat)
    requires Core(cfg, w) && Evicts(w, n, k)
    ensures |n.h.fate| == |n.h.submitted| && OpOk(n.s.op, n.s.queue, n.h) && InOrder(n.s.op, n.s.queue, n.h)
  {
    EvictTouchesOnlyQueued(cfg, w, n, k);
    assert forall j :: 0 <= j < |n.s.queue| ==> n.s.queue[j] == w.s.queue[k + j];
  }

  lemma EvictKeepsWire(cfg: Config, w: World, n: World, k: nat)
    requires Core(cfg, w) && Evicts(w, n, k)
    ensures |n.h.fate| == |n.h.submitted| && WireOk(n.h) && TriedAll(cfg, n.h)
  {
    EvictTouchesOnlyQueued(cfg, w, n, k);
  }

  lemma SubmitKeepsWire(cfg: Config, w: World, d: Datagram, f: Fate)
    requires Core(cfg, w) && (f == Queued || f == Discarded)
    ensures var h := w.h.(submitted := w.h.submitted + [d], fate := w.h.fate + [f]);
            |h.fate| == |h.submitted| && WireOk(h) && TriedAll(cfg, h)
  {
  }

  lemma RefuseKeeps(cfg: Config, w: World, d: Datagram)
    requires Core(cfg, w) && d.ticket == |w.h.submitted|
    ensures Core(cfg, w.(h := w.h.(submitted := w.h.submitted + [d], fate := w.h.fate + [Discarded])))
  {
    SubmitKeepsWire(cfg, w, d, Discarded);
  }

  lemma AppendKeepsQueue(cfg: Config, w: World, d: Datagram)
    requires Core(cfg, w) && d.ticket == |w.h.submitted|
    ensures var h := w.h.(submitted := w.h.submitted + [d], fate := w.h.fate + [Queued]);
            Numbered(h) && QueueOk(w.s.queue + [d], h)
  {
    var queue, fate := w.s.queue + [d], w.h.fate + [Queued];
    forall i | 0 <= i < |fate| && fate[i] == Queued
      ensures Among(queue, i)
    {
      if i < |w.h.fate| {
        var j :| 0 <= j < |w.s.queue| && w.s.queue[j].ticket == i;
        assert queue[j].ticket == i;
      } else {
        assert queue[|w.s.queue|].ticket == i;
      }
    }
  }

  lemma AppendKeepsOrder(cfg: Config, w: World, d: Datagram)
    requires Core(cfg, w) && d.ticket == |w.h.submitted|
    ensures var h := w.h.(submitted := w.h.submitted + [d], fate := w.h.fate + [Queued]);
            |h.fate| == |h.submitted| && OpOk(w.s.op, w.s.queue + [d], h) && InOrder(w.s.op, w.s.queue + [d], h)
  {
  }

  lemma AppendKeeps(cfg: Config, w: World, d: Datagram)
    requires Core(cfg, w) && d.ticket == |w.h.submitted|
    requires Sum(Sizes(cfg, w.s.queue), 0) + cfg.overhead + |d.payload| <= w.s.limit
    ensures Core(cfg, World(w.s.(queue := w.s.queue + [d]),
                            w.h.(submitted := w.h.submitted + [d], fate := w.h.fate + [Queued])))
  {
    AppendKeepsQueue(cfg, w, d);
    AppendKeepsOrder(cfg, w, d);
    SubmitKeepsWire(cfg, w, d, Queued);
    SumOfAppend(Sizes(cfg, w.s.queue), cfg.overhead + |d.payload|, 0);
    assert Sizes(cfg, w.s.queue + [d]) == Sizes(cfg, w.s.queue) + [cfg.overhead + |d.payload|];
  }

  /** `Enqueue` is an eviction followed by an append. */
  lemma EnqueueAccepted(cfg: Config, w: World, host: string, port: nat) returns (e: World, k: nat)
    requires Core(cfg, w) && cfg.overhead + |w.s.sendBuffer| <= w.s.limit
    ensures Evicts(w, e, k) && e.s == w.s.(queue := e.s.queue) && Core(cfg, e)
    ensures Sum(Sizes(cfg, e.s.queue), 0) + cfg.overhead + |w.s.sendBuffer| <= w.s.limit
    ensures var d := Datagram(|w.h.submitted|, w.s.sendBuffer, host, port);
            Enqueue(cfg, w, host, port) ==
              (World(e.s.(queue := e.s.queue + [d]), e.h.(submitted := e.h.submitted + [d], fate := e.h.fate + [Queued])), k > 0)
  {
    var room := w.s.limit - (cfg.overhead + |w.s.sendBuffer|);
    k := Dropped(Sizes(cfg, w.s.queue), 0, room);
    KeepsLongestSuffix(Sizes(cfg, w.s.queue), 0, room);
    e := World(w.s.(queue := w.s.queue[k..]), w.h.(fate := Discard(w.h.fate, w.s.queue[..k])));
    EvictKeeps(cfg, w, e, k);
    SizesOfSuffix(cfg, w.s.queue, k);
  }

  lemma EnqueueKeeps(cfg: Config, w: World, host: string, port: nat)
    requires Core(cfg, w)
    ensures var n := Enqueue(cfg, w, host, port).0;
            Core(cfg, n) && n.s.op == w.s.op && n.s.sendBuffer == w.s.sendBuffer
  {
    var d := Datagram(|w.h.submitted|, w.s.sendBuffer, host, port);
    if cfg.overhead + |d.payload| > w.s.limit {
      RefuseKeeps(cfg, w, d);
    } else {
      var e, k := EnqueueAccepted(cfg, w, host, port);
      AppendKeeps(cfg, e, d);
    }
  }

  lemma {:induction false} EnqueueAllKeeps(cfg: Config, w: World, addresses: seq<string>, port: nat)
    requires Core(cfg, w)
    ensures var n := EnqueueAll(cfg, w, addresses, port).0;
            Core(cfg, n) && n.s.op == w.s.op && n.s.sendBuffer == w.s.sendBuffer
  {
    if addresses != [] {
      var front := addresses[..|addresses| - 1];
      EnqueueAllKeeps(cfg, w, front, port);
      EnqueueKeeps(cfg, EnqueueAll(cfg, w, front, port).0, addresses[|addresses| - 1], port);
    }
  }

  lemma PumpKeeps(cfg: Config, w: World)
    requires Core(cfg, w)
    ensures Inv(cfg, Pump(cfg, w))
  {
    if w.s.op.Idle? {
      AsyncSendKeeps(cfg, w);
    }
  }

  lemma EvictStepKeeps(cfg: Config, w: World, e: Event)
    requires Inv(cfg, w) && (e.SetLimit? || e.Close?)
    ensures Inv(cfg, Step(cfg, w, e))
  {
    if e.SetLimit? {
      KeepsLongestSuffix(Sizes(cfg, w.s.queue), 0, e.max);
      EvictKeeps(cfg, w, Step(cfg, w, e), Dropped(Sizes(cfg, w.s.queue), 0, e.max));
    } else {
      assert w.s.queue[..|w.s.queue|] == w.s.queue;
      EvictKeeps(cfg, w, Step(cfg, w, e), |w.s.queue|);
    }
  }

  lemma StepKeepsInv(cfg: Config, w: World, e: Event)
    requires Inv(cfg, w) && Enabled(w, e)
    ensures Inv(cfg, Step(cfg, w, e))
  {
    match e
    case Write(_) =>
    case Submit(host, port) =>
      EnqueueKeeps(cfg, w, host, port);
      PumpKeeps(cfg, Enqueue(cfg, w, host, port).0);
    case Broadcast(addresses, port) =>
      EnqueueAllKeeps(cfg, w, addresses, port);
      PumpKeeps(cfg, EnqueueAll(cfg, w, addresses, port).0);
    case SetLimit(_) => EvictStepKeeps(cfg, w, e);
    case Close => EvictStepKeeps(cfg, w, e);
    case Resolved(list) => HandleResolveKeeps(cfg, w, list);
    case SendDone(ok) => HandleSendKeeps(cfg, w, ok, w.s.op.rest);
  }

  lemma {:induction false} RunKeepsInv(cfg: Config, w: World, es: seq<Event>)
    requires Inv(cfg, w) && Legal(cfg, w, es)
    ensures Inv(cfg, After(cfg, w, es))
    decreases |es|
  {
    if es != [] {
      StepKeepsInv(cfg, w, es[0]);
      RunKeepsInv(cfg, Step(cfg, w, es[0]), es[1..]);
    }
  }

  // ----- what the invariant means -----

  /** What the client has submitted, told from its calls alone: each payload is what was written since the last. */
  ghost function SubmittedBy(es: seq<Event>, buffer: seq<byte>, ticket: nat): seq<Datagram>
    decreases |es|
  {
    if es == [] then []
    else match es[0]
      case Write(bytes) => SubmittedBy(es[1..], buffer + bytes, ticket)
      case Submit(host, port) => [Datagram(ticket, buffer, host, port)] + SubmittedBy(es[1..], [], ticket + 1)
      case Broadcast(addresses, port) =>
        Copies(buffer, addresses, port, ticket) + SubmittedBy(es[1..], [], ticket + |addresses|)
      case Close => SubmittedBy(es[1..], [], ticket)
      case _ => SubmittedBy(es[1..], buffer, ticket)
  }

  ghost function Copies(payload: seq<byte>, addresses: seq<string>, port: nat, ticket: nat): seq<Datagram> {
    seq(|addresses|, i requires 0 <= i < |addresses| => Datagram(ticket + i, payload, addresses[i], port))
  }

  /** The pump submits nothing and does not touch the buffer being written. */
  lemma {:induction false} AsyncSendSubmitsNothing(cfg: Config, w: World)
    ensures AsyncSend(cfg, w).h.submitted == w.h.submitted && AsyncSend(cfg, w).s.sendBuffer == w.s.sendBuffer
    decreases |w.s.queue|, 0
  {
    if w.s.queue != [] {
      var n := Dequeue(w);
      match cfg.literal(n.s.op.d.host, n.s.op.d.port)
      case None =>
      case Some(endpoint) => HandleSendSubmitsNothing(cfg, n.(h := n.h.(found := [endpoint])), false, Ordered([endpoint]));
    }
  }

  lemma {:induction false} HandleSendSubmitsNothing(cfg: Config, w: World, ok: bool, rest: seq<Endpoint>)
    requires !w.s.op.Idle? && (ok ==> w.s.op.Transmitting?)
    ensures var n := HandleSend(cfg, w, ok, rest);
            n.h.submitted == w.h.submitted && n.s.sendBuffer == w.s.sendBuffer
    decreases |w.s.queue|, 1
  {
    if ok || NextOpen(cfg, rest) == [] {
      AsyncSendSubmitsNothing(cfg, Finish(w, ok));
    }
  }

  lemma {:induction false} EnqueueAllSubmits(cfg: Config, w: World, addresses: seq<string>, port: nat)
    ensures var n := EnqueueAll(cfg, w, addresses, port).0;
            && n.h.submitted == w.h.submitted + Copies(w.s.sendBuffer, addresses, port, |w.h.submitted|)
            && n.s.sendBuffer == w.s.sendBuffer
  {
    if addresses != [] {
      var k := |addresses| - 1;
      EnqueueAllSubmits(cfg, w, addresses[..k], port);
      assert Copies(w.s.sendBuffer, addresses, port, |w.h.submitted|) ==
             Copies(w.s.sendBuffer, addresses[..k], port, |w.h.submitted|)
             + [Datagram(|w.h.submitted| + k, w.s.sendBuffer, addresses[k], port)];
    }
  }

  lemma StepSubmits(cfg: Config, w: World, e: Event, es: seq<Event>)
    requires Enabled(w, e)
    ensures var n := Step(cfg, w, e);
            w.h.submitted + SubmittedBy([e] + es, w.s.sendBuffer, |w.h.submitted|) ==
            n.h.submitted + SubmittedBy(es, n.s.sendBuffer, |n.h.submitted|)
  {
    assert ([e] + es)[1..] == es;
    match e {
      case Submit(host, port) => AsyncSendSubmitsNothing(cfg, Enqueue(cfg, w, host, port).0);
      case Broadcast(addresses, port) =>
        EnqueueAllSubmits(cfg, w, addresses, port);
        AsyncSendSubmitsNothing(cfg, EnqueueAll(cfg, w, addresses, port).0);
      case Resolved(list) => HandleSendSubmitsNothing(cfg, w.(h := w.h.(found := list)), false, Ordered(list));
      case SendDone(ok) => HandleSendSubmitsNothing(cfg, w, ok, w.s.op.rest);
      case _ =>
    }
  }

  lemma {:induction false} RunSubmits(cfg: Config, w: World, es: seq<Event>)
    requires Legal(cfg, w, es)
    ensures After(cfg, w, es).h.submitted == w.h.submitted + SubmittedBy(es, w.s.sendBuffer, |w.h.submitted|)
    decreases |es|
  {
    if es != [] {
      StepSubmits(cfg, w, es[0], es[1..]);
      assert es == [es[0]] + es[1..];
      RunSubmits(cfg, Step(cfg, w, es[0]), es[1..]);
    }
  }

  // ----- fates over time -----

  /** Sent, GivenUp and Discarded are final. */
  ghost predicate Follows(before: Fate, after: Fate) {
    before == after || before == Queued || (before == Active && Done(after))
  }

  ghost predicate Grows(w: World, n: World) {
    && w.h.submitted <= n.h.submitted && w.h.wire <= n.h.wire && |w.h.fate| <= |n.h.fate|
    && forall i :: 0 <= i < |w.h.fate| ==> Follows(w.h.fate[i], n.h.fate[i])
  }

  lemma GrowsIsTransitive(a: World, b: World, c: World)
    requires Grows(a, b) && Grows(b, c)
    ensures Grows(a, c)
  {
    forall i | 0 <= i < |a.h.fate|
      ensures Follows(a.h.fate[i], c.h.fate[i])
    {
      assert Follows(a.h.fate[i], b.h.fate[i]) && Follows(b.h.fate[i], c.h.fate[i]);
    }
  }

  lemma {:induction false} AsyncSendGrows(cfg: Config, w: World)
    requires Core(cfg, w) && w.s.op.Idle?
    ensures Grows(w, AsyncSend(cfg, w))
    decreases |w.s.queue|, 0
  {
    if w.s.queue != [] {
      DequeueKeeps(cfg, w);
      var n := Dequeue(w);
      assert Grows(w, n);
      match cfg.literal(n.s.op.d.host, n.s.op.d.port)
      case None =>
      case Some(endpoint) =>
        LookupLeavesAll(cfg, n, [endpoint]);
        HandleSendGrows(cfg, n.(h := n.h.(found := [endpoint])), false, Ordered([endpoint]));
        GrowsIsTransitive(w, n, AsyncSend(cfg, w));
    }
  }

  lemma {:induction false} HandleSendGrows(cfg: Config, w: World, ok: bool, rest: seq<Endpoint>)
    requires Core(cfg, w) && !w.s.op.Idle? && (ok ==> w.s.op.Transmitting?)
    requires !ok ==> LeftToTry(cfg, w, rest)
    ensures Grows(w, HandleSend(cfg, w, ok, rest))
    decreases |w.s.queue|, 1
  {
    NextOpenSkipsClosed(cfg, rest);
    if ok || NextOpen(cfg, rest) == [] {
      FinishKeeps(cfg, w, ok);
      AsyncSendGrows(cfg, Finish(w, ok));
      GrowsIsTransitive(w, Finish(w, ok), HandleSend(cfg, w, ok, rest));
    }
  }

  /** Waiting datagrams may have been discarded and new ones submitted; all else is as before. */
  ghost predicate Requeues(w: World, n: World) {
    && w.h.submitted <= n.h.submitted && |w.h.fate| <= |n.h.fate|
    && (forall i :: 0 <= i < |w.h.fate| ==> n.h.fate[i] == w.h.fate[i] || (w.h.fate[i] == Queued && n.h.fate[i] == Discarded))
    && (forall i :: |w.h.fate| <= i < |n.h.fate| ==> n.h.fate[i] == Queued || n.h.fate[i] == Discarded)
    && n.s.op == w.s.op && n.h.wire == w.h.wire && n.h.found == w.h.found && n.h.tried == w.h.tried
  }

  lemma RequeuesIsTransitive(a: World, b: World, c: World)
    requires Requeues(a, b) && Requeues(b, c)
    ensures Requeues(a, c)
  {
    forall i | 0 <= i < |a.h.fate|
      ensures c.h.fate[i] == a.h.fate[i] || (a.h.fate[i] == Queued && c.h.fate[i] == Discarded)
    {
      assert b.h.fate[i] == a.h.fate[i] || (a.h.fate[i] == Queued && b.h.fate[i] == Discarded);
      assert c.h.fate[i] == b.h.fate[i] || (b.h.fate[i] == Queued && c.h.fate[i] == Discarded);
    }
  }

  lemma RequeuesGrows(w: World, n: World)
    requires Requeues(w, n)
    ensures Grows(w, n)
  {
  }

  lemma EnqueueRequeues(cfg: Config, w: World, host: string, port: nat)
    requires Core(cfg, w)
    ensures Requeues(w, Enqueue(cfg, w, host, port).0)
  {
    if cfg.overhead + |w.s.sendBuffer| <= w.s.limit {
      var e, k := EnqueueAccepted(cfg, w, host, port);
      EvictTouchesOnlyQueued(cfg, w, e, k);
    }
  }

  /** Datagram `i` is discarded between two states. */
  ghost predicate DiscardedBetween(w: World, n: World, i: nat) {
    i < |n.h.fate| && n.h.fate[i] == Discarded && (i < |w.h.fate| ==> w.h.fate[i] != Discarded)
  }

  ghost predicate SomeDiscarded(w: World, n: World) {
    exists i :: DiscardedBetween(w, n, i)
  }

  /** What is reported as discarded is: the new item, or the oldest ones in the queue. */
  lemma EnqueueReports(cfg: Config, w: World, host: string, port: nat)
    requires Core(cfg, w)
    ensures var (n, discarded) := Enqueue(cfg, w, host, port); discarded <==> SomeDiscarded(w, n)
  {
    var (n, discarded) := Enqueue(cfg, w, host, port);
    if cfg.overhead + |w.s.sendBuffer| > w.s.limit {
      assert DiscardedBetween(w, n, |w.h.fate|);
    } else {
      var e, k := EnqueueAccepted(cfg, w, host, port);
      assert forall i :: 0 <= i < |w.h.fate| ==> n.h.fate[i] == e.h.fate[i];
      if k > 0 {
        FirstIsDiscarded(cfg, w, e, k);
        assert DiscardedBetween(w, n, w.s.queue[0].ticket);
      }
    }
  }

  lemma SomeDiscardedSplits(a: World, b: World, c: World)
    requires Requeues(a, b) && Requeues(b, c)
    ensures SomeDiscarded(a, c) <==> SomeDiscarded(a, b) || SomeDiscarded(b, c)
  {
    if i :| DiscardedBetween(a, c, i) {
      assert DiscardedBetween(a, b, i) || DiscardedBetween(b, c, i);
    }
    if i :| DiscardedBetween(a, b, i) {
      assert DiscardedBetween(a, c, i);
    }
    if i :| DiscardedBetween(b, c, i) {
      assert DiscardedBetween(a, c, i);
    }
  }

  lemma {:induction false} EnqueueAllReports(cfg: Config, w: World, addresses: seq<string>, port: nat)
    requires Core(cfg, w)
    ensures var (n, discarded) := EnqueueAll(cfg, w, addresses, port);
            Requeues(w, n) && (discarded <==> SomeDiscarded(w, n))
  {
    if addresses != [] {
      var front, last := addresses[..|addresses| - 1], addresses[|addresses| - 1];
      var before := EnqueueAll(cfg, w, front, port).0;
      EnqueueAllReports(cfg, w, front, port);
      EnqueueAllKeeps(cfg, w, front, port);
      EnqueueRequeues(cfg, before, last, port);
      EnqueueReports(cfg, before, last, port);
      RequeuesIsTransitive(w, before, Enqueue(cfg, before, last, port).0);
      SomeDiscardedSplits(w, before, Enqueue(cfg, before, last, port).0);
    }
  }

  // The pump discards nothing.

  ghost predicate SameDiscarded(w: World, n: World) {
    && |n.h.fate| == |w.h.fate|
    && forall i :: 0 <= i < |w.h.fate| ==> (n.h.fate[i] == Discarded <==> w.h.fate[i] == Discarded)
  }

  lemma {:induction false} AsyncSendDiscardsNothing(cfg: Config, w: World)
    requires Core(cfg, w) && w.s.op.Idle?
    ensures SameDiscarded(w, AsyncSend(cfg, w)) && AsyncSend(cfg, w).s.limit == w.s.limit
    decreases |w.s.queue|, 0
  {
    if w.s.queue != [] {
      DequeueKeeps(cfg, w);
      var n := Dequeue(w);
      assert SameDiscarded(w, n);
      match cfg.literal(n.s.op.d.host, n.s.op.d.port)
      case None =>
      case Some(endpoint) =>
        LookupLeavesAll(cfg, n, [endpoint]);
        HandleSendDiscardsNothing(cfg, n.(h := n.h.(found := [endpoint])), false, Ordered([endpoint]));
    }
  }

  lemma {:induction false} HandleSendDiscardsNothing(cfg: Config, w: World, ok: bool, rest: seq<Endpoint>)
    requires Core(cfg, w) && !w.s.op.Idle? && (ok ==> w.s.op.Transmitting?)
    requires !ok ==> LeftToTry(cfg, w, rest)
    ensures SameDiscarded(w, HandleSend(cfg, w, ok, rest)) && HandleSend(cfg, w, ok, rest).s.limit == w.s.limit
    decreases |w.s.queue|, 1
  {
    NextOpenSkipsClosed(cfg, rest);
    if ok || NextOpen(cfg, rest) == [] {
      FinishKeeps(cfg, w, ok);
      assert SameDiscarded(w, Finish(w, ok));
      AsyncSendDiscardsNothing(cfg, Finish(w, ok));
    }
  }

  lemma PumpDiscardsNothing(cfg: Config, w: World)
    requires Core(cfg, w)
    ensures SameDiscarded(w, Pump(cfg, w)) && Pump(cfg, w).s.limit == w.s.limit
  {
    if w.s.op.Idle? {
      AsyncSendDiscardsNothing(cfg, w);
    }
  }

  lemma PumpReportsAlike(cfg: Config, w: World, n: World)
    requires Core(cfg, n)
    ensures SomeDiscarded(w, Pump(cfg, n)) <==> SomeDiscarded(w, n)
  {
    PumpDiscardsNothing(cfg, n);
    if i :| DiscardedBetween(w, Pump(cfg, n), i) {
      assert DiscardedBetween(w, n, i);
    }
    if i :| DiscardedBetween(w, n, i) {
      assert DiscardedBetween(w, Pump(cfg, n), i);
    }
  }

  /** send() reports a discard exactly if, after the whole call, some datagram has been discarded by it. */
  lemma DiscardIsReported(cfg: Config, w: World, host: string, port: nat)
    requires Inv(cfg, w)
    ensures Enqueue(cfg, w, host, port).1 <==> SomeDiscarded(w, Step(cfg, w, Submit(host, port)))
  {
    EnqueueReports(cfg, w, host, port);
    EnqueueKeeps(cfg, w, host, port);
    PumpReportsAlike(cfg, w, Enqueue(cfg, w, host, port).0);
  }

  /** So does broadcast(), for all its datagrams together. */
  lemma BroadcastDiscardIsReported(cfg: Config, w: World, addresses: seq<string>, port: nat)
    requires Inv(cfg, w)
    ensures EnqueueAll(cfg, w, addresses, port).1 <==> SomeDiscarded(w, Step(cfg, w, Broadcast(addresses, port)))
  {
    EnqueueAllReports(cfg, w, addresses, port);
    EnqueueAllKeeps(cfg, w, addresses, port);
    PumpReportsAlike(cfg, w, EnqueueAll(cfg, w, addresses, port).0);
  }

  lemma FirstIsDiscarded(cfg: Config, w: World, e: World, k: nat)
    requires Core(cfg, w) && Evicts(w, e, k) && k > 0
    ensures var i := w.s.queue[0].ticket;
            i < |w.h.fate| && w.h.fate[i] == Queued && |e.h.fate| == |w.h.fate| && e.h.fate[i] == Discarded
  {
    assert w.s.queue[..k][0].ticket == w.s.queue[0].ticket;
  }

  lemma PumpGrows(cfg: Config, w: World)
    requires Core(cfg, w)
    ensures Grows(w, Pump(cfg, w))
  {
    if w.s.op.Idle? {
      AsyncSendGrows(cfg, w);
    }
  }

  lemma StepGrows(cfg: Config, w: World, e: Event)
    requires Inv(cfg, w) && Enabled(w, e)
    ensures Grows(w, Step(cfg, w, e))
  {
    var n := Step(cfg, w, e);
    match e
    case Write(_) =>
    case Submit(host, port) =>
      var q := Enqueue(cfg, w, host, port).0;
      EnqueueKeeps(cfg, w, host, port);
      EnqueueRequeues(cfg, w, host, port);
      RequeuesGrows(w, q);
      PumpGrows(cfg, q);
      GrowsIsTransitive(w, q, n);
    case Broadcast(addresses, port) =>
      var q := EnqueueAll(cfg, w, addresses, port).0;
      EnqueueAllKeeps(cfg, w, addresses, port);
      EnqueueAllReports(cfg, w, addresses, port);
      RequeuesGrows(w, q);
      PumpGrows(cfg, q);
      GrowsIsTransitive(w, q, n);
    case SetLimit(max) => EvictTouchesOnlyQueued(cfg, w, n, Dropped(Sizes(cfg, w.s.queue), 0, max));
    case Close =>
      assert w.s.queue[..|w.s.queue|] == w.s.queue;
      EvictTouchesOnlyQueued(cfg, w, n, |w.s.queue|);
    case Resolved(list) =>
      LookupLeavesAll(cfg, w, list);
      HandleSendGrows(cfg, w.(h := w.h.(found := list)), false, Ordered(list));
    case SendDone(ok) => HandleSendGrows(cfg, w, ok, w.s.op.rest);
  }

  /**
   Submitted payloads and transmissions never change afterwards, and a fate is final: nothing sent,
   given up or discarded comes back, whatever the client writes, closes or submits later.
   */
  lemma {:induction false} FatesAreFinal(cfg: Config, w: World, es: seq<Event>)
    requires Inv(cfg, w) && Legal(cfg, w, es)
    ensures Grows(w, After(cfg, w, es))
    decreases |es|
  {
    if es != [] {
      var n := Step(cfg, w, es[0]);
      StepGrows(cfg, w, es[0]);
      StepKeepsInv(cfg, w, es[0]);
      FatesAreFinal(cfg, n, es[1..]);
      GrowsIsTransitive(w, n, After(cfg, w, es));
    }
  }
}
