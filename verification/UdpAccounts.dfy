/**
 What becomes of every datagram, told from the events and the operations alone: which lookups
 returned what, which transmissions were started and which of them succeeded.
 */
module UdpAccounts {
  import opened Common
  import opened AddressOrder
  import opened UdpProtocol
  import opened UdpRuns
  import opened DatagramQueues

  datatype Deed =
    | Found(ticket: nat, list: seq<Endpoint>)      // a lookup returned
    | Tried(ticket: nat, to: Endpoint)             // a transmission was started
    | Delivered(ticket: nat, payload: seq<byte>, to: Endpoint)   // and has succeeded

  /** What a completion reports about the operation that was in progress. */
  ghost function Completed(w: World, e: Event): seq<Deed>
    requires Enabled(w, e)
  {
    match e
    case Resolved(list) => [Found(w.s.op.d.ticket, list)]
    case SendDone(ok) => if ok then [Delivered(w.s.op.d.ticket, w.s.op.d.payload, w.s.op.to)] else []
    case _ => []
  }

  /** The transmission in progress, if there is one. */
  ghost function Started(op: Op): seq<Deed> {
    if op.Transmitting? then [Tried(op.d.ticket, op.to)] else []
  }

  /** A step to `op` starts a transmission if there is one then and it does not just go on. */
  ghost function DeedsIn(w: World, e: Event, op: Op): seq<Deed>
    requires Enabled(w, e)
  {
    Completed(w, e) + if w.s.op.Idle? || e.Resolved? || e.SendDone? then Started(op) else []
  }

  ghost function Deeds(cfg: Config, w: World, es: seq<Event>): seq<Deed>
    requires Legal(cfg, w, es)
    decreases |es|
  {
    if es == [] then []
    else
      var n := Step(cfg, w, es[0]);
      DeedsIn(w, es[0], n.s.op) + Deeds(cfg, n, es[1..])
  }

  /** The endpoints that datagram `t` was sent to, one after the other. */
  ghost function TriesOf(log: seq<Deed>, t: nat): seq<Endpoint> {
    if log == [] then []
    else
      var last := log[|log| - 1];
      TriesOf(log[..|log| - 1], t) + if last.Tried? && last.ticket == t then [last.to] else []
  }

  /** The results of the lookups for datagram `t`. */
  ghost function LookupsOf(log: seq<Deed>, t: nat): seq<seq<Endpoint>> {
    if log == [] then []
    else
      var last := log[|log| - 1];
      LookupsOf(log[..|log| - 1], t) + if last.Found? && last.ticket == t then [last.list] else []
  }

  ghost function Deliveries(log: seq<Deed>): seq<Transmission> {
    if log == [] then []
    else
      var last := log[|log| - 1];
      Deliveries(log[..|log| - 1]) + if last.Delivered? then [Transmission(last.ticket, last.payload, last.to)] else []
  }

  lemma Appended(log: seq<Deed>, deed: Deed, t: nat)
    ensures TriesOf(log + [deed], t) == TriesOf(log, t) + if deed.Tried? && deed.ticket == t then [deed.to] else []
    ensures LookupsOf(log + [deed], t) == LookupsOf(log, t) + if deed.Found? && deed.ticket == t then [deed.list] else []
  {
    assert (log + [deed])[..|log|] == log;
  }

  lemma AppendedDelivery(log: seq<Deed>, deed: Deed)
    ensures Deliveries(log + [deed]) ==
              Deliveries(log) + if deed.Delivered? then [Transmission(deed.ticket, deed.payload, deed.to)] else []
  {
    assert (log + [deed])[..|log|] == log;
  }

  /** Nothing was done for datagram `t`. */
  ghost predicate Untouched(log: seq<Deed>, t: nat) {
    TriesOf(log, t) == [] && LookupsOf(log, t) == []
  }

  /** `list` is what the host of `d` means: itself if it is an address, else the result of its one lookup. */
  ghost predicate LookedUp(cfg: Config, log: seq<Deed>, d: Datagram, list: seq<Endpoint>) {
    match cfg.literal(d.host, d.port)
    case Some(endpoint) => list == [endpoint]
    case None => LookupsOf(log, d.ticket) == [list]
  }

  // ----- the log and the history agree -----

  ghost predicate FateRecorded(cfg: Config, log: seq<Deed>, d: Datagram, fate: Fate) {
    match fate
    case Queued => Untouched(log, d.ticket)
    case Discarded => Untouched(log, d.ticket)
    case Active => true
    case Sent(to) => DeliveredAfter(cfg, log, d, to)
    case GivenUp(found, tried) => LookedUp(cfg, log, d, found) && TriesOf(log, d.ticket) == tried
  }

  /** Endpoints were tried in order, the last of them was `to`. */
  ghost predicate DeliveredAfter(cfg: Config, log: seq<Deed>, d: Datagram, to: Endpoint) {
    var tries := TriesOf(log, d.ticket);
    tries != [] && tries[|tries| - 1] == to &&
    exists list :: LookedUp(cfg, log, d, list) && tries <= Reachable(cfg, Ordered(list))
  }

  ghost predicate FatesRecorded(cfg: Config, h: History, log: seq<Deed>) {
    && |h.fate| == |h.submitted|
    && (forall i :: |h.fate| <= i ==> Untouched(log, i))
    && (forall i :: 0 <= i < |h.fate| ==> FateRecorded(cfg, log, h.submitted[i], h.fate[i]))
  }

  /** The active datagram was looked up and `h.tried` are its tries. */
  ghost predicate Ready(cfg: Config, d: Datagram, h: History, log: seq<Deed>) {
    LookedUp(cfg, log, d, h.found) && TriesOf(log, d.ticket) == h.tried
  }

  ghost predicate OpRecorded(cfg: Config, op: Op, h: History, log: seq<Deed>) {
    match op
    case Idle => true
    case Looking(d) => Untouched(log, d.ticket) && cfg.literal(d.host, d.port).None?
    case Transmitting(d, _, _) => Ready(cfg, d, h, log)
  }

  ghost predicate Records(cfg: Config, w: World, log: seq<Deed>) {
    Deliveries(log) == w.h.wire && FatesRecorded(cfg, w.h, log) && OpRecorded(cfg, w.s.op, w.h, log)
  }

  /** A deed for the active datagram changes nothing for the others. */
  lemma DeedKeepsFates(cfg: Config, w: World, log: seq<Deed>, deed: Deed)
    requires Core(cfg, w) && !w.s.op.Idle? && deed.ticket == w.s.op.d.ticket && FatesRecorded(cfg, w.h, log)
    ensures FatesRecorded(cfg, w.h, log + [deed])
  {
    assert deed.ticket < |w.h.fate|;
    forall i | |w.h.fate| <= i
      ensures Untouched(log + [deed], i)
    {
      assert Untouched(log, i);
      Appended(log, deed, i);
    }
    forall i | 0 <= i < |w.h.fate|
      ensures FateRecorded(cfg, log + [deed], w.h.submitted[i], w.h.fate[i])
    {
      if i != deed.ticket {
        Appended(log, deed, i);
        SameRecord(cfg, log, log + [deed], w.h.submitted[i], w.h.fate[i]);
      }
    }
  }

  lemma SameRecord(cfg: Config, log: seq<Deed>, log': seq<Deed>, d: Datagram, fate: Fate)
    requires FateRecorded(cfg, log, d, fate)
    requires TriesOf(log', d.ticket) == TriesOf(log, d.ticket) && LookupsOf(log', d.ticket) == LookupsOf(log, d.ticket)
    ensures FateRecorded(cfg, log', d, fate)
  {
    if fate.Sent? {
      var list :| LookedUp(cfg, log, d, list) && TriesOf(log, d.ticket) <= Reachable(cfg, Ordered(list));
      assert LookedUp(cfg, log', d, list);
    }
  }

  lemma DequeueRecords(cfg: Config, w: World, log: seq<Deed>)
    requires Core(cfg, w) && w.s.op.Idle? && w.s.queue != [] && Records(cfg, w, log)
    ensures var n := Dequeue(w);
            && FatesRecorded(cfg, n.h, log)
            && Untouched(log, n.s.op.d.ticket) && Deliveries(log) == n.h.wire
  {
    var d := w.s.queue[0];
    assert FateRecorded(cfg, log, w.h.submitted[d.ticket], w.h.fate[d.ticket]);
  }

  /** The fate of the active datagram once it is finished. */
  lemma FinishedFateRecorded(cfg: Config, d: Datagram, h: History, ok: bool, to: Endpoint, log: seq<Deed>)
    requires Ready(cfg, d, h, log)
    requires ok ==> h.tried != [] && h.tried[|h.tried| - 1] == to && h.tried <= Reachable(cfg, Ordered(h.found))
    ensures FateRecorded(cfg, log, d, if ok then Sent(to) else GivenUp(h.found, h.tried))
  {
    if ok {
      assert LookedUp(cfg, log, d, h.found);
    }
  }

  lemma FinishRecords(cfg: Config, w: World, ok: bool, log: seq<Deed>)
    requires Core(cfg, w) && !w.s.op.Idle? && (ok ==> w.s.op.Transmitting?)
    requires FatesRecorded(cfg, w.h, log) && Ready(cfg, w.s.op.d, w.h, log)
    requires Deliveries(log) == Finish(w, ok).h.wire
    ensures Records(cfg, Finish(w, ok), log)
  {
    var n, d := Finish(w, ok), w.s.op.d;
    FinishedFateRecorded(cfg, d, w.h, ok, if ok then w.s.op.to else DEFAULT_ENDPOINT, log);
    forall i | 0 <= i < |n.h.fate|
      ensures FateRecorded(cfg, log, n.h.submitted[i], n.h.fate[i])
    {
      if i != d.ticket {
        assert FateRecorded(cfg, log, w.h.submitted[i], w.h.fate[i]);
      }
    }
  }

  lemma TransmitRecords(cfg: Config, w: World, open: seq<Endpoint>, log: seq<Deed>)
    requires Core(cfg, w) && !w.s.op.Idle? && open != []
    requires FatesRecorded(cfg, w.h, log) && Ready(cfg, w.s.op.d, w.h, log) && Deliveries(log) == w.h.wire
    ensures var n := Transmit(w, open); Records(cfg, n, log + Started(n.s.op))
  {
    var deed := Tried(w.s.op.d.ticket, open[0]);
    Appended(log, deed, deed.ticket);
    AppendedDelivery(log, deed);
    DeedKeepsFates(cfg, w, log, deed);
  }

  lemma {:induction false} AsyncSendRecords(cfg: Config, w: World, log: seq<Deed>)
    requires Core(cfg, w) && w.s.op.Idle? && Records(cfg, w, log)
    ensures var n := AsyncSend(cfg, w);
            Records(cfg, n, log + Started(n.s.op))
    decreases |w.s.queue|, 0
  {
    assert log + [] == log;
    if w.s.queue != [] {
      var n := Dequeue(w);
      DequeueKeeps(cfg, w);
      DequeueRecords(cfg, w, log);
      match cfg.literal(n.s.op.d.host, n.s.op.d.port)
      case None =>
      case Some(endpoint) =>
        LookupLeavesAll(cfg, n, [endpoint]);
        HandleSendRecords(cfg, n.(h := n.h.(found := [endpoint])), false, Ordered([endpoint]), log);
    }
  }

  lemma {:induction false} HandleSendRecords(cfg: Config, w: World, ok: bool, rest: seq<Endpoint>, log: seq<Deed>)
    requires Core(cfg, w) && !w.s.op.Idle? && (ok ==> w.s.op.Transmitting?)
    requires !ok ==> LeftToTry(cfg, w, rest)
    requires FatesRecorded(cfg, w.h, log) && Ready(cfg, w.s.op.d, w.h, log)
    requires Deliveries(log) == Finish(w, ok).h.wire
    ensures var n := HandleSend(cfg, w, ok, rest);
            Records(cfg, n, log + Started(n.s.op))
    decreases |w.s.queue|, 1
  {
    if !ok && NextOpen(cfg, rest) != [] {
      TransmitRecords(cfg, w, NextOpen(cfg, rest), log);
    } else {
      NextOpenSkipsClosed(cfg, rest);
      FinishKeeps(cfg, w, ok);
      FinishRecords(cfg, w, ok, log);
      AsyncSendRecords(cfg, Finish(w, ok), log);
    }
  }

  /** Discarding and submitting datagrams does not show in the log. */
  lemma RequeueRecords(cfg: Config, w: World, n: World, log: seq<Deed>)
    requires Core(cfg, w) && Records(cfg, w, log) && Requeues(w, n) && |n.h.fate| == |n.h.submitted|
    requires Numbered(n.h)
    ensures Records(cfg, n, log)
  {
    forall i | 0 <= i < |n.h.fate|
      ensures FateRecorded(cfg, log, n.h.submitted[i], n.h.fate[i])
    {
      if i < |w.h.fate| {
        assert FateRecorded(cfg, log, w.h.submitted[i], w.h.fate[i]);
      }
    }
  }

  lemma PumpRecords(cfg: Config, w: World, log: seq<Deed>)
    requires Core(cfg, w) && Records(cfg, w, log)
    ensures var n := Pump(cfg, w);
            Records(cfg, n, log + if w.s.op.Idle? then Started(n.s.op) else [])
  {
    assert log + [] == log;
    if w.s.op.Idle? {
      AsyncSendRecords(cfg, w, log);
    }
  }

  lemma LookupRecords(cfg: Config, w: World, list: seq<Endpoint>, log: seq<Deed>)
    requires Inv(cfg, w) && w.s.op.Looking? && Records(cfg, w, log)
    ensures var h, log' := w.h.(found := list), log + [Found(w.s.op.d.ticket, list)];
            FatesRecorded(cfg, h, log') && Ready(cfg, w.s.op.d, h, log') && Deliveries(log') == h.wire
  {
    var deed := Found(w.s.op.d.ticket, list);
    Appended(log, deed, deed.ticket);
    AppendedDelivery(log, deed);
    DeedKeepsFates(cfg, w, log, deed);
  }

  lemma DeliveryRecords(cfg: Config, w: World, log: seq<Deed>)
    requires Inv(cfg, w) && w.s.op.Transmitting? && Records(cfg, w, log)
    ensures var log' := log + [Delivered(w.s.op.d.ticket, w.s.op.d.payload, w.s.op.to)];
            && FatesRecorded(cfg, w.h, log') && Ready(cfg, w.s.op.d, w.h, log')
            && Deliveries(log') == Finish(w, true).h.wire
  {
    var deed := Delivered(w.s.op.d.ticket, w.s.op.d.payload, w.s.op.to);
    Appended(log, deed, deed.ticket);
    AppendedDelivery(log, deed);
    DeedKeepsFates(cfg, w, log, deed);
  }

  lemma CompletionRecords(cfg: Config, w: World, e: Event, log: seq<Deed>)
    requires Inv(cfg, w) && Enabled(w, e) && Records(cfg, w, log) && (e.Resolved? || e.SendDone?)
    ensures var n := Step(cfg, w, e);
            Records(cfg, n, log + DeedsIn(w, e, n.s.op))
  {
    assert log + [] == log;
    if e.Resolved? {
      LookupRecords(cfg, w, e.list, log);
      LookupLeavesAll(cfg, w, e.list);
      HandleSendRecords(cfg, w.(h := w.h.(found := e.list)), false, Ordered(e.list), log + Completed(w, e));
    } else if e.ok {
      DeliveryRecords(cfg, w, log);
      HandleSendRecords(cfg, w, true, w.s.op.rest, log + Completed(w, e));
    } else {
      HandleSendRecords(cfg, w, false, w.s.op.rest, log);
    }
    Grouped(log, Completed(w, e), Started(Step(cfg, w, e).s.op));
  }

  /** Queueing and then pumping: what send() and broadcast() do with what they queued in `q`. */
  lemma PumpedRecords(cfg: Config, w: World, q: World, log: seq<Deed>)
    requires Core(cfg, w) && Records(cfg, w, log) && Core(cfg, q) && Requeues(w, q)
    ensures var n := Pump(cfg, q);
            Records(cfg, n, log + if w.s.op.Idle? then Started(n.s.op) else [])
  {
    RequeueRecords(cfg, w, q, log);
    PumpRecords(cfg, q, log);
  }

  /** Discarding what waits at the front. */
  lemma EvictedRecords(cfg: Config, w: World, n: World, k: nat, log: seq<Deed>)
    requires Core(cfg, w) && Records(cfg, w, log) && Evicts(w, n, k)
    ensures Records(cfg, n, log)
  {
    EvictTouchesOnlyQueued(cfg, w, n, k);
    RequeueRecords(cfg, w, n, log);
  }

  lemma SubmissionRecords(cfg: Config, w: World, e: Event, log: seq<Deed>)
    requires Inv(cfg, w) && Records(cfg, w, log) && (e.Submit? || e.Broadcast?)
    ensures var n := Step(cfg, w, e);
            Records(cfg, n, log + if w.s.op.Idle? then Started(n.s.op) else [])
  {
    if e.Submit? {
      EnqueueKeeps(cfg, w, e.host, e.port);
      EnqueueRequeues(cfg, w, e.host, e.port);
      PumpedRecords(cfg, w, Enqueue(cfg, w, e.host, e.port).0, log);
    } else {
      EnqueueAllKeeps(cfg, w, e.addresses, e.toPort);
      EnqueueAllReports(cfg, w, e.addresses, e.toPort);
      PumpedRecords(cfg, w, EnqueueAll(cfg, w, e.addresses, e.toPort).0, log);
    }
  }

  lemma OtherCallRecords(cfg: Config, w: World, e: Event, log: seq<Deed>)
    requires Inv(cfg, w) && Records(cfg, w, log) && (e.Write? || e.SetLimit? || e.Close?)
    ensures var n := Step(cfg, w, e);
            Records(cfg, n, log) && n.s.op == w.s.op
  {
    if e.SetLimit? {
      EvictedRecords(cfg, w, Step(cfg, w, e), Dropped(Sizes(cfg, w.s.queue), 0, e.max), log);
    } else if e.Close? {
      assert w.s.queue[..|w.s.queue|] == w.s.queue;
      EvictedRecords(cfg, w, Step(cfg, w, e), |w.s.queue|, log);
    }
  }

  lemma ClientCallRecords(cfg: Config, w: World, e: Event, log: seq<Deed>)
    requires Inv(cfg, w) && Enabled(w, e) && Records(cfg, w, log) && !e.Resolved? && !e.SendDone?
    ensures var n := Step(cfg, w, e);
            Records(cfg, n, log + DeedsIn(w, e, n.s.op))
  {
    Grouped(log, [], Started(Step(cfg, w, e).s.op));
    if e.Submit? || e.Broadcast? {
      SubmissionRecords(cfg, w, e, log);
    } else {
      OtherCallRecords(cfg, w, e, log);
      assert log + [] == log;
    }
  }

  lemma StepRecords(cfg: Config, w: World, e: Event, log: seq<Deed>)
    requires Inv(cfg, w) && Enabled(w, e) && Records(cfg, w, log)
    ensures Records(cfg, Step(cfg, w, e), log + DeedsIn(w, e, Step(cfg, w, e).s.op))
  {
    if e.Resolved? || e.SendDone? {
      CompletionRecords(cfg, w, e, log);
    } else {
      ClientCallRecords(cfg, w, e, log);
    }
  }

  lemma {:induction false} RunRecords(cfg: Config, w: World, es: seq<Event>, log: seq<Deed>)
    requires Inv(cfg, w) && Legal(cfg, w, es) && Records(cfg, w, log)
    ensures Inv(cfg, After(cfg, w, es)) && Records(cfg, After(cfg, w, es), log + Deeds(cfg, w, es))
    decreases |es|
  {
    if es == [] {
      assert log + [] == log;
    } else {
      var n, now := Step(cfg, w, es[0]), DeedsIn(w, es[0], Step(cfg, w, es[0]).s.op);
      StepKeepsInv(cfg, w, es[0]);
      StepRecords(cfg, w, es[0], log);
      RunRecords(cfg, n, es[1..], log + now);
      Grouped(log, now, Deeds(cfg, n, es[1..]));
    }
  }

  // ----- why a datagram is discarded -----

  /** Datagram `i` and those submitted after it exceed the limit. */
  ghost predicate Squeezed(cfg: Config, w: World, i: nat) {
    i < |w.h.submitted| && Sum(Sizes(cfg, w.h.submitted), i) > w.s.limit
  }

  /** What waits from position j on is a part of what was submitted from there on. */
  lemma {:induction false} WaitingIsPart(cfg: Config, w: World, j: nat)
    requires Core(cfg, w) && j < |w.s.queue|
    ensures w.s.queue[j].ticket < |w.h.submitted|
    ensures Sum(Sizes(cfg, w.s.queue), j) <= Sum(Sizes(cfg, w.h.submitted), w.s.queue[j].ticket)
    decreases |w.s.queue| - j
  {
    var t, all := w.s.queue[j].ticket, Sizes(cfg, w.h.submitted);
    assert w.h.submitted[t] == w.s.queue[j];
    if j + 1 < |w.s.queue| {
      WaitingIsPart(cfg, w, j + 1);
      SumShrinks(all, t + 1, w.s.queue[j + 1].ticket);
    }
  }

  lemma EvictSqueezes(cfg: Config, w: World, n: World, k: nat, i: nat, room: int)
    requires Core(cfg, w) && Evicts(w, n, k) && DiscardedBetween(w, n, i)
    requires forall j :: 0 <= j < k ==> Sum(Sizes(cfg, w.s.queue), j) > room
    ensures i < |w.h.submitted| && Sum(Sizes(cfg, w.h.submitted), i) > room
  {
    var j :| 0 <= j < |w.s.queue[..k]| && w.s.queue[..k][j].ticket == i;
    assert w.s.queue[j].ticket == i;
    WaitingIsPart(cfg, w, j);
  }

  /** With one more datagram, `i` and those after it take up that much more. */
  lemma SpanGrowsBy(cfg: Config, submitted: seq<Datagram>, d: Datagram, i: nat)
    requires i <= |submitted|
    ensures Sum(Sizes(cfg, submitted + [d]), i) == Sum(Sizes(cfg, submitted), i) + (cfg.overhead + |d.payload|)
  {
    assert Sizes(cfg, submitted + [d]) == Sizes(cfg, submitted) + [cfg.overhead + |d.payload|];
    SumOfAppend(Sizes(cfg, submitted), cfg.overhead + |d.payload|, i);
  }

  lemma EnqueueSqueezes(cfg: Config, w: World, host: string, port: nat, i: nat)
    requires Core(cfg, w)
    requires DiscardedBetween(w, Enqueue(cfg, w, host, port).0, i) || Squeezed(cfg, w, i)
    ensures Squeezed(cfg, Enqueue(cfg, w, host, port).0, i)
  {
    var size := cfg.overhead + |w.s.sendBuffer|;
    SpanGrowsBy(cfg, w.h.submitted, Datagram(|w.h.submitted|, w.s.sendBuffer, host, port), i);
    if size <= w.s.limit && !Squeezed(cfg, w, i) {
      AcceptedSqueezes(cfg, w, host, port, i);
    }
  }

  lemma AcceptedSqueezes(cfg: Config, w: World, host: string, port: nat, i: nat)
    requires Core(cfg, w) && cfg.overhead + |w.s.sendBuffer| <= w.s.limit
    requires DiscardedBetween(w, Enqueue(cfg, w, host, port).0, i)
    ensures i < |w.h.submitted| && Sum(Sizes(cfg, w.h.submitted), i) > w.s.limit - (cfg.overhead + |w.s.sendBuffer|)
  {
    var room := w.s.limit - (cfg.overhead + |w.s.sendBuffer|);
    var k := Dropped(Sizes(cfg, w.s.queue), 0, room);
    KeepsLongestSuffix(Sizes(cfg, w.s.queue), 0, room);
    var e := World(w.s.(queue := w.s.queue[k..]), w.h.(fate := Discard(w.h.fate, w.s.queue[..k])));
    EvictSqueezes(cfg, w, e, k, i, room);
  }

  lemma {:induction false} EnqueueAllSqueezes(cfg: Config, w: World, addresses: seq<string>, port: nat, i: nat)
    requires Core(cfg, w) && DiscardedBetween(w, EnqueueAll(cfg, w, addresses, port).0, i)
    ensures Squeezed(cfg, EnqueueAll(cfg, w, addresses, port).0, i)
  {
    if addresses != [] {
      var front, last := addresses[..|addresses| - 1], addresses[|addresses| - 1];
      var before := EnqueueAll(cfg, w, front, port).0;
      EnqueueAllKeeps(cfg, w, front, port);
      if DiscardedBetween(w, before, i) {
        EnqueueAllSqueezes(cfg, w, front, port, i);
      }
      EnqueueSqueezes(cfg, before, last, port, i);
    }
  }

  lemma PumpSqueezes(cfg: Config, w: World, n: World, i: nat)
    requires Core(cfg, n) && DiscardedBetween(w, Pump(cfg, n), i)
    ensures DiscardedBetween(w, n, i) && (Squeezed(cfg, n, i) ==> Squeezed(cfg, Pump(cfg, n), i))
  {
    PumpDiscardsNothing(cfg, n);
    if n.s.op.Idle? {
      AsyncSendSubmitsNothing(cfg, n);
    }
  }

  lemma StepSqueezes(cfg: Config, w: World, e: Event, i: nat)
    requires Inv(cfg, w) && Enabled(w, e) && DiscardedBetween(w, Step(cfg, w, e), i) && !e.Close?
    ensures Squeezed(cfg, Step(cfg, w, e), i)
  {
    match e
    case Write(_) =>
    case Submit(host, port) =>
      var n := Enqueue(cfg, w, host, port).0;
      EnqueueKeeps(cfg, w, host, port);
      PumpSqueezes(cfg, w, n, i);
      EnqueueSqueezes(cfg, w, host, port, i);
    case Broadcast(addresses, port) =>
      var n := EnqueueAll(cfg, w, addresses, port).0;
      EnqueueAllKeeps(cfg, w, addresses, port);
      PumpSqueezes(cfg, w, n, i);
      EnqueueAllSqueezes(cfg, w, addresses, port, i);
    case SetLimit(max) =>
      KeepsLongestSuffix(Sizes(cfg, w.s.queue), 0, max);
      EvictSqueezes(cfg, w, Step(cfg, w, e), Dropped(Sizes(cfg, w.s.queue), 0, max), i, max);
    case Resolved(list) =>
      LookupLeavesAll(cfg, w, list);
      HandleSendDiscardsNothing(cfg, w.(h := w.h.(found := list)), false, Ordered(list));
    case SendDone(ok) => HandleSendDiscardsNothing(cfg, w, ok, w.s.op.rest);
  }

  /** The limit in force after the events. */
  ghost function LimitAfter(limit: nat, past: seq<Event>): nat {
    if past == [] then limit
    else if past[|past| - 1].SetLimit? then past[|past| - 1].max
    else LimitAfter(limit, past[..|past| - 1])
  }

  /** After these events datagram `i` and those submitted after it exceed the limit, or the socket was just closed. */
  ghost predicate MayDiscard(cfg: Config, limit: nat, past: seq<Event>, i: nat) {
    var submitted := SubmittedBy(past, [], 0);
    && i < |submitted|
    && (Sum(Sizes(cfg, submitted), i) > LimitAfter(limit, past) || (past != [] && past[|past| - 1].Close?))
  }

  ghost predicate HadToGo(cfg: Config, limit: nat, es: seq<Event>, i: nat) {
    exists p :: 0 <= p <= |es| && MayDiscard(cfg, limit, es[..p], i)
  }

  lemma {:induction false} AfterConcat(cfg: Config, w: World, a: seq<Event>, b: seq<Event>)
    requires Legal(cfg, w, a + b)
    ensures Legal(cfg, w, a) && Legal(cfg, After(cfg, w, a), b)
    ensures After(cfg, w, a + b) == After(cfg, After(cfg, w, a), b)
    decreases |a|
  {
    if a == [] {
      assert a + b == b;
    } else {
      assert (a + b)[1..] == a[1..] + b;
      AfterConcat(cfg, Step(cfg, w, a[0]), a[1..], b);
    }
  }

  /** The last step of a run. */
  lemma LastStep(cfg: Config, w0: World, es: seq<Event>) returns (w: World)
    requires Inv(cfg, w0) && Legal(cfg, w0, es) && es != []
    ensures Legal(cfg, w0, es[..|es| - 1]) && w == After(cfg, w0, es[..|es| - 1]) && Inv(cfg, w)
    ensures Enabled(w, es[|es| - 1]) && After(cfg, w0, es) == Step(cfg, w, es[|es| - 1])
  {
    var front, last := es[..|es| - 1], [es[|es| - 1]];
    assert front + last == es && last[1..] == [];
    AfterConcat(cfg, w0, front, last);
    RunKeepsInv(cfg, w0, front);
    w := After(cfg, w0, front);
    LastIsStep(cfg, w, last);
  }

  lemma LastIsStep(cfg: Config, w: World, last: seq<Event>)
    requires |last| == 1 && Legal(cfg, w, last)
    ensures Enabled(w, last[0]) && After(cfg, w, last) == Step(cfg, w, last[0])
  {
    assert last[1..] == [];
  }

  lemma StepSetsLimit(cfg: Config, w: World, e: Event)
    requires Inv(cfg, w) && Enabled(w, e)
    ensures Step(cfg, w, e).s.limit == if e.SetLimit? then e.max else w.s.limit
  {
    match e
    case Submit(host, port) =>
      EnqueueKeeps(cfg, w, host, port);
      PumpDiscardsNothing(cfg, Enqueue(cfg, w, host, port).0);
    case Broadcast(addresses, port) =>
      EnqueueAllKeepsLimit(cfg, w, addresses, port);
      EnqueueAllKeeps(cfg, w, addresses, port);
      PumpDiscardsNothing(cfg, EnqueueAll(cfg, w, addresses, port).0);
    case Resolved(list) =>
      LookupLeavesAll(cfg, w, list);
      HandleSendDiscardsNothing(cfg, w.(h := w.h.(found := list)), false, Ordered(list));
    case SendDone(ok) => HandleSendDiscardsNothing(cfg, w, ok, w.s.op.rest);
    case _ =>
  }

  lemma {:induction false} EnqueueAllKeepsLimit(cfg: Config, w: World, addresses: seq<string>, port: nat)
    ensures EnqueueAll(cfg, w, addresses, port).0.s.limit == w.s.limit
  {
    if addresses != [] {
      EnqueueAllKeepsLimit(cfg, w, addresses[..|addresses| - 1], port);
    }
  }

  lemma {:induction false} RunSetsLimit(cfg: Config, w0: World, es: seq<Event>)
    requires Inv(cfg, w0) && Legal(cfg, w0, es)
    ensures After(cfg, w0, es).s.limit == LimitAfter(w0.s.limit, es)
    decreases |es|
  {
    if es != [] {
      var w := LastStep(cfg, w0, es);
      RunSetsLimit(cfg, w0, es[..|es| - 1]);
      StepSetsLimit(cfg, w, es[|es| - 1]);
    }
  }

  /** Nothing has been written or submitted yet. */
  ghost predicate Unused(w: World) {
    w.h.submitted == [] && w.h.fate == [] && w.s.sendBuffer == []
  }

  /** A discarded datagram had to go at some moment of the run. */
  lemma {:induction false} DiscardsHaveReasons(cfg: Config, w0: World, es: seq<Event>, i: nat)
    requires Unused(w0) && Inv(cfg, w0) && Legal(cfg, w0, es)
    requires DiscardedBetween(w0, After(cfg, w0, es), i)
    ensures HadToGo(cfg, w0.s.limit, es, i)
    decreases |es|
  {
    if es != [] {
      var front := es[..|es| - 1];
      var w := LastStep(cfg, w0, es);
      if DiscardedBetween(w0, w, i) {
        DiscardsHaveReasons(cfg, w0, front, i);
        HadToGoLater(cfg, w0.s.limit, front, es, i);
      } else {
        RunSubmits(cfg, w0, es);
        RunSetsLimit(cfg, w0, es);
        DiscardedNow(cfg, w0.s.limit, es, w, After(cfg, w0, es), i);
      }
    }
  }

  lemma HadToGoLater(cfg: Config, limit: nat, front: seq<Event>, es: seq<Event>, i: nat)
    requires front <= es && HadToGo(cfg, limit, front, i)
    ensures HadToGo(cfg, limit, es, i)
  {
    var p :| 0 <= p <= |front| && MayDiscard(cfg, limit, front[..p], i);
    assert es[..p] == front[..p];
  }

  lemma DiscardedNow(cfg: Config, limit: nat, es: seq<Event>, w: World, n: World, i: nat)
    requires es != [] && Inv(cfg, w) && Enabled(w, es[|es| - 1]) && n == Step(cfg, w, es[|es| - 1])
    requires n.h.submitted == SubmittedBy(es, [], 0) && n.s.limit == LimitAfter(limit, es)
    requires DiscardedBetween(w, n, i)
    ensures HadToGo(cfg, limit, es, i)
  {
    if es[|es| - 1].Close? {
      StepKeepsInv(cfg, w, es[|es| - 1]);
    } else {
      StepSqueezes(cfg, w, es[|es| - 1], i);
    }
    assert es[..|es|] == es && MayDiscard(cfg, limit, es[..|es|], i);
  }

  // ----- the account -----

  ghost predicate DeliveredIn(log: seq<Deed>, t: nat) {
    exists k :: 0 <= k < |Deliveries(log)| && Deliveries(log)[k].ticket == t
  }

  /** It was sent to endpoints that its lookup returned, in order, until the last of them took it. */
  ghost predicate WasDelivered(cfg: Config, log: seq<Deed>, d: Datagram) {
    exists to :: Transmission(d.ticket, d.payload, to) in Deliveries(log) && DeliveredAfter(cfg, log, d, to)
  }

  /** It was sent to every endpoint that its lookup returned and there is a socket for, in vain. */
  ghost predicate WasExhausted(cfg: Config, log: seq<Deed>, d: Datagram) {
    && !DeliveredIn(log, d.ticket)
    && exists list :: LookedUp(cfg, log, d, list) && TriesOf(log, d.ticket) == Reachable(cfg, Ordered(list))
  }

  /** Nothing was done for it, and it waits, or had to go. */
  ghost predicate WasLeft(cfg: Config, limit: nat, es: seq<Event>, queue: seq<Datagram>, log: seq<Deed>, d: Datagram) {
    !DeliveredIn(log, d.ticket) && Untouched(log, d.ticket) && (d in queue || HadToGo(cfg, limit, es, d.ticket))
  }

  ghost predicate InProgress(op: Op, log: seq<Deed>, d: Datagram) {
    !op.Idle? && op.d == d && !DeliveredIn(log, d.ticket)
  }

  ghost predicate AccountedFor(cfg: Config, limit: nat, es: seq<Event>, s: Udp, log: seq<Deed>, d: Datagram) {
    || WasLeft(cfg, limit, es, s.queue, log, d)
    || InProgress(s.op, log, d)
    || WasDelivered(cfg, log, d)
    || WasExhausted(cfg, log, d)
  }

  /** Submitted payloads in the order of submission, each at most once. */
  ghost predicate WireOf(submitted: seq<Datagram>, wire: seq<Transmission>) {
    && (forall j, k :: 0 <= j < k < |wire| ==> wire[j].ticket < wire[k].ticket)
    && (forall k :: 0 <= k < |wire| ==>
          wire[k].ticket < |submitted| && wire[k].payload == submitted[wire[k].ticket].payload)
  }

  ghost predicate AllAccountedFor(cfg: Config, limit: nat, es: seq<Event>, s: Udp, log: seq<Deed>) {
    var submitted := SubmittedBy(es, [], 0);
    forall i :: 0 <= i < |submitted| ==> submitted[i].ticket == i && AccountedFor(cfg, limit, es, s, log, submitted[i])
  }

  /**
   Over every run: the successful transmissions are those of submitted datagrams with the payload and in
   the order of their submission, each at most once. Every submitted datagram waits untouched, or is in
   progress, or was delivered by the last of the endpoints it was sent to, or was sent in vain to all
   reachable endpoints that its lookup returned, or was discarded untouched because it and later ones
   exceeded the limit or the socket was closed. A non-empty queue implies an operation in progress.
   */
  lemma EveryDatagramAccountedFor(cfg: Config, limit: nat, es: seq<Event>)
    requires Legal(cfg, NewWorld(limit), es)
    ensures var w, log := After(cfg, NewWorld(limit), es), Deeds(cfg, NewWorld(limit), es);
            && (w.s.queue != [] ==> !w.s.op.Idle?)
            && WireOf(SubmittedBy(es, [], 0), Deliveries(log))
            && AllAccountedFor(cfg, limit, es, w.s, log)
  {
    NewIsUnused(cfg, limit);
    RunAccounts(cfg, NewWorld(limit), es);
  }

  lemma NewIsUnused(cfg: Config, limit: nat)
    ensures var w0 := NewWorld(limit);
            Unused(w0) && Inv(cfg, w0) && Records(cfg, w0, []) && w0.s.limit == limit
  {
  }

  lemma RunAccounts(cfg: Config, w0: World, es: seq<Event>)
    requires Unused(w0) && Inv(cfg, w0) && Records(cfg, w0, []) && Legal(cfg, w0, es)
    ensures var w, log := After(cfg, w0, es), Deeds(cfg, w0, es);
            && (w.s.queue != [] ==> !w.s.op.Idle?)
            && WireOf(SubmittedBy(es, [], 0), Deliveries(log))
            && AllAccountedFor(cfg, w0.s.limit, es, w.s, log)
  {
    var w, log := RunSettles(cfg, w0, es);
    AllDiscardsHaveReasons(cfg, w0, es);
    RunSubmits(cfg, w0, es);
    Grouped([], [], SubmittedBy(es, [], 0));
    InvAccounts(cfg, w0.s.limit, es, w, log);
  }

  lemma RunSettles(cfg: Config, w0: World, es: seq<Event>) returns (w: World, log: seq<Deed>)
    requires Inv(cfg, w0) && Records(cfg, w0, []) && Legal(cfg, w0, es)
    ensures w == After(cfg, w0, es) && log == Deeds(cfg, w0, es)
    ensures Inv(cfg, w) && Records(cfg, w, log)
  {
    RunRecords(cfg, w0, es, []);
    w, log := After(cfg, w0, es), Deeds(cfg, w0, es);
    Grouped([], [], log);
  }

  lemma AllDiscardsHaveReasons(cfg: Config, w0: World, es: seq<Event>)
    requires Unused(w0) && Inv(cfg, w0) && Legal(cfg, w0, es)
    ensures var fate := After(cfg, w0, es).h.fate;
            forall i :: 0 <= i < |fate| && fate[i] == Discarded ==> HadToGo(cfg, w0.s.limit, es, i)
  {
    var w := After(cfg, w0, es);
    forall i | 0 <= i < |w.h.fate| && w.h.fate[i] == Discarded
      ensures HadToGo(cfg, w0.s.limit, es, i)
    {
      DiscardsHaveReasons(cfg, w0, es, i);
    }
  }

  lemma InvAccounts(cfg: Config, limit: nat, es: seq<Event>, w: World, log: seq<Deed>)
    requires Inv(cfg, w) && Records(cfg, w, log) && w.h.submitted == SubmittedBy(es, [], 0)
    requires forall i :: 0 <= i < |w.h.fate| && w.h.fate[i] == Discarded ==> HadToGo(cfg, limit, es, i)
    ensures WireOf(w.h.submitted, Deliveries(log)) && AllAccountedFor(cfg, limit, es, w.s, log)
  {
    forall i | 0 <= i < |w.h.submitted|
      ensures w.h.submitted[i].ticket == i && AccountedFor(cfg, limit, es, w.s, log, w.h.submitted[i])
    {
      FateAccounts(cfg, limit, es, w, log, i);
    }
  }

  lemma FateAccounts(cfg: Config, limit: nat, es: seq<Event>, w: World, log: seq<Deed>, i: nat)
    requires Inv(cfg, w) && Records(cfg, w, log) && i < |w.h.submitted|
    requires w.h.fate[i] == Discarded ==> HadToGo(cfg, limit, es, i)
    ensures AccountedFor(cfg, limit, es, w.s, log, w.h.submitted[i])
  {
    assert FateRecorded(cfg, log, w.h.submitted[i], w.h.fate[i]) && w.h.submitted[i].ticket == i;
    OnlySentIsDelivered(cfg, w, log, i);
    match w.h.fate[i]
    case Queued => QueuedWaits(cfg, w, i);
    case Discarded =>
    case Active => assert InProgress(w.s.op, log, w.h.submitted[i]);
    case Sent(to) =>
      SentIsOnWire(cfg, w, i);
      assert WasDelivered(cfg, log, w.h.submitted[i]);
    case GivenUp(found, tried) =>
      assert TriesOf(log, i) == Reachable(cfg, Ordered(found));
      assert WasExhausted(cfg, log, w.h.submitted[i]);
  }

  lemma QueuedWaits(cfg: Config, w: World, i: nat)
    requires Core(cfg, w) && i < |w.h.fate| && w.h.fate[i] == Queued
    ensures w.h.submitted[i] in w.s.queue
  {
    var j :| 0 <= j < |w.s.queue| && w.s.queue[j].ticket == i;
    assert w.s.queue[j] == w.h.submitted[i];
  }

  lemma SentIsOnWire(cfg: Config, w: World, i: nat)
    requires Core(cfg, w) && i < |w.h.fate| && w.h.fate[i].Sent?
    ensures Transmission(i, w.h.submitted[i].payload, w.h.fate[i].to) in w.h.wire
  {
    var k :| 0 <= k < |w.h.wire| && w.h.wire[k].ticket == i;
    assert w.h.wire[k] == Transmission(i, w.h.submitted[i].payload, w.h.fate[i].to);
  }

  lemma OnlySentIsDelivered(cfg: Config, w: World, log: seq<Deed>, i: nat)
    requires Inv(cfg, w) && Deliveries(log) == w.h.wire && i < |w.h.fate|
    ensures DeliveredIn(log, i) ==> w.h.fate[i].Sent?
  {
  }
}
