/** Which waiting datagrams a call discards, exactly, and what closing does for good. */
module UdpLaws {
  import opened Common
  import opened AddressOrder
  import opened DatagramQueues
  import opened UdpProtocol
  import opened UdpRuns
  import opened UdpAccounts

  // ----- memory -----

  /** The payloads of a queue, one after the other. */
  function Payloads(queue: seq<Datagram>): seq<byte> {
    if queue == [] then [] else Payloads(queue[..|queue| - 1]) + queue[|queue| - 1].payload
  }

  /** What a queue takes up is its payloads and the overhead of each item. */
  lemma {:induction false} MemoryOf(cfg: Config, queue: seq<Datagram>)
    ensures Sum(Sizes(cfg, queue), 0) == cfg.overhead * |queue| + |Payloads(queue)|
  {
    if queue != [] {
      var front, d := queue[..|queue| - 1], queue[|queue| - 1];
      MemoryOf(cfg, front);
      assert front + [d] == queue;
      SpanGrowsBy(cfg, front, d, 0);
      assert cfg.overhead * |queue| == cfg.overhead * |front| + cfg.overhead;
    }
  }

  /** Over every run the waiting datagrams keep to the limit in force. */
  lemma MemoryIsBounded(cfg: Config, limit: nat, es: seq<Event>)
    requires Legal(cfg, NewWorld(limit), es)
    ensures var queue := After(cfg, NewWorld(limit), es).s.queue;
            cfg.overhead * |queue| + |Payloads(queue)| <= LimitAfter(limit, es)
  {
    NewIsUnused(cfg, limit);
    RunKeepsInv(cfg, NewWorld(limit), es);
    RunSetsLimit(cfg, NewWorld(limit), es);
    MemoryOf(cfg, After(cfg, NewWorld(limit), es).s.queue);
  }

  // ----- which datagrams are discarded -----

  /** The first k waiting datagrams are discarded, and those at and behind position k are not. */
  lemma EvictedExactly(cfg: Config, w: World, n: World, k: nat, j: nat)
    requires Core(cfg, w) && Evicts(w, n, k) && j < |w.s.queue|
    ensures var i := w.s.queue[j].ticket; i < |n.h.fate| == |w.h.fate| && (n.h.fate[i] == Discarded <==> j < k)
  {
    var i := w.s.queue[j].ticket;
    if j < k {
      assert w.s.queue[..k][j].ticket == i;
    } else {
      assert forall m :: 0 <= m < k ==> w.s.queue[..k][m].ticket == w.s.queue[m].ticket < i;
    }
  }

  /** As many as do not fit, counted from the newest. */
  lemma DroppedExactly(sizes: seq<nat>, room: int, j: nat)
    requires j < |sizes| && room >= 0
    ensures j < Dropped(sizes, 0, room) <==> Sum(sizes, j) > room
  {
    KeepsLongestSuffix(sizes, 0, room);
    if j >= Dropped(sizes, 0, room) {
      SumShrinks(sizes, Dropped(sizes, 0, room), j);
    }
  }

  lemma AcceptedFates(cfg: Config, w: World, host: string, port: nat)
    requires cfg.overhead + |w.s.sendBuffer| <= w.s.limit
    ensures var k := Dropped(Sizes(cfg, w.s.queue), 0, w.s.limit - (cfg.overhead + |w.s.sendBuffer|));
            Enqueue(cfg, w, host, port).0.h.fate == Discard(w.h.fate, w.s.queue[..k]) + [Queued]
  {
  }

  /** Making room discards exactly what does not fit together with what is behind it. */
  lemma EvictionExactly(cfg: Config, w: World, room: nat, j: nat)
    requires Core(cfg, w) && j < |w.s.queue|
    ensures var i, k := w.s.queue[j].ticket, Dropped(Sizes(cfg, w.s.queue), 0, room);
            i < |w.h.fate| && (Discard(w.h.fate, w.s.queue[..k])[i] == Discarded <==> Sum(Sizes(cfg, w.s.queue), j) > room)
  {
    var k := Dropped(Sizes(cfg, w.s.queue), 0, room);
    EvictedExactly(cfg, w, World(w.s.(queue := w.s.queue[k..]), w.h.(fate := Discard(w.h.fate, w.s.queue[..k]))), k, j);
    DroppedExactly(Sizes(cfg, w.s.queue), room, j);
  }

  /**
   A new datagram that can never fit is discarded, and with it no other. Else exactly those waiting
   datagrams are discarded that exceed the limit together with the ones behind them and the new one.
   */
  lemma EnqueueDiscardsExactly(cfg: Config, w: World, host: string, port: nat)
    requires Core(cfg, w)
    ensures var n, size := Enqueue(cfg, w, host, port).0, cfg.overhead + |w.s.sendBuffer|;
            && |n.h.fate| == |w.h.fate| + 1 && (n.h.fate[|w.h.fate|] == Discarded <==> size > w.s.limit)
            && forall j :: 0 <= j < |w.s.queue| ==>
                 && w.s.queue[j].ticket < |w.h.fate|
                 && (n.h.fate[w.s.queue[j].ticket] == Discarded <==>
                       size <= w.s.limit && Sum(Sizes(cfg, w.s.queue), j) + size > w.s.limit)
  {
    var n, size := Enqueue(cfg, w, host, port).0, cfg.overhead + |w.s.sendBuffer|;
    if size <= w.s.limit {
      AcceptedFates(cfg, w, host, port);
      forall j | 0 <= j < |w.s.queue|
        ensures var i := w.s.queue[j].ticket;
                i < |w.h.fate| && (n.h.fate[i] == Discarded <==> Sum(Sizes(cfg, w.s.queue), j) + size > w.s.limit)
      {
        EvictionExactly(cfg, w, w.s.limit - size, j);
      }
    }
  }

  /** send() as a whole discards just that. */
  lemma SendDiscardsExactly(cfg: Config, w: World, host: string, port: nat)
    requires Inv(cfg, w)
    ensures var n, size := Step(cfg, w, Submit(host, port)), cfg.overhead + |w.s.sendBuffer|;
            && |n.h.fate| == |w.h.fate| + 1 && (n.h.fate[|w.h.fate|] == Discarded <==> size > w.s.limit)
            && forall j :: 0 <= j < |w.s.queue| ==>
                 && w.s.queue[j].ticket < |w.h.fate|
                 && (n.h.fate[w.s.queue[j].ticket] == Discarded <==>
                       size <= w.s.limit && Sum(Sizes(cfg, w.s.queue), j) + size > w.s.limit)
  {
    EnqueueDiscardsExactly(cfg, w, host, port);
    EnqueueKeeps(cfg, w, host, port);
    PumpDiscardsNothing(cfg, Enqueue(cfg, w, host, port).0);
  }

  /** A lower limit discards exactly those waiting datagrams that exceed it together with the ones behind them. */
  lemma SetLimitDiscardsExactly(cfg: Config, w: World, max: nat, j: nat)
    requires Inv(cfg, w) && j < |w.s.queue|
    ensures var n, i := Step(cfg, w, SetLimit(max)), w.s.queue[j].ticket;
            i < |n.h.fate| && (n.h.fate[i] == Discarded <==> Sum(Sizes(cfg, w.s.queue), j) > max)
  {
    EvictedExactly(cfg, w, Step(cfg, w, SetLimit(max)), Dropped(Sizes(cfg, w.s.queue), 0, max), j);
    DroppedExactly(Sizes(cfg, w.s.queue), max, j);
  }

  /** Closing discards every waiting datagram and what was written; the operation in progress goes on. */
  lemma CloseDiscardsAll(cfg: Config, w: World)
    requires Inv(cfg, w)
    ensures var n := Step(cfg, w, Close);
            && n.s.queue == [] && n.s.sendBuffer == [] && n.s.op == w.s.op && |n.h.fate| == |w.h.fate|
            && forall j :: 0 <= j < |w.s.queue| ==>
                 w.s.queue[j].ticket < |n.h.fate| && n.h.fate[w.s.queue[j].ticket] == Discarded
  {
    assert w.s.queue[..|w.s.queue|] == w.s.queue;
    forall j | 0 <= j < |w.s.queue|
      ensures w.s.queue[j].ticket < |w.h.fate| && Step(cfg, w, Close).h.fate[w.s.queue[j].ticket] == Discarded
    {
      EvictedExactly(cfg, w, Step(cfg, w, Close), |w.s.queue|, j);
    }
  }

  // ----- closing for good -----

  /** Nothing more will be done for datagram `t`. */
  ghost predicate Settled(w: World, t: nat) {
    t < |w.h.fate| && w.h.fate[t] != Queued && w.h.fate[t] != Active
  }

  lemma StaysSettled(cfg: Config, w: World, e: Event, t: nat)
    requires Inv(cfg, w) && Enabled(w, e) && Settled(w, t)
    ensures Settled(Step(cfg, w, e), t)
    ensures !w.s.op.Idle? ==> w.s.op.d.ticket != t
    ensures !Step(cfg, w, e).s.op.Idle? ==> Step(cfg, w, e).s.op.d.ticket != t
  {
    StepGrows(cfg, w, e);
    StepKeepsInv(cfg, w, e);
    assert Follows(w.h.fate[t], Step(cfg, w, e).h.fate[t]);
  }

  /** Two logs say the same of datagram `t`. */
  ghost predicate SameOf(log: seq<Deed>, log': seq<Deed>, t: nat) {
    TriesOf(log', t) == TriesOf(log, t) && LookupsOf(log', t) == LookupsOf(log, t) && (DeliveredIn(log', t) <==> DeliveredIn(log, t))
  }

  lemma OtherDeed(log: seq<Deed>, deed: Deed, t: nat)
    requires deed.ticket != t
    ensures SameOf(log, log + [deed], t)
  {
    Appended(log, deed, t);
    AppendedDelivery(log, deed);
    var before, after := Deliveries(log), Deliveries(log + [deed]);
    if k :| 0 <= k < |before| && before[k].ticket == t {
      assert after[k].ticket == t;
    }
    if k :| 0 <= k < |after| && after[k].ticket == t {
      assert before[k].ticket == t;
    }
  }

  lemma {:induction false} OtherDeeds(log: seq<Deed>, deeds: seq<Deed>, t: nat)
    requires forall k :: 0 <= k < |deeds| ==> deeds[k].ticket != t
    ensures SameOf(log, log + deeds, t)
  {
    if deeds == [] {
      assert log + deeds == log;
    } else {
      var front, last := deeds[..|deeds| - 1], deeds[|deeds| - 1];
      OtherDeeds(log, front, t);
      OtherDeed(log + front, last, t);
      assert (log + front) + [last] == log + deeds;
    }
  }

  lemma StepDoesNothingFor(cfg: Config, w: World, e: Event, log: seq<Deed>, t: nat)
    requires Inv(cfg, w) && Enabled(w, e) && Settled(w, t)
    ensures SameOf(log, log + DeedsIn(w, e, Step(cfg, w, e).s.op), t) && Settled(Step(cfg, w, e), t)
  {
    StaysSettled(cfg, w, e, t);
    OtherDeeds(log, DeedsIn(w, e, Step(cfg, w, e).s.op), t);
  }

  lemma {:induction false} NothingDoneFor(cfg: Config, w: World, es: seq<Event>, log: seq<Deed>, t: nat)
    requires Inv(cfg, w) && Legal(cfg, w, es) && Settled(w, t)
    ensures SameOf(log, log + Deeds(cfg, w, es), t)
    decreases |es|
  {
    if es == [] {
      assert log + [] == log;
    } else {
      var n := Step(cfg, w, es[0]);
      var now := DeedsIn(w, es[0], n.s.op);
      StepDoesNothingFor(cfg, w, es[0], log, t);
      StepKeepsInv(cfg, w, es[0]);
      NothingDoneFor(cfg, n, es[1..], log + now, t);
      Grouped(log, now, Deeds(cfg, n, es[1..]));
    }
  }

  lemma {:induction false} DeedsConcat(cfg: Config, w: World, a: seq<Event>, b: seq<Event>)
    requires Legal(cfg, w, a + b)
    ensures Legal(cfg, w, a) && Legal(cfg, After(cfg, w, a), b)
    ensures Deeds(cfg, w, a + b) == Deeds(cfg, w, a) + Deeds(cfg, After(cfg, w, a), b)
    decreases |a|
  {
    if a == [] {
      assert a + b == b;
      Grouped([], [], Deeds(cfg, w, b));
    } else {
      assert (a + b)[1..] == a[1..] + b;
      var n := Step(cfg, w, a[0]);
      DeedsConcat(cfg, n, a[1..], b);
      Grouped(DeedsIn(w, a[0], n.s.op), Deeds(cfg, n, a[1..]), Deeds(cfg, After(cfg, n, a[1..]), b));
    }
  }

  lemma CloseSettles(cfg: Config, w: World, t: nat)
    requires Inv(cfg, w) && t < |w.h.fate| && (w.s.op.Idle? || w.s.op.d.ticket != t)
    ensures Settled(Step(cfg, w, Close), t)
  {
    CloseDiscardsAll(cfg, w);
    if w.h.fate[t] == Queued {
      var j :| 0 <= j < |w.s.queue| && w.s.queue[j].ticket == t;
      assert Step(cfg, w, Close).h.fate[w.s.queue[j].ticket] == Discarded;
    } else {
      StepGrows(cfg, w, Close);
      assert Follows(w.h.fate[t], Step(cfg, w, Close).h.fate[t]);
    }
  }

  lemma CloseDoesNothing(cfg: Config, w: World, b: seq<Event>)
    requires Legal(cfg, w, [Close] + b)
    ensures Legal(cfg, Step(cfg, w, Close), b)
    ensures Deeds(cfg, w, [Close] + b) == Deeds(cfg, Step(cfg, w, Close), b)
  {
    assert ([Close] + b)[0] == Close && ([Close] + b)[1..] == b;
    assert DeedsIn(w, Close, w.s.op) == [];
    Grouped([], [], Deeds(cfg, Step(cfg, w, Close), b));
  }

  /**
   Of the datagrams submitted before a close, only the one in progress at that moment is looked up,
   sent or delivered after it, in every run.
   */
  lemma ClosedForGood(cfg: Config, limit: nat, a: seq<Event>, b: seq<Event>, t: nat)
    requires Legal(cfg, NewWorld(limit), a + ([Close] + b)) && t < |SubmittedBy(a, [], 0)|
    ensures Legal(cfg, NewWorld(limit), a)
    ensures var op := After(cfg, NewWorld(limit), a).s.op;
            op.Idle? || op.d.ticket != t ==>
              SameOf(Deeds(cfg, NewWorld(limit), a), Deeds(cfg, NewWorld(limit), a + ([Close] + b)), t)
  {
    var w0 := NewWorld(limit);
    DeedsConcat(cfg, w0, a, [Close] + b);
    NewIsUnused(cfg, limit);
    RunKeepsInv(cfg, w0, a);
    RunSubmits(cfg, w0, a);
    ClosedFrom(cfg, After(cfg, w0, a), b, Deeds(cfg, w0, a), t);
  }

  lemma ClosedFrom(cfg: Config, w: World, b: seq<Event>, log: seq<Deed>, t: nat)
    requires Inv(cfg, w) && Legal(cfg, w, [Close] + b) && t < |w.h.submitted|
    ensures w.s.op.Idle? || w.s.op.d.ticket != t ==> SameOf(log, log + Deeds(cfg, w, [Close] + b), t)
  {
    CloseDoesNothing(cfg, w, b);
    StepKeepsInv(cfg, w, Close);
    if w.s.op.Idle? || w.s.op.d.ticket != t {
      CloseSettles(cfg, w, t);
      NothingDoneFor(cfg, Step(cfg, w, Close), b, log, t);
    }
  }
}
