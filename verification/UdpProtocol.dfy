/**
 The sending side of a UDP socket as a state machine over values. One datagram at a time is
 looked up and transmitted; a literal address is looked up synchronously, so one step can work
 through several queued datagrams. `History` follows every submitted datagram to its fate.
 */
module UdpProtocol {
  import opened Common
  import opened AddressOrder
  import DatagramQueues

  /** `ticket` numbers the datagrams in the order of submission. */
  datatype Datagram = Datagram(ticket: nat, payload: seq<byte>, host: string, port: nat)

  /**
   What does not change over a run: the size of a queue item without its payload, which hosts
   are literal addresses, and which of the two sockets could be opened.
   */
  datatype Config = Config(overhead: nat, literal: (string, nat) -> Option<Endpoint>, v4Open: bool, v6Open: bool)

  /** The operation in progress, with the endpoints its handler still holds. */
  datatype Op =
    | Idle
    | Looking(d: Datagram)
    | Transmitting(d: Datagram, to: Endpoint, rest: seq<Endpoint>)

  datatype Fate =
    | Queued
    | Active
    | Sent(to: Endpoint)
    | GivenUp(found: seq<Endpoint>, tried: seq<Endpoint>)
    | Discarded

  datatype Transmission = Transmission(ticket: nat, payload: seq<byte>, to: Endpoint)

  datatype Udp = Udp(queue: seq<Datagram>, limit: nat, op: Op, sendBuffer: seq<byte>)

  datatype History = History(
    submitted: seq<Datagram>,
    fate: seq<Fate>,            // of each submitted datagram
    wire: seq<Transmission>,    // what was transmitted successfully
    found: seq<Endpoint>,       // for the active datagram: the lookup result ...
    tried: seq<Endpoint>)       // ... and the endpoints tried so far

  datatype World = World(s: Udp, h: History)

  datatype Event =
    | Write(bytes: seq<byte>)
    | Submit(host: string, port: nat)
    | Broadcast(addresses: seq<string>, toPort: nat)
    | SetLimit(max: nat)
    | Close
    | Resolved(list: seq<Endpoint>)   // empty when the lookup failed
    | SendDone(ok: bool)

  predicate IsOpen(cfg: Config, e: Endpoint) {
    if e.v4 then cfg.v4Open else cfg.v6Open
  }

  /** The endpoints that there is a socket for. */
  function Reachable(cfg: Config, list: seq<Endpoint>): seq<Endpoint> {
    if list == [] then []
    else if IsOpen(cfg, list[0]) then [list[0]] + Reachable(cfg, list[1..])
    else Reachable(cfg, list[1..])
  }

  /** What is left once the endpoints without a socket at the front are skipped. */
  function NextOpen(cfg: Config, list: seq<Endpoint>): (open: seq<Endpoint>)
    ensures open != [] ==> IsOpen(cfg, open[0])
  {
    if list == [] || IsOpen(cfg, list[0]) then list else NextOpen(cfg, list[1..])
  }

  ghost function Sizes(cfg: Config, queue: seq<Datagram>): (sizes: seq<nat>)
    ensures |sizes| == |queue|
  {
    seq(|queue|, i requires 0 <= i < |queue| => cfg.overhead + |queue[i].payload|)
  }

  ghost predicate Among(queue: seq<Datagram>, ticket: nat) {
    exists j :: 0 <= j < |queue| && queue[j].ticket == ticket
  }

  ghost function Discard(fate: seq<Fate>, gone: seq<Datagram>): (f: seq<Fate>)
    ensures |f| == |fate|
  {
    seq(|fate|, i requires 0 <= i < |fate| => if Among(gone, i) then Discarded else fate[i])
  }

  ghost function SetFate(fate: seq<Fate>, ticket: nat, f: Fate): seq<Fate> {
    if ticket < |fate| then fate[ticket := f] else fate
  }

  ghost function NewWorld(limit: nat): World {
    World(Udp([], limit, Idle, []), History([], [], [], [], []))
  }

  // ----- the pump -----

  ghost function AsyncSend(cfg: Config, w: World): World
    decreases |w.s.queue|, 0
  {
    if w.s.queue == [] then w
    else
      var n := Dequeue(w);
      match cfg.literal(n.s.op.d.host, n.s.op.d.port)
      case None => n
      case Some(endpoint) => HandleResolve(cfg, n, [endpoint])
  }

  ghost function Dequeue(w: World): (n: World)
    requires w.s.queue != []
    ensures n.s.op.Looking?
  {
    var d := w.s.queue[0];
    World(w.s.(queue := w.s.queue[1..], op := Looking(d)),
          w.h.(fate := SetFate(w.h.fate, d.ticket, Active), found := [], tried := []))
  }

  /** The first transmission is started through the error branch of handleSend. */
  ghost function HandleResolve(cfg: Config, w: World, list: seq<Endpoint>): World
    requires w.s.op.Looking?
    decreases |w.s.queue|, 2
  {
    HandleSend(cfg, w.(h := w.h.(found := list)), false, Ordered(list))
  }

  ghost function HandleSend(cfg: Config, w: World, ok: bool, rest: seq<Endpoint>): World
    requires !w.s.op.Idle? && (ok ==> w.s.op.Transmitting?)
    decreases |w.s.queue|, 1
  {
    var open := if ok then [] else NextOpen(cfg, rest);
    if open != [] then Transmit(w, open) else AsyncSend(cfg, Finish(w, ok))
  }

  ghost function Transmit(w: World, open: seq<Endpoint>): World
    requires !w.s.op.Idle? && open != []
  {
    World(w.s.(op := Transmitting(w.s.op.d, open[0], open[1..])), w.h.(tried := w.h.tried + [open[0]]))
  }

  ghost function Finish(w: World, ok: bool): World
    requires !w.s.op.Idle? && (ok ==> w.s.op.Transmitting?)
  {
    var d := w.s.op.d;
    var fate := if ok then Sent(w.s.op.to) else GivenUp(w.h.found, w.h.tried);
    var wire := if ok then w.h.wire + [Transmission(d.ticket, d.payload, w.s.op.to)] else w.h.wire;
    World(w.s.(op := Idle), w.h.(fate := SetFate(w.h.fate, d.ticket, fate), wire := wire))
  }

  // ----- client calls -----

  /** A new item, refused when it cannot fit; else the oldest ones are evicted as far as needed. */
  ghost function Enqueue(cfg: Config, w: World, host: string, port: nat): (World, bool) {
    var d := Datagram(|w.h.submitted|, w.s.sendBuffer, host, port);
    var h := w.h.(submitted := w.h.submitted + [d]);
    var size := cfg.overhead + |d.payload|;
    if size > w.s.limit then (World(w.s, h.(fate := h.fate + [Discarded])), true)
    else
      var k := DatagramQueues.Dropped(Sizes(cfg, w.s.queue), 0, w.s.limit - size);
      (World(w.s.(queue := w.s.queue[k..] + [d]), h.(fate := Discard(h.fate, w.s.queue[..k]) + [Queued])), k > 0)
  }

  ghost function EnqueueAll(cfg: Config, w: World, addresses: seq<string>, port: nat): (World, bool) {
    if addresses == [] then (w, false)
    else
      var (before, some) := EnqueueAll(cfg, w, addresses[..|addresses| - 1], port);
      var (n, last) := Enqueue(cfg, before, addresses[|addresses| - 1], port);
      (n, some || last)
  }

  ghost function Pump(cfg: Config, w: World): World {
    var n := if w.s.op.Idle? then AsyncSend(cfg, w) else w;
    n.(s := n.s.(sendBuffer := []))
  }

  ghost function SetLimitStep(cfg: Config, w: World, max: nat): World {
    var k := DatagramQueues.Dropped(Sizes(cfg, w.s.queue), 0, max);
    World(w.s.(limit := max, queue := w.s.queue[k..]), w.h.(fate := Discard(w.h.fate, w.s.queue[..k])))
  }

  ghost predicate Enabled(w: World, e: Event) {
    match e
    case Resolved(_) => w.s.op.Looking?
    case SendDone(_) => w.s.op.Transmitting?
    case _ => true
  }

  ghost function Step(cfg: Config, w: World, e: Event): World
    requires Enabled(w, e)
  {
    match e
    case Write(bytes) => w.(s := w.s.(sendBuffer := w.s.sendBuffer + bytes))
    case Submit(host, port) => Pump(cfg, Enqueue(cfg, w, host, port).0)
    case Broadcast(addresses, port) => Pump(cfg, EnqueueAll(cfg, w, addresses, port).0)
    case SetLimit(max) => SetLimitStep(cfg, w, max)
    case Close => World(w.s.(queue := [], sendBuffer := []), w.h.(fate := Discard(w.h.fate, w.s.queue)))
    case Resolved(list) => HandleResolve(cfg, w, list)
    case SendDone(ok) => HandleSend(cfg, w, ok, w.s.op.rest)
  }

  ghost predicate Legal(cfg: Config, w: World, es: seq<Event>)
    decreases |es|
  {
    es == [] || (Enabled(w, es[0]) && Legal(cfg, Step(cfg, w, es[0]), es[1..]))
  }

  ghost function After(cfg: Config, w: World, es: seq<Event>): World
    requires Legal(cfg, w, es)
    decreases |es|
  {
    if es == [] then w else After(cfg, Step(cfg, w, es[0]), es[1..])
  }
}
