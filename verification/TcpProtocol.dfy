/**
 One TCP socket as a state machine over values: a step for every client call and every
 completion handler, each atomic because all of them hold the common mutex. `History`
 records what the machine itself does not remember.
 */
module TcpProtocol {
  import opened Common
  import opened AddressOrder

  /** The largest `size_t` of the 32-bit library. */
  const SIZE_MAX: nat := 0xFFFF_FFFF

  const LIMIT_EXCEEDED := "The send buffer size limit was exceeded."

  datatype Phase = Connecting | Connected | Closed

  /** The resolve or connect operation in progress; a connect handler holds the endpoints not yet tried. */
  datatype ConnectOp = NoOp | Resolving | Attempting(to: Endpoint, rest: seq<Endpoint>)

  /** An outstanding `async_read` into the space from `start` on, of which `filled` bytes have come. */
  datatype PendingRead = PendingRead(start: nat, filled: nat)

  /** The send buffer: a byte queue with a committed prefix. */
  datatype QueueData = QueueData(bytes: seq<byte>, committed: nat)
  type SendQueue = q: QueueData | q.committed <= |q.bytes| witness QueueData([], 0)

  datatype ConnectingState = ConnectingState(op: ConnectOp, aborted: bool)

  datatype ConnectedState = ConnectedState(
    inFlight: Option<seq<byte>>,   // the bytes an outstanding async_send was given
    aborted: bool,
    partial: seq<byte>,            // partialReceiveBuffer
    read: Option<PendingRead>)

  datatype Socket = Socket(
    phase: Phase,
    connecting: ConnectingState,
    connected: ConnectedState,
    error: Option<string>,
    queue: SendQueue,              // sendbuffer_
    limit: nat,
    outOfRange: bool,              // a handler threw std::out_of_range
    received: seq<byte>)           // receiveBuffer_

  datatype History = History(
    accepted: seq<byte>,           // everything write() took
    flushed: nat,                  // how much of it send() has committed
    wire: seq<byte>,               // everything the network took
    consumed: seq<byte>,           // everything read from the peer's stream
    delivered: seq<byte>,          // everything receive() put into the receive buffer
    found: Option<seq<Endpoint>>,  // the lookup result
    attempts: seq<Endpoint>)       // the endpoints a connection was attempted to

  datatype World = World(s: Socket, h: History)

  /** What a non-blocking read meets: an error before, an error after some bytes, or data. */
  datatype NetRead =
    | AvailableFails(message: string)
    | ReadFails(available: nat, got: seq<byte>, why: string)
    | ReadOk(data: seq<byte>)

  datatype Peek = PeekEof | PeekWouldBlock | PeekData | PeekError(message: string)

  datatype Event =
    // client calls
    | Write(bytes: seq<byte>)
    | Send
    | SetLimit(max: nat)
    | Receive(amount: nat, net: NetRead)
    | ReceiveAvailable(net: NetRead)
    | IsEof(peek: Peek)
    | DisconnectAbortive
    // completions
    | Resolved(lookup: Option<seq<Endpoint>>, message: string, closeError: Option<string>)
    | ConnectDone(connectError: Option<string>, closeError: Option<string>, enterError: Option<string>)
    | SendDone(transferred: nat, sendError: Option<string>)
    | ReadSome(bytes: seq<byte>)
    | ReadDone(readError: Option<string>)

  const NO_HISTORY := History([], 0, [], [], [], None, [])

  const NEW_CONNECTED := ConnectedState(None, false, [], None)

  function NewSocket(phase: Phase, op: ConnectOp): Socket {
    Socket(phase, ConnectingState(op, false), NEW_CONNECTED, None, QueueData([], 0), SIZE_MAX, false, [])
  }

  // ----- state changes shared by several steps -----

  function Abort(s: Socket): Socket {
    match s.phase
    case Connecting => s.(connecting := s.connecting.(aborted := true))
    case Connected => s.(connected := s.connected.(aborted := true))
    case Closed => s
  }

  function EnterClosed(s: Socket): Socket {
    Abort(s).(phase := Closed)
  }

  /** An error message that is there already stays. */
  function EnterError(s: Socket, message: string): Socket {
    EnterClosed(s).(error := if s.error.None? then Some(message) else s.error)
  }

  /** Unless a send is outstanding already, one starts with everything committed. */
  function StartSend(c: ConnectedState, queue: SendQueue): ConnectedState {
    if c.inFlight.None? then c.(inFlight := Some(queue.bytes[..queue.committed])) else c
  }

  function EnterConnected(s: Socket, enterError: Option<string>): Socket {
    var c := s.(phase := Connected);
    if enterError.Some? then EnterError(c, enterError.value) else c.(connected := StartSend(c.connected, c.queue))
  }

  /** The next of `endpoints`, as V4FirstIterator::next() returns it, and what is left after it. */
  function NextEndpoint(endpoints: seq<Endpoint>): (Endpoint, seq<Endpoint>) {
    if endpoints == [] then (DEFAULT_ENDPOINT, []) else (endpoints[0], endpoints[1..])
  }

  function Attempt(w: World, endpoints: seq<Endpoint>, closeError: Option<string>): World {
    if closeError.Some? then w.(s := EnterError(w.s, closeError.value))
    else
      var (endpoint, rest) := NextEndpoint(endpoints);
      World(w.s.(connecting := w.s.connecting.(op := Attempting(endpoint, rest))),
            w.h.(attempts := w.h.attempts + [endpoint]))
  }

  // ----- constructors -----

  function ConnectTo(): World {
    World(NewSocket(Connecting, Resolving), NO_HISTORY)
  }

  function FromConnected(enterError: Option<string>): World {
    World(EnterConnected(NewSocket(Connected, NoOp), enterError), NO_HISTORY)
  }

  function ErrorSocket(message: string): World {
    World(NewSocket(Closed, NoOp).(error := Some(message)), NO_HISTORY)
  }

  // ----- client calls -----

  function WriteStep(w: World, bytes: seq<byte>): World {
    if w.s.phase == Closed then w
    else if |w.s.queue.bytes| + |bytes| > w.s.limit then w.(s := EnterError(w.s, LIMIT_EXCEEDED))
    else World(w.s.(queue := w.s.queue.(bytes := w.s.queue.bytes + bytes)), w.h.(accepted := w.h.accepted + bytes))
  }

  function SendStep(w: World): World {
    var queue := w.s.queue.(committed := |w.s.queue.bytes|);
    var connected := if w.s.phase == Connected then StartSend(w.s.connected, queue) else w.s.connected;
    World(w.s.(queue := queue, connected := connected), w.h.(flushed := |w.h.accepted|))
  }

  /** Only reads of at most `max` bytes can happen. */
  predicate NetFits(net: NetRead, max: nat) {
    match net
    case AvailableFails(_) => true
    case ReadFails(available, got, _) => |got| <= Min(max, available)
    case ReadOk(data) => |data| <= max
  }

  function NetBytes(net: NetRead): seq<byte> {
    match net
    case AvailableFails(_) => []
    case ReadFails(_, got, _) => got
    case ReadOk(data) => data
  }

  function NetError(net: NetRead): Option<string> {
    match net
    case AvailableFails(message) => Some(message)
    case ReadFails(_, _, why) => Some(why)
    case ReadOk(_) => None
  }

  /** nonblockReceive: placeholder zeros are added first and overwritten as far as bytes come. */
  function Nonblock(c: ConnectedState, max: nat, net: NetRead): ConnectedState
    requires NetFits(net, max)
  {
    match net
    case AvailableFails(_) => c
    case ReadFails(available, got, _) => c.(partial := c.partial + got + Repeat(0, Min(max, available) - |got|))
    case ReadOk(data) => c.(partial := c.partial + data)
  }

  /** startAsyncReceive: reserve the space and read into it. */
  function StartRead(c: ConnectedState, amount: nat): ConnectedState {
    c.(read := Some(PendingRead(|c.partial|, 0)), partial := c.partial + Repeat(0, amount))
  }

  /** What a receive call does to the connected state, delivers, returns, throws and reads. */
  datatype Received = Received(c: ConnectedState, out: seq<byte>, ok: bool, thrown: Option<string>, read: seq<byte>)

  function Take(c: ConnectedState, amount: nat, read: seq<byte>): Received
    requires amount <= |c.partial|
  {
    Received(c.(partial := c.partial[amount..]), c.partial[..amount], true, None, read)
  }

  predicate ReceiveReads(c: ConnectedState, amount: nat) {
    c.read.None? && |c.partial| < amount
  }

  function ConnectedReceive(c: ConnectedState, amount: nat, net: NetRead): Received
    requires ReceiveReads(c, amount) ==> NetFits(net, amount - |c.partial|)
  {
    if c.read.Some? then Received(c, [], false, None, [])
    else if |c.partial| >= amount then Take(c, amount, [])
    else
      var n := Nonblock(c, amount - |c.partial|, net);
      if NetError(net).Some? then Received(n, [], false, NetError(net), NetBytes(net))
      else if |n.partial| >= amount then Take(n, amount, NetBytes(net))
      else Received(StartRead(n, amount - |n.partial|), [], false, None, NetBytes(net))
  }

  function ConnectedReceiveAvailable(c: ConnectedState, net: NetRead): Received
    requires c.read.None? ==> NetFits(net, SIZE_MAX)
  {
    if c.read.Some? then Received(c, [], false, None, [])
    else
      var n := Nonblock(c, SIZE_MAX, net);
      if NetError(net).Some? then Received(n, [], false, NetError(net), NetBytes(net))
      else Take(n, |n.partial|, NetBytes(net))
  }

  function AfterReceive(w: World, r: Received): World {
    var s := w.s.(connected := r.c, received := r.out);
    World(if r.thrown.Some? then EnterError(s, r.thrown.value) else s,
          w.h.(consumed := w.h.consumed + r.read, delivered := w.h.delivered + r.out))
  }

  /** receive(amount): the new world and the returned bool. */
  function ReceiveStep(w: World, amount: nat, net: NetRead): (World, bool)
    requires w.s.phase == Connected && ReceiveReads(w.s.connected, amount) ==> NetFits(net, amount - |w.s.connected.partial|)
  {
    if w.s.phase != Connected then (w.(s := w.s.(received := [])), false)
    else
      var r := ConnectedReceive(w.s.connected, amount, net);
      (AfterReceive(w, r), r.ok)
  }

  /** receive(): everything that is available. */
  function ReceiveAvailableStep(w: World, net: NetRead): World
    requires w.s.phase == Connected && w.s.connected.read.None? ==> NetFits(net, SIZE_MAX)
  {
    if w.s.phase != Connected then w.(s := w.s.(received := []))
    else AfterReceive(w, ConnectedReceiveAvailable(w.s.connected, net))
  }

  function IsEofStep(w: World, peek: Peek): (World, bool) {
    match w.s.phase
    case Connecting => (w, false)
    case Closed => (w, true)
    case Connected =>
      if |w.s.connected.partial| > 0 || w.s.connected.read.Some? then (w, false)
      else match peek
        case PeekEof => (w, true)
        case PeekError(message) => (w.(s := EnterError(w.s, message)), true)
        case _ => (w, false)
  }

  // ----- completion handlers -----

  function ResolvedStep(w: World, lookup: Option<seq<Endpoint>>, message: string, closeError: Option<string>): World {
    var s := w.s.(connecting := w.s.connecting.(op := NoOp));
    if s.connecting.aborted then w.(s := s)
    else if lookup.None? then w.(s := EnterError(s, message))
    else Attempt(World(s, w.h.(found := lookup)), Ordered(lookup.value), closeError)
  }

  function ConnectDoneStep(w: World, connectError: Option<string>, closeError: Option<string>,
                           enterError: Option<string>): World
    requires w.s.connecting.op.Attempting?
  {
    var rest := w.s.connecting.op.rest;
    var s := w.s.(connecting := w.s.connecting.(op := NoOp));
    if s.connecting.aborted then w.(s := s)
    else if connectError.None? then w.(s := EnterConnected(s, enterError))
    else if rest != [] then Attempt(w.(s := s), rest, closeError)
    else w.(s := EnterError(s, connectError.value))
  }

  /** What a completed send does to the connected state and the queue, fails with or throws. */
  datatype Sent = Sent(c: ConnectedState, queue: SendQueue, failed: Option<string>, threw: bool)

  function ConnectedSendDone(c: ConnectedState, queue: SendQueue, transferred: nat, sendError: Option<string>): Sent {
    var idle := c.(inFlight := None);
    if c.aborted then Sent(idle, queue, None, false)
    else if sendError.Some? then Sent(idle, queue, sendError, false)
    else if transferred > queue.committed then Sent(idle, queue, None, true)
    else
      var popped := QueueData(queue.bytes[transferred..], queue.committed - transferred);
      Sent(if popped.committed > 0 then StartSend(idle, popped) else idle, popped, None, false)
  }

  /** The network took `transferred` bytes of what it was given; with an error they count as lost. */
  function SendDoneStep(w: World, transferred: nat, sendError: Option<string>): World
    requires w.s.connected.inFlight.Some? && transferred <= |w.s.connected.inFlight.value|
  {
    var r := ConnectedSendDone(w.s.connected, w.s.queue, transferred, sendError);
    var s := w.s.(connected := r.c, queue := r.queue, outOfRange := w.s.outOfRange || r.threw);
    World(if r.failed.Some? then EnterError(s, r.failed.value) else s,
          w.h.(wire := w.h.wire + w.s.connected.inFlight.value[..transferred]))
  }

  predicate ReadFits(c: ConnectedState, bytes: seq<byte>) {
    c.read.Some? && c.read.value.start + c.read.value.filled + |bytes| <= |c.partial|
  }

  function FillRead(c: ConnectedState, bytes: seq<byte>): ConnectedState
    requires ReadFits(c, bytes)
  {
    var at := c.read.value.start + c.read.value.filled;
    c.(read := Some(c.read.value.(filled := c.read.value.filled + |bytes|)),
       partial := c.partial[..at] + bytes + c.partial[at + |bytes|..])
  }

  /** The network writes some of the bytes an outstanding async_read waits for into place. */
  function ReadSomeStep(w: World, bytes: seq<byte>): World
    requires ReadFits(w.s.connected, bytes)
  {
    World(w.s.(connected := FillRead(w.s.connected, bytes)), w.h.(consumed := w.h.consumed + bytes))
  }

  /** handleReceive, which (unlike handleSend) does not ask whether the connection was aborted. */
  function ReadDoneStep(w: World, readError: Option<string>): World {
    var s := w.s.(connected := w.s.connected.(read := None));
    w.(s := if readError.Some? then EnterError(s, readError.value) else s)
  }

  // ----- runs -----

  /** Every byte of the outstanding read has come. */
  predicate Filled(c: ConnectedState) {
    c.read.Some? && c.read.value.start + c.read.value.filled == |c.partial|
  }

  /** What the environment may do; `async_read` succeeds only when all bytes have come. */
  ghost predicate Enabled(w: World, e: Event) {
    match e
    case Receive(amount, net) =>
      w.s.phase == Connected && ReceiveReads(w.s.connected, amount) ==> NetFits(net, amount - |w.s.connected.partial|)
    case ReceiveAvailable(net) => w.s.phase == Connected && w.s.connected.read.None? ==> NetFits(net, SIZE_MAX)
    case Resolved(_, _, _) => w.s.connecting.op.Resolving?
    case ConnectDone(_, _, _) => w.s.connecting.op.Attempting?
    case SendDone(n, _) => w.s.connected.inFlight.Some? && n <= |w.s.connected.inFlight.value|
    case ReadSome(bytes) => ReadFits(w.s.connected, bytes)
    case ReadDone(error) => w.s.connected.read.Some? && (error.None? ==> Filled(w.s.connected))
    case _ => true
  }

  ghost function Step(w: World, e: Event): World
    requires Enabled(w, e)
  {
    match e
    case Write(bytes) => WriteStep(w, bytes)
    case Send => SendStep(w)
    case SetLimit(max) => w.(s := w.s.(limit := max))
    case Receive(amount, net) => ReceiveStep(w, amount, net).0
    case ReceiveAvailable(net) => ReceiveAvailableStep(w, net)
    case IsEof(peek) => IsEofStep(w, peek).0
    case DisconnectAbortive => w.(s := EnterClosed(w.s))
    case Resolved(lookup, message, closeError) => ResolvedStep(w, lookup, message, closeError)
    case ConnectDone(error, closeError, enterError) => ConnectDoneStep(w, error, closeError, enterError)
    case SendDone(n, error) => SendDoneStep(w, n, error)
    case ReadSome(bytes) => ReadSomeStep(w, bytes)
    case ReadDone(error) => ReadDoneStep(w, error)
  }

  ghost predicate Initial(w: World) {
    || w == ConnectTo()
    || (exists enterError :: w == FromConnected(enterError))
    || (exists message :: w == ErrorSocket(message))
  }

  /** `es` can happen from `w` on, one event after the other. */
  ghost predicate Legal(w: World, es: seq<Event>)
    decreases |es|
  {
    es == [] || (Enabled(w, es[0]) && Legal(Step(w, es[0]), es[1..]))
  }

  ghost function After(w: World, es: seq<Event>): World
    requires Legal(w, es)
    decreases |es|
  {
    if es == [] then w else After(Step(w, es[0]), es[1..])
  }
}
