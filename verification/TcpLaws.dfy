/** What a client can tell of single calls and of the end of a TCP connection, over every run. */
module TcpLaws {
  import opened Common
  import opened AddressOrder
  import opened TcpProtocol
  import opened TcpRuns

  // ----- reported failures -----

  function ReadFailure(net: NetRead): Option<string> {
    match net
    case AvailableFails(message) => Some(message)
    case ReadFails(_, _, why) => Some(why)
    case ReadOk(_) => None
  }

  /** The failure that an event means for the client, told from the event and the state it meets. */
  ghost function Reported(s: Socket, e: Event): Option<string>
    requires e.ConnectDone? ==> s.connecting.op.Attempting?
  {
    var up := s.phase == Connected;
    match e
    case Write(bytes) =>
      if s.phase != Closed && |s.queue.bytes| + |bytes| > s.limit then Some("The send buffer size limit was exceeded.") else None
    case Receive(amount, net) =>
      if up && s.connected.read.None? && |s.connected.partial| < amount then ReadFailure(net) else None
    case ReceiveAvailable(net) => if up && s.connected.read.None? then ReadFailure(net) else None
    case IsEof(peek) =>
      if up && s.connected.read.None? && s.connected.partial == [] && peek.PeekError? then Some(peek.message) else None
    case Resolved(lookup, message, closeError) =>
      if s.phase != Connecting then None else if lookup.None? then Some(message) else closeError
    case ConnectDone(connectError, closeError, enterError) =>
      if s.phase != Connecting then None
      else if connectError.None? then enterError
      else if s.connecting.op.rest == [] then connectError
      else closeError
    case SendDone(_, sendError) => if up then sendError else None
    case ReadDone(readError) => readError
    case _ => None
  }

  /** The first failure that is reported in a run. */
  ghost function FirstReported(w: World, es: seq<Event>): Option<string>
    requires Legal(w, es)
    decreases |es|
  {
    if es == [] then None
    else if Reported(w.s, es[0]).Some? then Reported(w.s, es[0])
    else FirstReported(Step(w, es[0]), es[1..])
  }

  /** Every failure, and nothing else, closes the connection with its message, unless there is one already. */
  lemma StepReports(w: World, e: Event)
    requires Inv(w) && Enabled(w, e)
    ensures Step(w, e).s.error == if w.s.error.Some? then w.s.error else Reported(w.s, e)
  {
  }

  /** Over every run the recorded error is the first failure reported, and there is none if none was. */
  lemma {:induction false} ErrorIsFirstFailure(w: World, es: seq<Event>)
    requires Inv(w) && Legal(w, es)
    ensures After(w, es).s.error == if w.s.error.Some? then w.s.error else FirstReported(w, es)
    decreases |es|
  {
    if es != [] {
      StepReports(w, es[0]);
      StepKeepsInv(w, es[0]);
      ErrorIsFirstFailure(Step(w, es[0]), es[1..]);
    }
  }

  // ----- the phase -----

  /** A disconnect and a failure close; a connect that succeeds while Connecting connects. */
  ghost function NextPhase(s: Socket, phase: Phase, e: Event): Phase
    requires e.ConnectDone? ==> s.connecting.op.Attempting?
  {
    if e.DisconnectAbortive? || Reported(s, e).Some? then Closed
    else if phase == Connecting && e.ConnectDone? && e.connectError.None? then Connected
    else phase
  }

  ghost function PhaseAfter(w: World, phase: Phase, es: seq<Event>): Phase
    requires Legal(w, es)
    decreases |es|
  {
    if es == [] then phase else PhaseAfter(Step(w, es[0]), NextPhase(w.s, phase, es[0]), es[1..])
  }

  lemma StepSetsPhase(w: World, e: Event)
    requires Inv(w) && Enabled(w, e)
    ensures Step(w, e).s.phase == NextPhase(w.s, w.s.phase, e)
  {
  }

  /** Over every run the phase is what the disconnects, failures and successful connects make it. */
  lemma {:induction false} PhaseExactly(w: World, es: seq<Event>)
    requires Inv(w) && Legal(w, es)
    ensures After(w, es).s.phase == PhaseAfter(w, w.s.phase, es)
    decreases |es|
  {
    if es != [] {
      StepSetsPhase(w, es[0]);
      StepKeepsInv(w, es[0]);
      PhaseExactly(Step(w, es[0]), es[1..]);
    }
  }

  /** How a socket begins. */
  lemma Beginnings(enterError: Option<string>, message: string)
    ensures ConnectTo().s.phase == Connecting && ConnectTo().s.connecting.op == Resolving && ConnectTo().s.error == None
    ensures FromConnected(enterError).s.phase == (if enterError.None? then Connected else Closed)
    ensures FromConnected(enterError).s.error == enterError
    ensures ErrorSocket(message).s.phase == Closed && ErrorSocket(message).s.error == Some(message)
  {
  }

  // ----- receiving -----

  /** Only receive calls touch what was received. */
  lemma ReceivedStays(w: World, e: Event)
    requires Enabled(w, e) && !Receives(e)
    ensures Step(w, e).s.received == w.s.received
  {
  }

  /**
   A receive() that reads without an error delivers everything at hand and everything read, and keeps
   nothing back; one that fails, waits for a read or is not connected delivers nothing.
   */
  lemma ReceiveAvailableDeliversAll(w: World, net: NetRead)
    requires Inv(w) && Enabled(w, ReceiveAvailable(net))
    ensures var n := Step(w, ReceiveAvailable(net));
            if w.s.phase == Connected && w.s.connected.read.None? && ReadFailure(net).None? then
              && n.s.received == w.s.connected.partial + net.data && n.s.connected.partial == []
              && n.s.phase == Connected && n.s.connected.read.None?
              && n.h.delivered == n.h.consumed == w.h.consumed + net.data
            else
              n.s.received == [] && n.h.delivered == w.h.delivered
  {
    StepKeepsInv(w, ReceiveAvailable(net));
  }

  lemma {:induction false} AfterConcat(w: World, a: seq<Event>, b: seq<Event>)
    requires Legal(w, a + b)
    ensures Legal(w, a) && Legal(After(w, a), b) && After(w, a + b) == After(After(w, a), b)
    decreases |a|
  {
    if a == [] {
      assert a + b == b;
    } else {
      assert (a + b)[1..] == a[1..] + b;
      AfterConcat(Step(w, a[0]), a[1..], b);
    }
  }

  /** After such a receive(), at the end of any run, the client has everything that was read. */
  lemma ReceiveAvailableCatchesUp(w0: World, es: seq<Event>, net: NetRead)
    requires Initial(w0) && Legal(w0, es + [ReceiveAvailable(net)])
    ensures Legal(w0, es)
    ensures var w, seen := After(w0, es), Observed(w0, es + [ReceiveAvailable(net)]);
            w.s.phase == Connected && w.s.connected.read.None? && ReadFailure(net).None? ==> seen.delivered == seen.consumed
  {
    var last := [ReceiveAvailable(net)];
    AfterConcat(w0, es, last);
    ObservedFromStart(w0, es + last);
    ReachableInv(w0, es);
    ReceiveAvailableDeliversAll(After(w0, es), net);
    assert last[1..] == [];
    assert After(After(w0, es), last) == Step(After(w0, es), last[0]);
  }

  /**
   A receive(amount) that cannot be answered although the socket is Connected and reads without an
   error starts a read for exactly what is missing, and everything else that it changes is the bytes read.
   */
  lemma ReceiveStartsRead(w: World, amount: nat, net: NetRead)
    requires Inv(w) && Enabled(w, Receive(amount, net)) && w.s.phase == Connected
    ensures var n := Step(w, Receive(amount, net));
            && (w.s.connected.read.Some? ==> n.s == w.s.(received := []) && n.h == w.h)
            && (w.s.connected.read.None? && ReadFailure(net).None? && |w.s.connected.partial| + |net.data| < amount ==>
                  && n.s.phase == Connected && n.s.connected.read == Some(PendingRead(|w.s.connected.partial| + |net.data|, 0))
                  && |n.s.connected.partial| == amount && n.h.consumed == w.h.consumed + net.data)
  {
  }

  // ----- the end of the stream -----

  /** isEof() is true exactly when the socket is Closed, or nothing is at hand or awaited and the peek finds the end or an error. */
  lemma EofExactly(w: World, peek: Peek)
    ensures var (n, eof) := IsEofStep(w, peek);
            && (eof <==> (w.s.phase == Closed ||
                          (w.s.phase == Connected && w.s.connected.partial == [] && w.s.connected.read.None? &&
                           (peek.PeekEof? || peek.PeekError?))))
            && (Reported(w.s, IsEof(peek)).None? ==> n == w)
  {
  }

  // ----- the limit -----

  /** The limit in force: what the last setSendbufferLimit() says. */
  ghost function LimitAfter(limit: nat, es: seq<Event>): nat
    decreases |es|
  {
    if es == [] then limit else LimitAfter(if es[0].SetLimit? then es[0].max else limit, es[1..])
  }

  lemma {:induction false} LimitInForce(w: World, es: seq<Event>)
    requires Legal(w, es)
    ensures After(w, es).s.limit == LimitAfter(w.s.limit, es)
    decreases |es|
  {
    if es != [] {
      assert Step(w, es[0]).s.limit == if es[0].SetLimit? then es[0].max else w.s.limit;
      LimitInForce(Step(w, es[0]), es[1..]);
    }
  }

  /** A write is taken whole as long as the socket is not Closed and the limit in force allows it, else not at all. */
  lemma WriteTakesAllOrNothing(w0: World, es: seq<Event>, bytes: seq<byte>)
    requires Initial(w0) && Legal(w0, es)
    ensures var w := After(w0, es);
            var n := Step(w, Write(bytes));
            if w.s.phase != Closed && |w.s.queue.bytes| + |bytes| <= LimitAfter(0xFFFF_FFFF, es) then
              n.h.accepted == w.h.accepted + bytes && n.s.queue.bytes == w.s.queue.bytes + bytes && n.s.phase == w.s.phase
            else
              n.h.accepted == w.h.accepted && n.s.queue.bytes == w.s.queue.bytes && n.s.phase == Closed
  {
    LimitInForce(w0, es);
  }
}
