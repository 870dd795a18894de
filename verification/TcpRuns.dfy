/** What holds of a TCP socket over every run of client calls and completions. */
module TcpRuns {
  import opened Common
  import opened AddressOrder
  import opened TcpProtocol

  // ----- the invariants -----

  /** The four records of the outgoing stream fit together. */
  ghost predicate SendInv(w: World) {
    var s, h := w.s, w.h;
    var popped := |h.accepted| - |s.queue.bytes|;
    && !s.outOfRange
    && 0 <= popped && s.queue.bytes == h.accepted[popped..]
    && h.flushed == popped + s.queue.committed
    && popped <= |h.wire| <= h.flushed && h.wire <= h.accepted
    && (!s.connected.aborted || s.connected.inFlight.Some? ==> |h.wire| == popped)
    && (s.connected.inFlight.Some? ==> |s.connected.inFlight.value| <= s.queue.committed && s.connected.inFlight.value <= s.queue.bytes)
    && (s.phase == Connecting ==> s.connected.inFlight.None?)
    && (s.phase == Connected && s.connected.inFlight.None? ==> s.queue.committed == 0)
  }

  /** The delivered bytes and the bytes kept for later are the bytes read from the stream. */
  ghost predicate Stream(c: ConnectedState, consumed: seq<byte>, delivered: seq<byte>) {
    match c.read
    case None => consumed == delivered + c.partial
    case Some(read) =>
      read.start + read.filled <= |c.partial| && consumed == delivered + c.partial[..read.start + read.filled]
  }

  ghost predicate ReceiveInv(w: World) {
    var c, h := w.s.connected, w.h;
    && h.delivered <= h.consumed
    && (w.s.phase == Connecting ==> c.read.None? && c.partial == [] && h.consumed == [])
    && (w.s.phase == Connected || c.read.Some? ==> Stream(c, h.consumed, h.delivered))
  }

  /** Which operations can be outstanding in which phase, and what the abort flags mean. */
  ghost predicate LifeInv(s: Socket) {
    && (s.connecting.aborted ==> s.phase == Closed)
    && (s.connected.aborted ==> s.phase == Closed)
    && (s.phase == Connecting <==> !s.connecting.op.NoOp? && !s.connecting.aborted)
    && (s.phase == Closed && s.connected.inFlight.Some? ==> s.connected.aborted)
    && (s.error.Some? ==> s.phase == Closed)
  }

  /** Without a successful lookup there are no attempts; with one they follow its candidate list. */
  ghost predicate ConnectInv(w: World) {
    match w.h.found
    case None => w.h.attempts == [] && !w.s.connecting.op.Attempting?
    case Some(list) =>
      && !w.s.connecting.op.Resolving?
      && w.h.attempts <= Candidates(list)
      && (w.s.connecting.op.Attempting? ==>
            && w.h.attempts != [] && w.h.attempts[|w.h.attempts| - 1] == w.s.connecting.op.to
            && w.h.attempts + w.s.connecting.op.rest == Candidates(list))
  }

  /** An empty lookup result still leads to one attempt, to the default endpoint. */
  ghost function Candidates(list: seq<Endpoint>): seq<Endpoint> {
    if Ordered(list) == [] then [DEFAULT_ENDPOINT] else Ordered(list)
  }

  ghost predicate Inv(w: World) {
    SendInv(w) && ReceiveInv(w) && LifeInv(w.s) && ConnectInv(w)
  }

  lemma NewSocketInv(phase: Phase, op: ConnectOp, enterError: Option<string>)
    requires (phase, op) in {(Connecting, Resolving), (Connected, NoOp), (Closed, NoOp)}
    ensures var s := NewSocket(phase, op);
            Inv(World(if phase == Connected then EnterConnected(s, enterError) else s, NO_HISTORY))
  {
    var none: seq<byte> := [];
    assert none[0..] == none;
  }

  lemma InitiallyInv(w: World)
    requires Initial(w)
    ensures Inv(w) && w.h == NO_HISTORY
  {
    if w == ConnectTo() {
      NewSocketInv(Connecting, Resolving, None);
    } else if enterError :| w == FromConnected(enterError) {
      NewSocketInv(Connected, NoOp, enterError);
    } else {
      NewSocketInv(Closed, NoOp, None);
    }
  }

  lemma WriteKeeps(w: World, bytes: seq<byte>)
    requires Inv(w)
    ensures Inv(WriteStep(w, bytes))
  {
    var n := WriteStep(w, bytes);
    if w.s.phase != Closed && |w.s.queue.bytes| + |bytes| <= w.s.limit {
      assert n.s.queue.bytes == n.h.accepted[|n.h.accepted| - |n.s.queue.bytes|..];
    }
  }

  lemma SendKeeps(w: World)
    requires Inv(w)
    ensures Inv(SendStep(w))
  {
  }

  lemma TakeKeepsStream(c: ConnectedState, amount: nat, read: seq<byte>, consumed: seq<byte>, delivered: seq<byte>)
    requires c.read.None? && amount <= |c.partial| && consumed == delivered + c.partial
    ensures var r := Take(c, amount, read);
            Stream(r.c, consumed, delivered + r.out) && delivered + r.out <= consumed
  {
    assert c.partial == c.partial[..amount] + c.partial[amount..];
    assert delivered + (c.partial[..amount] + c.partial[amount..]) == (delivered + c.partial[..amount]) + c.partial[amount..];
  }

  lemma ReceiveKeepsStream(c: ConnectedState, amount: nat, net: NetRead, consumed: seq<byte>, delivered: seq<byte>)
    requires Stream(c, consumed, delivered) && (ReceiveReads(c, amount) ==> NetFits(net, amount - |c.partial|))
    ensures var r := ConnectedReceive(c, amount, net);
            && delivered + r.out <= consumed + r.read && r.c.inFlight == c.inFlight && r.c.aborted == c.aborted
            && (r.thrown.None? || r.c.read.Some? ==> Stream(r.c, consumed + r.read, delivered + r.out))
  {
    if c.read.None? {
      if |c.partial| >= amount {
        TakeKeepsStream(c, amount, [], consumed, delivered);
      } else if net.ReadOk? {
        var n := Nonblock(c, amount - |c.partial|, net);
        assert consumed + net.data == delivered + n.partial;
        if |n.partial| >= amount {
          TakeKeepsStream(n, amount, net.data, consumed + net.data, delivered);
        } else {
          assert StartRead(n, amount - |n.partial|).partial[..|n.partial|] == n.partial;
        }
      }
    }
  }

  lemma ReceiveAvailableKeepsStream(c: ConnectedState, net: NetRead, consumed: seq<byte>, delivered: seq<byte>)
    requires Stream(c, consumed, delivered) && (c.read.None? ==> NetFits(net, SIZE_MAX))
    ensures var r := ConnectedReceiveAvailable(c, net);
            && delivered + r.out <= consumed + r.read && r.c.inFlight == c.inFlight && r.c.aborted == c.aborted
            && (r.thrown.None? || r.c.read.Some? ==> Stream(r.c, consumed + r.read, delivered + r.out))
  {
  }

  lemma AfterReceiveKeeps(w: World, r: Received)
    requires Inv(w) && w.s.phase == Connected
    requires r.c.inFlight == w.s.connected.inFlight && r.c.aborted == w.s.connected.aborted
    requires w.h.delivered + r.out <= w.h.consumed + r.read
    requires r.thrown.None? || r.c.read.Some? ==> Stream(r.c, w.h.consumed + r.read, w.h.delivered + r.out)
    ensures Inv(AfterReceive(w, r))
  {
  }

  lemma ReceiveKeeps(w: World, amount: nat, net: NetRead)
    requires Inv(w) && Enabled(w, Receive(amount, net))
    ensures Inv(ReceiveStep(w, amount, net).0)
  {
    if w.s.phase == Connected {
      ReceiveKeepsStream(w.s.connected, amount, net, w.h.consumed, w.h.delivered);
      AfterReceiveKeeps(w, ConnectedReceive(w.s.connected, amount, net));
    }
  }

  lemma ReceiveAvailableKeeps(w: World, net: NetRead)
    requires Inv(w) && Enabled(w, ReceiveAvailable(net))
    ensures Inv(ReceiveAvailableStep(w, net))
  {
    if w.s.phase == Connected {
      ReceiveAvailableKeepsStream(w.s.connected, net, w.h.consumed, w.h.delivered);
      AfterReceiveKeeps(w, ConnectedReceiveAvailable(w.s.connected, net));
    }
  }

  lemma AttemptKeeps(w: World, endpoints: seq<Endpoint>, closeError: Option<string>)
    requires SendInv(w) && ReceiveInv(w) && w.s.phase == Connecting && w.s.connecting.op.NoOp?
    requires !w.s.connecting.aborted && !w.s.connected.aborted && w.s.error.None?
    requires w.h.found.Some? && w.h.attempts <= Candidates(w.h.found.value)
    requires w.h.attempts + (if endpoints == [] then [DEFAULT_ENDPOINT] else endpoints) == Candidates(w.h.found.value)
    ensures Inv(Attempt(w, endpoints, closeError))
  {
  }

  lemma ResolvedKeeps(w: World, lookup: Option<seq<Endpoint>>, message: string, closeError: Option<string>)
    requires Inv(w) && w.s.connecting.op.Resolving?
    ensures Inv(ResolvedStep(w, lookup, message, closeError))
  {
    if !w.s.connecting.aborted && lookup.Some? {
      AttemptKeeps(World(w.s.(connecting := w.s.connecting.(op := NoOp)), w.h.(found := lookup)), Ordered(lookup.value), closeError);
    }
  }

  lemma ConnectDoneKeeps(w: World, error: Option<string>, closeError: Option<string>, enterError: Option<string>)
    requires Inv(w) && w.s.connecting.op.Attempting?
    ensures Inv(ConnectDoneStep(w, error, closeError, enterError))
  {
    if !w.s.connecting.aborted && error.Some? && w.s.connecting.op.rest != [] {
      AttemptKeeps(w.(s := w.s.(connecting := w.s.connecting.(op := NoOp))), w.s.connecting.op.rest, closeError);
    }
  }

  lemma SendDoneKeeps(w: World, n: nat, error: Option<string>)
    requires Inv(w) && w.s.connected.inFlight.Some? && n <= |w.s.connected.inFlight.value|
    ensures Inv(SendDoneStep(w, n, error))
  {
  }

  lemma ReadSomeKeeps(w: World, bytes: seq<byte>)
    requires Inv(w) && ReadFits(w.s.connected, bytes)
    ensures Inv(ReadSomeStep(w, bytes))
  {
  }

  lemma StepKeepsInv(w: World, e: Event)
    requires Inv(w) && Enabled(w, e)
    ensures Inv(Step(w, e))
  {
    match e
    case Write(bytes) => WriteKeeps(w, bytes);
    case Send => SendKeeps(w);
    case SetLimit(max) =>
    case Receive(amount, net) => ReceiveKeeps(w, amount, net);
    case ReceiveAvailable(net) => ReceiveAvailableKeeps(w, net);
    case IsEof(peek) =>
    case DisconnectAbortive =>
    case Resolved(lookup, message, closeError) => ResolvedKeeps(w, lookup, message, closeError);
    case ConnectDone(error, closeError, enterError) => ConnectDoneKeeps(w, error, closeError, enterError);
    case SendDone(n, error) => SendDoneKeeps(w, n, error);
    case ReadSome(bytes) => ReadSomeKeeps(w, bytes);
    case ReadDone(error) =>
  }

  // ----- runs -----

  lemma {:induction false} RunKeepsInv(w: World, es: seq<Event>)
    requires Inv(w) && Legal(w, es)
    ensures Inv(After(w, es))
    decreases |es|
  {
    if es != [] {
      StepKeepsInv(w, es[0]);
      RunKeepsInv(Step(w, es[0]), es[1..]);
    }
  }

  lemma ReachableInv(w0: World, es: seq<Event>)
    requires Initial(w0) && Legal(w0, es)
    ensures Inv(After(w0, es))
  {
    InitiallyInv(w0);
    RunKeepsInv(w0, es);
  }

  /** What an observer at the socket's two ends sees of one step, without looking into the histories. */
  datatype Traffic = Traffic(accepted: seq<byte>, wire: seq<byte>, consumed: seq<byte>, delivered: seq<byte>)

  const NOTHING := Traffic([], [], [], [])

  function Plus(a: Traffic, b: Traffic): Traffic {
    Traffic(a.accepted + b.accepted, a.wire + b.wire, a.consumed + b.consumed, a.delivered + b.delivered)
  }

  lemma PlusIsAssociative(a: Traffic, b: Traffic, c: Traffic)
    ensures Plus(Plus(a, b), c) == Plus(a, Plus(b, c)) && Plus(a, NOTHING) == a == Plus(NOTHING, a)
  {
    assert (a.accepted + b.accepted) + c.accepted == a.accepted + (b.accepted + c.accepted);
    assert (a.wire + b.wire) + c.wire == a.wire + (b.wire + c.wire);
    assert (a.consumed + b.consumed) + c.consumed == a.consumed + (b.consumed + c.consumed);
    assert (a.delivered + b.delivered) + c.delivered == a.delivered + (b.delivered + c.delivered);
  }

  function Recorded(h: History): Traffic {
    Traffic(h.accepted, h.wire, h.consumed, h.delivered)
  }

  ghost function Seen(w: World, e: Event): Traffic
    requires Enabled(w, e)
  {
    match e
    case Write(bytes) =>
      Traffic(if w.s.phase != Closed && |w.s.queue.bytes| + |bytes| <= w.s.limit then bytes else [], [], [], [])
    case SendDone(n, _) => Traffic([], w.s.connected.inFlight.value[..n], [], [])
    case Receive(amount, net) =>
      Traffic([], [], if w.s.phase == Connected && ReceiveReads(w.s.connected, amount) then NetBytes(net) else [], Step(w, e).s.received)
    case ReceiveAvailable(net) =>
      Traffic([], [], if w.s.phase == Connected && w.s.connected.read.None? then NetBytes(net) else [], Step(w, e).s.received)
    case ReadSome(bytes) => Traffic([], [], bytes, [])
    case _ => Traffic([], [], [], [])
  }

  ghost function Observed(w: World, es: seq<Event>): Traffic
    requires Legal(w, es)
    decreases |es|
  {
    if es == [] then NOTHING else Plus(Seen(w, es[0]), Observed(Step(w, es[0]), es[1..]))
  }

  lemma ReceiveIsRecorded(w: World, amount: nat, net: NetRead)
    requires Inv(w) && Enabled(w, Receive(amount, net))
    ensures Recorded(Step(w, Receive(amount, net)).h) == Plus(Recorded(w.h), Seen(w, Receive(amount, net)))
  {
  }

  lemma SeenIsRecorded(w: World, e: Event)
    requires Inv(w) && Enabled(w, e)
    ensures Recorded(Step(w, e).h) == Plus(Recorded(w.h), Seen(w, e))
  {
    if e.Receive? {
      ReceiveIsRecorded(w, e.amount, e.net);
    }
  }

  lemma {:induction false} ObservedIsRecorded(w: World, es: seq<Event>)
    requires Inv(w) && Legal(w, es)
    ensures Recorded(After(w, es).h) == Plus(Recorded(w.h), Observed(w, es))
    decreases |es|
  {
    if es == [] {
      PlusIsAssociative(Recorded(w.h), NOTHING, NOTHING);
    } else {
      SeenIsRecorded(w, es[0]);
      StepKeepsInv(w, es[0]);
      var n := Step(w, es[0]);
      ObservedIsRecorded(n, es[1..]);
      PlusIsAssociative(Recorded(w.h), Seen(w, es[0]), Observed(n, es[1..]));
    }
  }

  lemma ObservedFromStart(w0: World, es: seq<Event>)
    requires Initial(w0) && Legal(w0, es)
    ensures Observed(w0, es) == Recorded(After(w0, es).h) && Inv(After(w0, es))
    ensures Flushed(w0, es, 0, 0) == After(w0, es).h.flushed
  {
    InitiallyInv(w0);
    RunKeepsInv(w0, es);
    ObservedIsRecorded(w0, es);
    FlushedIsRecorded(w0, es);
    PlusIsAssociative(Observed(w0, es), NOTHING, NOTHING);
  }

  /** How much has been accepted when send() is called for the last time in the run. */
  ghost function Flushed(w: World, es: seq<Event>, soFar: nat, last: nat): nat
    requires Legal(w, es)
    decreases |es|
  {
    if es == [] then last
    else
      var now := soFar + |Seen(w, es[0]).accepted|;
      Flushed(Step(w, es[0]), es[1..], now, if es[0].Send? then now else last)
  }

  lemma {:induction false} FlushedIsRecorded(w: World, es: seq<Event>)
    requires Inv(w) && Legal(w, es)
    ensures After(w, es).h.flushed == Flushed(w, es, |w.h.accepted|, w.h.flushed)
    decreases |es|
  {
    if es != [] {
      SeenIsRecorded(w, es[0]);
      StepKeepsInv(w, es[0]);
      FlushedIsRecorded(Step(w, es[0]), es[1..]);
    }
  }

  /**
   Over every run the network gets a prefix of the accepted writes, nothing that send() has not
   committed, and (Connected with no send outstanding) everything that it has. No handler throws.
   */
  lemma OutgoingStream(w0: World, es: seq<Event>)
    requires Initial(w0) && Legal(w0, es)
    ensures var w, seen := After(w0, es), Observed(w0, es);
            && seen.wire <= seen.accepted
            && |seen.wire| <= Flushed(w0, es, 0, 0) <= |seen.accepted|
            && (w.s.phase == Connected && w.s.connected.inFlight.None? ==> |seen.wire| == Flushed(w0, es, 0, 0))
            && !w.s.outOfRange
  {
    ObservedFromStart(w0, es);
  }

  /** Bytes in flight continue the wire, are committed and, until their completion, stay what they are. */
  lemma {:induction false} InFlightUntouched(w: World, es: seq<Event>)
    requires Inv(w) && Legal(w, es) && w.s.connected.inFlight.Some?
    requires forall e :: e in es ==> !e.SendDone?
    ensures var n := After(w, es);
            && n.s.connected.inFlight == w.s.connected.inFlight
            && |n.s.connected.inFlight.value| <= n.s.queue.committed
            && n.h.wire == w.h.wire && n.h.flushed <= |n.h.accepted| && n.h.wire + n.s.connected.inFlight.value <= n.h.accepted[..n.h.flushed]
    decreases |es|
  {
    if es == [] {
      var popped := |w.h.accepted| - |w.s.queue.bytes|;
      assert w.h.accepted == w.h.wire + w.s.queue.bytes;
    } else {
      assert es[0] in es;
      StepKeepsInFlight(w, es[0]);
      StepKeepsInv(w, es[0]);
      InFlightUntouched(Step(w, es[0]), es[1..]);
    }
  }

  lemma StepKeepsInFlight(w: World, e: Event)
    requires Inv(w) && Enabled(w, e) && w.s.connected.inFlight.Some? && !e.SendDone?
    ensures Step(w, e).s.connected.inFlight == w.s.connected.inFlight && Step(w, e).h.wire == w.h.wire
  {
  }

  /** Two full completions send everything committed: the second send picks up what came meanwhile. */
  lemma TwoCompletionsDrain(w: World)
    requires Inv(w) && w.s.phase == Connected && w.s.connected.inFlight.Some?
    ensures var w1 := SendDoneStep(w, |w.s.connected.inFlight.value|, None);
            var w2 := if w1.s.connected.inFlight.None? then w1 else SendDoneStep(w1, |w1.s.connected.inFlight.value|, None);
            && w2.s.phase == Connected && w2.s.connected.inFlight.None?
            && w2.h.wire == w.h.accepted[..w.h.flushed]
  {
    var w1 := SendDoneStep(w, |w.s.connected.inFlight.value|, None);
    SendDoneKeeps(w, |w.s.connected.inFlight.value|, None);
    if w1.s.connected.inFlight.Some? {
      SendDoneKeeps(w1, |w1.s.connected.inFlight.value|, None);
    }
  }

  /** How many bytes the send completions of a run report. */
  function Transferred(es: seq<Event>): nat {
    if es == [] then 0 else (if es[0].SendDone? then es[0].transferred else 0) + Transferred(es[1..])
  }

  /**
   Successful completions, however partial, put the committed bytes on the wire one after the other,
   and after one of them no send is outstanding exactly when all of them are there.
   */
  lemma {:induction false} CompletionsDrain(w: World, es: seq<Event>)
    requires Inv(w) && w.s.phase == Connected && Legal(w, es)
    requires forall e :: e in es ==> e.SendDone? && e.sendError.None?
    ensures var n := After(w, es);
            && n.s.phase == Connected && n.h.accepted == w.h.accepted && n.h.flushed == w.h.flushed
            && |w.h.wire| + Transferred(es) <= n.h.flushed <= |n.h.accepted|
            && n.h.wire == n.h.accepted[..|w.h.wire| + Transferred(es)]
            && (es != [] ==> (n.s.connected.inFlight.None? <==> n.h.wire == n.h.accepted[..n.h.flushed]))
    decreases |es|
  {
    if es != [] {
      assert es[0] in es;
      CompletionDrains(w, es[0].transferred);
      SendDoneKeeps(w, es[0].transferred, None);
      CompletionsDrain(Step(w, es[0]), es[1..]);
    }
  }

  lemma CompletionDrains(w: World, n: nat)
    requires Inv(w) && w.s.phase == Connected && w.s.connected.inFlight.Some? && n <= |w.s.connected.inFlight.value|
    ensures var w' := SendDoneStep(w, n, None);
            && w'.s.phase == Connected && w'.h.accepted == w.h.accepted && w'.h.flushed == w.h.flushed
            && |w'.h.wire| == |w.h.wire| + n
            && (w'.s.connected.inFlight.None? <==> |w'.h.wire| == w'.h.flushed)
  {
    SendDoneKeeps(w, n, None);
  }

  /** Delivered bytes are a prefix of the stream read from the peer; nothing read is lost while Connected. */
  lemma IncomingStream(w0: World, es: seq<Event>)
    requires Initial(w0) && Legal(w0, es)
    ensures var w, seen := After(w0, es), Observed(w0, es);
            && seen.delivered <= seen.consumed
            && (w.s.phase == Connected && w.s.connected.read.None? ==> seen.consumed == seen.delivered + w.s.connected.partial)
  {
    ObservedFromStart(w0, es);
  }

  /** receive(amount) returns true exactly with the next `amount` stream bytes, false with nothing. */
  lemma ReceiveDeliversNext(w: World, amount: nat, net: NetRead)
    requires Inv(w) && Enabled(w, Receive(amount, net))
    ensures var (n, ok) := ReceiveStep(w, amount, net);
            var at := |w.h.delivered|;
            && (ok ==> at + amount <= |n.h.consumed| && n.s.received == n.h.consumed[at..at + amount])
            && (!ok ==> n.s.received == [] && n.h.delivered == w.h.delivered)
            && (ok <==> (w.s.phase == Connected && w.s.connected.read.None? &&
                         (amount <= |w.s.connected.partial| || (net.ReadOk? && |w.s.connected.partial| + |net.data| == amount))))
  {
    ReceiveKeeps(w, amount, net);
  }

  lemma StepKeepsRead(w: World, e: Event)
    requires Inv(w) && Enabled(w, e) && w.s.connected.read.Some? && !e.ReadDone?
    ensures var n := Step(w, e);
            && n.s.connected.read.Some? && n.s.connected.read.value.start == w.s.connected.read.value.start
            && |n.s.connected.partial| == |w.s.connected.partial| && n.h.delivered == w.h.delivered
  {
  }

  lemma {:induction false} RunKeepsRead(w: World, es: seq<Event>)
    requires Inv(w) && Legal(w, es) && w.s.connected.read.Some?
    requires forall e :: e in es ==> !e.ReadDone?
    ensures var n := After(w, es);
            && n.s.connected.read.Some? && |n.s.connected.partial| == |w.s.connected.partial| && n.h.delivered == w.h.delivered
    decreases |es|
  {
    if es != [] {
      assert es[0] in es;
      StepKeepsRead(w, es[0]);
      StepKeepsInv(w, es[0]);
      RunKeepsRead(Step(w, es[0]), es[1..]);
    }
  }

  /** The client asks for received bytes. */
  predicate Receives(e: Event) {
    e.Receive? || e.ReceiveAvailable?
  }

  lemma StepKeepsPartial(w: World, e: Event)
    requires Inv(w) && Enabled(w, e) && w.s.phase != Connecting && w.s.connected.read.None? && !Receives(e)
    ensures var n := Step(w, e);
            && n.s.connected.read.None? && n.s.connected.partial == w.s.connected.partial
            && n.h.delivered == w.h.delivered && n.s.phase != Connecting
  {
  }

  /** Until the client asks for them, no step touches the bytes at hand. */
  lemma {:induction false} RunKeepsPartial(w: World, es: seq<Event>)
    requires Inv(w) && Legal(w, es) && w.s.phase != Connecting && w.s.connected.read.None?
    requires forall e :: e in es ==> !Receives(e)
    ensures var n := After(w, es);
            && n.s.connected.read.None? && n.s.connected.partial == w.s.connected.partial
            && n.h.delivered == w.h.delivered
    decreases |es|
  {
    if es != [] {
      assert es[0] in es;
      StepKeepsPartial(w, es[0]);
      StepKeepsInv(w, es[0]);
      RunKeepsPartial(Step(w, es[0]), es[1..]);
    }
  }

  /**
   A receive(amount) that had to wait reserves exactly `amount` bytes, which no step resizes. Once the
   read has succeeded, and whatever happens then that leaves the connection up and is no receive,
   receive(m) with m <= amount returns true at once, with the next m bytes of the stream.
   */
  lemma PendingReceive(w: World, amount: nat, net: NetRead, es: seq<Event>, later: seq<Event>, m: nat, net': NetRead)
    requires Inv(w) && w.s.connected.read.None? && Enabled(w, Receive(amount, net))
    requires var w1 := ReceiveStep(w, amount, net).0;
             w1.s.connected.read.Some? && Legal(w1, es) && forall e :: e in es ==> !e.ReadDone?
    requires m <= amount && forall e :: e in later ==> !Receives(e)
    ensures var w2 := After(ReceiveStep(w, amount, net).0, es);
            && w2.s.connected.read.Some? && |w2.s.connected.partial| == amount
            && (Enabled(w2, ReadDone(None)) && Legal(ReadDoneStep(w2, None), later) ==>
                  DeliversAtOnce(After(ReadDoneStep(w2, None), later), |w.h.delivered|, m, net'))
  {
    var w1 := ReceiveStep(w, amount, net).0;
    ReceiveKeeps(w, amount, net);
    RunKeepsRead(w1, es);
    RunKeepsInv(w1, es);
    ReceiveDeliversNext(w, amount, net);
    var w2 := After(w1, es);
    if Enabled(w2, ReadDone(None)) && Legal(ReadDoneStep(w2, None), later) {
      ReadSuffices(w2, later, m, net');
    }
  }

  /** While Connected, receive(m) is true with the bytes of the stream from position `at` on. */
  ghost predicate DeliversAtOnce(w: World, at: nat, m: nat, net: NetRead) {
    w.s.phase == Connected ==>
      && Enabled(w, Receive(m, net)) && at + m <= |w.h.consumed|
      && ReceiveStep(w, m, net).1 && ReceiveStep(w, m, net).0.s.received == w.h.consumed[at..at + m]
  }

  lemma ReadSuffices(w: World, later: seq<Event>, m: nat, net: NetRead)
    requires Inv(w) && Enabled(w, ReadDone(None)) && m <= |w.s.connected.partial|
    requires Legal(ReadDoneStep(w, None), later) && forall e :: e in later ==> !Receives(e)
    ensures DeliversAtOnce(After(ReadDoneStep(w, None), later), |w.h.delivered|, m, net)
  {
    var n := ReadDoneStep(w, None);
    StepKeepsInv(w, ReadDone(None));
    RunKeepsPartial(n, later);
    RunKeepsInv(n, later);
    if After(n, later).s.phase == Connected {
      ReceiveDeliversNext(After(n, later), m, net);
    }
  }

  // ----- life cycle -----

  function Rank(phase: Phase): nat {
    match phase
    case Connecting => 0
    case Connected => 1
    case Closed => 2
  }

  lemma StepAdvances(w: World, e: Event)
    requires Inv(w) && Enabled(w, e)
    ensures var n := Step(w, e);
            && Rank(w.s.phase) <= Rank(n.s.phase)
            && (w.s.error.Some? ==> n.s.error == w.s.error)
            && (w.s.phase != Connecting ==> n.h.attempts == w.h.attempts)
  {
  }

  /**
   The phase only moves Connecting, Connected, Closed; a recorded error message never changes;
   exactly one resolve or connect operation is outstanding while Connecting, none while Connected;
   once connecting is over no further connection is attempted.
   */
  lemma {:induction false} LifeCycle(w: World, es: seq<Event>)
    requires Inv(w) && Legal(w, es)
    ensures var n := After(w, es);
            && Rank(w.s.phase) <= Rank(n.s.phase)
            && (w.s.error.Some? ==> n.s.error == w.s.error)
            && (n.s.phase == Connecting ==> !n.s.connecting.op.NoOp?)
            && (n.s.phase == Connected ==> n.s.connecting.op.NoOp?)
            && (w.s.phase != Connecting ==> n.h.attempts == w.h.attempts)
    decreases |es|
  {
    if es != [] {
      StepAdvances(w, es[0]);
      StepKeepsInv(w, es[0]);
      LifeCycle(Step(w, es[0]), es[1..]);
    }
  }

  lemma StepWhenClosed(w: World, e: Event)
    requires Inv(w) && Enabled(w, e) && w.s.phase == Closed
    ensures var n := Step(w, e);
            && n.s.phase == Closed && n.h.accepted == w.h.accepted && n.h.delivered == w.h.delivered
            && (n.s.connected.inFlight == w.s.connected.inFlight || n.s.connected.inFlight.None?)
            && (w.s.connected.inFlight.None? || n.s.connected.inFlight.Some? ==> n.h.wire == w.h.wire)
            && (w.s.connected.inFlight.Some? ==> w.h.wire <= n.h.wire <= w.h.wire + w.s.connected.inFlight.value)
  {
  }

  /** After Closed, late completions can only finish the one send that was in flight. */
  lemma {:induction false} ClosedIsFinal(w: World, es: seq<Event>)
    requires Inv(w) && Legal(w, es) && w.s.phase == Closed
    ensures var n := After(w, es);
            && n.s.phase == Closed && n.h.accepted == w.h.accepted && n.h.delivered == w.h.delivered
            && w.h.wire <= n.h.wire <= w.h.wire + (if w.s.connected.inFlight.Some? then w.s.connected.inFlight.value else [])
    decreases |es|
  {
    if es != [] {
      StepWhenClosed(w, es[0]);
      StepKeepsInv(w, es[0]);
      ClosedIsFinal(Step(w, es[0]), es[1..]);
    }
  }

  // ----- connection attempts -----

  /** The endpoint of the connect operation that an event starts, if it leads to `op`. */
  ghost function AttemptIn(e: Event, op: ConnectOp): seq<Endpoint> {
    if (e.Resolved? || e.ConnectDone?) && op.Attempting? then [op.to] else []
  }

  /** The endpoints that connect operations are started for in a run, told from the operations alone. */
  ghost function Attempts(w: World, es: seq<Event>): seq<Endpoint>
    requires Legal(w, es)
    decreases |es|
  {
    if es == [] then []
    else
      var n := Step(w, es[0]);
      AttemptIn(es[0], n.s.connecting.op) + Attempts(n, es[1..])
  }

  /** The result of the lookup that succeeds while the socket is Connecting. */
  ghost function Found(w: World, es: seq<Event>): Option<seq<Endpoint>>
    requires Legal(w, es)
    decreases |es|
  {
    if es == [] then None
    else if es[0].Resolved? && w.s.phase == Connecting && es[0].lookup.Some? then es[0].lookup
    else Found(Step(w, es[0]), es[1..])
  }

  lemma StepRecordsAttempt(w: World, e: Event)
    requires Inv(w) && Enabled(w, e)
    ensures var n := Step(w, e);
            && n.h.attempts == w.h.attempts + AttemptIn(e, n.s.connecting.op)
            && n.h.found == (if e.Resolved? && w.s.phase == Connecting && e.lookup.Some? then e.lookup else w.h.found)
            && (e.Resolved? && w.s.phase == Connecting ==> w.h.found.None?)
  {
  }

  lemma {:induction false} AttemptsAreRecorded(w: World, es: seq<Event>)
    requires Inv(w) && Legal(w, es)
    ensures After(w, es).h.attempts == w.h.attempts + Attempts(w, es)
    decreases |es|
  {
    if es != [] {
      var n := Step(w, es[0]);
      StepRecordsAttempt(w, es[0]);
      StepKeepsInv(w, es[0]);
      AttemptsAreRecorded(n, es[1..]);
      Grouped(w.h.attempts, AttemptIn(es[0], n.s.connecting.op), Attempts(n, es[1..]));
    }
  }

  lemma {:induction false} FoundIsRecorded(w: World, es: seq<Event>)
    requires Inv(w) && Legal(w, es)
    ensures After(w, es).h.found == if w.h.found.Some? then w.h.found else Found(w, es)
    decreases |es|
  {
    if es != [] {
      StepRecordsAttempt(w, es[0]);
      StepKeepsInv(w, es[0]);
      FoundIsRecorded(Step(w, es[0]), es[1..]);
    }
  }

  lemma CandidatesOf(list: seq<Endpoint>)
    ensures Candidates(list) == if list == [] then [DEFAULT_ENDPOINT] else Ordered(list)
    ensures forall e :: e in Candidates(list) ==> (e in list <==> list != [])
  {
    OrderedIsPartition(list);
    assert |multiset(Ordered(list))| == |multiset(list)|;
    forall e | e in Ordered(list)
      ensures e in list
    {
      assert e in multiset(Ordered(list));
    }
  }

  /**
   Over every run the attempted endpoints are a prefix of the candidates that the lookup yields, without
   a lookup there are none, and while Connecting the last of them is being tried and the others are
   left. They all come from the lookup result exactly if that is not empty, or nothing was attempted.
   */
  lemma AttemptsFollowCandidates(w0: World, es: seq<Event>)
    requires Initial(w0) && Legal(w0, es)
    ensures var w, attempts := After(w0, es), Attempts(w0, es);
            match Found(w0, es)
            case None => attempts == []
            case Some(list) =>
              && attempts <= Candidates(list)
              && ((forall e :: e in attempts ==> e in list) <==> list != [] || attempts == [])
              && (w.s.phase == Connecting ==>
                    attempts != [] && w.s.connecting.op == Attempting(attempts[|attempts| - 1], Candidates(list)[|attempts|..]))
  {
    InitiallyInv(w0);
    RunKeepsInv(w0, es);
    AttemptsAreRecorded(w0, es);
    FoundIsRecorded(w0, es);
    Grouped([], [], Attempts(w0, es));
    InvFollows(After(w0, es));
  }

  lemma InvFollows(w: World)
    requires Inv(w)
    ensures var attempts := w.h.attempts;
            match w.h.found
            case None => attempts == []
            case Some(list) =>
              && attempts <= Candidates(list)
              && ((forall e :: e in attempts ==> e in list) <==> list != [] || attempts == [])
              && (w.s.phase == Connecting ==>
                    attempts != [] && w.s.connecting.op == Attempting(attempts[|attempts| - 1], Candidates(list)[|attempts|..]))
  {
    if w.h.found.Some? {
      CandidatesOf(w.h.found.value);
      assert w.h.attempts != [] ==> w.h.attempts[0] in w.h.attempts;
    }
  }

  /** A successful lookup is followed by an attempt, even with no endpoints: then to the default one. */
  lemma LookupIsFollowed(w: World, list: seq<Endpoint>, message: string)
    requires Inv(w) && w.s.phase == Connecting && w.s.connecting.op.Resolving?
    ensures var e := Resolved(Some(list), message, None);
            && Enabled(w, e) && Step(w, e).s.phase == Connecting
            && AttemptIn(e, Step(w, e).s.connecting.op) == [if list == [] then DEFAULT_ENDPOINT else Ordered(list)[0]]
  {
    CandidatesOf(list);
  }

  /**
   A failed attempt ends the connection exactly when the list is exhausted or the socket cannot
   be closed for the next attempt; then (only) the failure is reported. A success ends the attempts.
   */
  lemma FailureOnlyAfterLast(w: World, error: Option<string>, closeError: Option<string>, enterError: Option<string>)
    requires Inv(w) && w.s.phase == Connecting && w.s.connecting.op.Attempting?
    ensures var n := ConnectDoneStep(w, error, closeError, enterError);
            var exhausted := w.h.attempts == Candidates(w.h.found.value);
            && (error.Some? ==> (n.s.phase == Closed <==> exhausted || closeError.Some?))
            && (error.Some? && exhausted ==> n.s.error == error)
            && (error.Some? && !exhausted && closeError.Some? ==> n.s.error == closeError)
            && (error.Some? && !exhausted && closeError.None? ==>
                  |n.h.attempts| == |w.h.attempts| + 1 && n.h.attempts <= Candidates(w.h.found.value))
            && (error.None? ==> n.h.attempts == w.h.attempts && n.s.phase == if enterError.None? then Connected else Closed)
  {
    assert w.h.attempts + w.s.connecting.op.rest == Candidates(w.h.found.value);
  }

  // ----- errors after closing -----

  predicate ReportsReadError(e: Event) {
    e.ReadDone? && e.readError.Some?
  }

  lemma StepMayRecord(w: World, e: Event)
    requires Inv(w) && Enabled(w, e) && w.s.phase == Closed && w.s.error.None?
    ensures Step(w, e).s.phase == Closed && (Step(w, e).s.error.None? <==> !ReportsReadError(e))
    ensures w.s.connected.read.None? ==> Step(w, e).s.connected.read.None? && !ReportsReadError(e)
  {
  }

  /** A socket closed without an error stays without one exactly until a read reports an error. */
  lemma {:induction false} LateErrorExactly(w: World, es: seq<Event>)
    requires Inv(w) && Legal(w, es) && w.s.phase == Closed && w.s.error.None?
    ensures After(w, es).s.error.None? <==> forall e :: e in es ==> !ReportsReadError(e)
    decreases |es|
  {
    if es != [] {
      var n := Step(w, es[0]);
      StepMayRecord(w, es[0]);
      StepKeepsInv(w, es[0]);
      assert es[0] in es && forall e :: e in es ==> e == es[0] || e in es[1..];
      assert forall e :: e in es[1..] ==> e in es;
      if n.s.error.None? {
        LateErrorExactly(n, es[1..]);
      } else {
        LifeCycle(n, es[1..]);
      }
    }
  }

  lemma {:induction false} NoReadNoError(w: World, es: seq<Event>)
    requires Inv(w) && Legal(w, es) && w.s.phase == Closed && w.s.error.None? && w.s.connected.read.None?
    ensures After(w, es).s.error.None?
    decreases |es|
  {
    if es != [] {
      StepMayRecord(w, es[0]);
      StepKeepsInv(w, es[0]);
      NoReadNoError(Step(w, es[0]), es[1..]);
    }
  }

  /** That can never happen exactly if no read is outstanding when the socket is closed. */
  lemma CleanForGood(w: World)
    requires Inv(w) && w.s.phase == Closed && w.s.error.None?
    ensures w.s.connected.read.None? <==> forall es :: Legal(w, es) ==> After(w, es).s.error.None?
  {
    if w.s.connected.read.None? {
      forall es | Legal(w, es)
        ensures After(w, es).s.error.None?
      {
        NoReadNoError(w, es);
      }
    } else {
      var late := [ReadDone(Some(""))];
      assert late[1..] == [];
      assert Legal(w, late) && After(w, late) == Step(w, late[0]);
    }
  }

  /** What a caller can ask when it disconnects: is a read outstanding? */
  lemma DisconnectsForGood(w: World)
    requires Inv(w) && w.s.phase == Connected
    ensures var closed := Step(w, DisconnectAbortive);
            && closed.s.error.None?
            && (w.s.connected.read.None? <==> forall es :: Legal(closed, es) ==> After(closed, es).s.error.None?)
  {
    StepKeepsInv(w, DisconnectAbortive);
    CleanForGood(Step(w, DisconnectAbortive));
  }

  /** A handler that ignores aborts: after disconnectAbortive a late read error is still recorded. */
  lemma LateReadErrorIsRecorded(w: World, message: string)
    requires Inv(w) && w.s.phase == Connected && w.s.connected.read.Some?
    ensures var closed := Step(w, DisconnectAbortive);
            && closed.s.error.None?
            && Enabled(closed, ReadDone(Some(message)))
            && Step(closed, ReadDone(Some(message))).s.error == Some(message)
  {
  }
}
