/**
 The TCP socket object and its three state objects. Each method is a step of the machine in
 `TcpProtocol`. The bytes of an outstanding send are read through the pointers Asio was given,
 so a step that freed or overwrote one of them would not keep `TcpConnected.Valid`, and one that
 handed out others would not keep `TcpConnected.LoanKept`.
 */
module TcpSockets {
  import opened Common
  import opened AddressOrder
  import opened SendBuffers
  import opened ByteBuffers
  import opened TcpProtocol

  class TcpClosed {
    var hasError: bool
    var errorMessage: string

    ghost function View(): Option<string>
      reads this
    {
      if hasError then Some(errorMessage) else None
    }

    constructor ()
      ensures View() == None
    {
      hasError, errorMessage := false, "";
    }

    method EnterError(error: string)
      modifies this
      ensures View() == if old(View()).None? then Some(error) else old(View())
    {
      if !hasError {
        hasError := true;
        errorMessage := error;
      }
    }
  }

  /** What a connect handler asks the socket to do next. */
  datatype ConnectOutcome = Ignored | Entered | Failed(message: string) | Trying(endpoint: Endpoint)

  class TcpConnecting {
    var abortRequested: bool
    // the operation Asio runs: a lookup, or a connection attempt whose handler holds the iterator
    var resolving: bool
    var target: Endpoint
    var attempt: V4FirstIterator?
    ghost var op: ConnectOp

    ghost predicate Valid()
      reads this, attempt
    {
      && (resolving ==> attempt == null && op == Resolving)
      && (attempt != null ==> attempt.Valid() && op == Attempting(target, attempt.Remaining()))
      && (!resolving && attempt == null ==> op == NoOp)
    }

    ghost function View(): ConnectingState
      reads this
    {
      ConnectingState(op, abortRequested)
    }

    constructor (enter: bool)
      ensures Valid() && attempt == null && View() == ConnectingState(if enter then Resolving else NoOp, false)
    {
      abortRequested, resolving, target, attempt := false, enter, DEFAULT_ENDPOINT, null;
      op := if enter then Resolving else NoOp;
    }

    method HandleResolve(lookup: Option<seq<Endpoint>>, message: string, closeError: Option<string>)
      returns (outcome: ConnectOutcome)
      requires Valid() && resolving
      modifies this
      ensures Valid() && abortRequested == old(abortRequested) && (attempt == null || fresh(attempt))
      ensures !outcome.Trying? ==> op == NoOp
      ensures abortRequested ==> outcome == Ignored
      ensures !abortRequested && lookup.None? ==> outcome == Failed(message)
      ensures !abortRequested && lookup.Some? ==>
                if closeError.Some? then outcome == Failed(closeError.value)
                else var (endpoint, rest) := NextEndpoint(Ordered(lookup.value));
                     outcome == Trying(endpoint) && op == Attempting(endpoint, rest)
    {
      resolving, op := false, NoOp;
      if abortRequested {
        return Ignored;
      }
      if lookup.None? {
        return Failed(message);
      }
      var endpoints := new V4FirstIterator(lookup.value);
      outcome := StartConnectionAttempt(endpoints, closeError);
    }

    /** Closes the Asio socket (which may fail) and starts connecting to the next endpoint. */
    method StartConnectionAttempt(endpoints: V4FirstIterator, closeError: Option<string>)
      returns (outcome: ConnectOutcome)
      requires Valid() && endpoints.Valid() && op == NoOp
      modifies this`target, this`attempt, this`op, endpoints
      ensures Valid() && (attempt == old(attempt) || attempt == endpoints)
      ensures closeError.Some? ==> outcome == Failed(closeError.value) && op == NoOp
      ensures closeError.None? ==>
                var (endpoint, rest) := NextEndpoint(old(endpoints.Remaining()));
                outcome == Trying(endpoint) && op == Attempting(endpoint, rest)
    {
      if closeError.Some? {
        return Failed(closeError.value);
      }
      var endpoint := endpoints.Next();
      target, attempt := endpoint, endpoints;
      op := Attempting(endpoint, endpoints.Remaining());
      return Trying(endpoint);
    }

    method HandleConnect(error: Option<string>, closeError: Option<string>) returns (outcome: ConnectOutcome)
      requires Valid() && attempt != null
      modifies this, attempt
      ensures Valid() && abortRequested == old(abortRequested) && (attempt == null || attempt == old(attempt))
      ensures !outcome.Trying? ==> op == NoOp
      ensures var rest := old(op.rest);
              outcome == if abortRequested then Ignored
                         else if error.None? then Entered
                         else if rest == [] then Failed(error.value)
                         else if closeError.Some? then Failed(closeError.value)
                         else Trying(rest[0])
      ensures outcome.Trying? ==> op == Attempting(outcome.endpoint, old(op.rest)[1..])
    {
      var endpoints := attempt;
      attempt, op := null, NoOp;
      if abortRequested {
        return Ignored;
      }
      if error.None? {
        return Entered;
      } else if endpoints.HasNext() {
        outcome := StartConnectionAttempt(endpoints, closeError);
      } else {
        return Failed(error.value);
      }
    }
  }

  class TcpConnected {
    const sendbuffer: SendBuffer
    var asyncSendInProgress: bool
    var abortRequested: bool
    var partialReceiveBuffer: seq<byte>
    var asyncReceiveInProgress: bool
    // what Asio holds: the segments of the outstanding send, the space of the outstanding read
    var offered: seq<Segment>
    var pendingRead: PendingRead
    ghost var inFlight: seq<byte>

    ghost predicate Valid()
      reads this`asyncSendInProgress, this`offered, this`inFlight, sendbuffer, sendbuffer.buffers
    {
      && sendbuffer.Valid()
      && (asyncSendInProgress ==> Holds(offered, inFlight))
    }

    /** The segments point to live chunks and hold exactly `bytes`, the front of the queue. */
    ghost predicate Holds(segments: seq<Segment>, bytes: seq<byte>)
      reads sendbuffer, sendbuffer.buffers
    {
      && bytes <= sendbuffer.contents && |bytes| <= sendbuffer.committedBytes
      && sendbuffer.firstElementIndex < BUFFER_SIZE
      && sendbuffer.firstElementIndex + |bytes| <= Capacity(|sendbuffer.buffers|)
      && segments == Cover(sendbuffer.buffers, sendbuffer.firstElementIndex, |bytes|)
      && (forall s :: s in segments ==> InBounds(s) && s.chunk in sendbuffer.buffers && s.chunk !in sendbuffer.deleted)
      && Gathered(segments) == bytes
    }

    ghost function View(): ConnectedState
      reads this
    {
      ConnectedState(
        if asyncSendInProgress then Some(inFlight) else None, abortRequested, partialReceiveBuffer,
        if asyncReceiveInProgress then Some(pendingRead) else None)
    }

    ghost function Queue(): SendQueue
      requires Valid()
      reads this`asyncSendInProgress, this`offered, this`inFlight, sendbuffer, sendbuffer.buffers
    {
      QueueData(sendbuffer.contents, sendbuffer.committedBytes)
    }

    constructor (sendbuffer: SendBuffer)
      requires sendbuffer.Valid()
      ensures Valid() && View() == NEW_CONNECTED && this.sendbuffer == sendbuffer
    {
      this.sendbuffer := sendbuffer;
      asyncSendInProgress, abortRequested, partialReceiveBuffer, asyncReceiveInProgress := false, false, [], false;
      offered, pendingRead, inFlight := [], PendingRead(0, 0), [];
    }

    method StartAsyncSend()
      requires Valid()
      modifies this`asyncSendInProgress, this`offered, this`inFlight
      ensures Valid() && View() == StartSend(old(View()), Queue())
    {
      if !asyncSendInProgress {
        var segments := sendbuffer.CommittedAsConstBufferSequence();
        sendbuffer.SegmentsHoldPrefix(sendbuffer.committedBytes);
        assert Holds(segments, sendbuffer.contents[..sendbuffer.committedBytes]);
        offered, inFlight := segments, sendbuffer.contents[..sendbuffer.committedBytes];
        asyncSendInProgress := true;
      }
    }

    /** More bytes, or more committed ones, at the end of the queue leave the outstanding send alone. */
    twostate lemma QueueGrew()
      requires old(Valid()) && sendbuffer.Valid() && unchanged(this)
      requires old(sendbuffer.buffers) <= sendbuffer.buffers && sendbuffer.deleted == old(sendbuffer.deleted)
      requires sendbuffer.firstElementIndex == old(sendbuffer.firstElementIndex)
      requires sendbuffer.committedBytes >= old(sendbuffer.committedBytes)
      requires old(sendbuffer.contents) <= sendbuffer.contents
      ensures Valid()
    {
      if asyncSendInProgress {
        var chunks, n := old(sendbuffer.buffers), |inFlight|;
        CoverStable(chunks, sendbuffer.buffers[|chunks|..], sendbuffer.firstElementIndex, n);
        assert chunks + sendbuffer.buffers[|chunks|..] == sendbuffer.buffers;
        sendbuffer.SegmentsHoldPrefix(n);
      }
    }

    /** An outstanding send still has the segments it was given. */
    twostate predicate LoanKept()
      reads this
    {
      old(asyncSendInProgress) ==> asyncSendInProgress && offered == old(offered) && inFlight == old(inFlight)
    }

    /** Between valid states it then still reads the same bytes, from chunks that are not deleted. */
    twostate lemma LoanReadsTheSame()
      requires old(Valid()) && Valid() && LoanKept() && old(asyncSendInProgress)
      ensures forall s :: s in offered ==> InBounds(s) && s.chunk !in sendbuffer.deleted
      ensures Gathered(offered) == old(Gathered(offered))
    {
    }

    /** Handles a completed send; what must be entered as an error, or thrown, is returned. */
    method HandleSend(error: Option<string>, bytesTransferred: nat) returns (failed: Option<string>, threw: bool)
      requires Valid() && asyncSendInProgress && bytesTransferred <= |inFlight|
      requires sendbuffer.firstElementIndex + bytesTransferred < 0x8000_0000
      modifies this`asyncSendInProgress, this`offered, this`inFlight, sendbuffer
      ensures Valid() && sendbuffer.Repr() <= old(sendbuffer.Repr())
      ensures var r := ConnectedSendDone(old(View()), old(Queue()), bytesTransferred, error);
              View() == r.c && Queue() == r.queue && failed == r.failed && threw == r.threw
    {
      ghost var idle := View().(inFlight := None);
      asyncSendInProgress := false;
      assert View() == idle;
      if abortRequested {
        return None, false;
      }
      if error.None? {
        var ok := PopSent(bytesTransferred);
        if !ok {
          return None, true;
        }
        assert View() == idle;
        if sendbuffer.committedBytes > 0 {
          StartAsyncSend();
        }
      }
      return error, false;
    }

    method PopSent(bytesTransferred: nat) returns (ok: bool)
      requires Valid() && !asyncSendInProgress && sendbuffer.firstElementIndex + bytesTransferred < 0x8000_0000
      modifies sendbuffer
      ensures Valid() && sendbuffer.Repr() <= old(sendbuffer.Repr())
      ensures ok <==> bytesTransferred <= old(Queue()).committed
      ensures Queue() == if !ok then old(Queue())
                         else QueueData(old(Queue()).bytes[bytesTransferred..], old(Queue()).committed - bytesTransferred)
    {
      ok := sendbuffer.Pop(bytesTransferred);
    }

    /** Reads without blocking; what Asio throws is returned. */
    method NonblockReceive(maxData: nat, net: NetRead) returns (thrown: Option<string>)
      requires NetFits(net, maxData) && !asyncReceiveInProgress
      modifies this`partialReceiveBuffer
      ensures View() == Nonblock(old(View()), maxData, net) && thrown == NetError(net)
    {
      if asyncReceiveInProgress {
        return None;
      }
      if net.AvailableFails? {
        return Some(net.message);
      }
      var readAmmount := if net.ReadOk? then |net.data| else Min(maxData, net.available);
      var recvBufferEndIndex := |partialReceiveBuffer|;
      partialReceiveBuffer := partialReceiveBuffer + Repeat(0, readAmmount);
      var got := NetBytes(net);
      partialReceiveBuffer := partialReceiveBuffer[..recvBufferEndIndex] + got + partialReceiveBuffer[recvBufferEndIndex + |got|..];
      assert partialReceiveBuffer == old(partialReceiveBuffer) + got + Repeat(0, readAmmount - |got|);
      return NetError(net);
    }

    method StartAsyncReceive(ammount: nat)
      requires !asyncReceiveInProgress
      modifies this`asyncReceiveInProgress, this`partialReceiveBuffer, this`pendingRead
      ensures View() == StartRead(old(View()), ammount)
    {
      if !asyncReceiveInProgress {
        asyncReceiveInProgress := true;
        var recvBufferEndIndex := |partialReceiveBuffer|;
        partialReceiveBuffer := partialReceiveBuffer + Repeat(0, ammount);
        pendingRead := PendingRead(recvBufferEndIndex, 0);
      }
    }

    method Receive(ammount: nat, net: NetRead, receiveBuffer: Buffer) returns (ok: bool, thrown: Option<string>)
      requires receiveBuffer.Valid() && receiveBuffer.data == []
      requires ReceiveReads(View(), ammount) ==> NetFits(net, ammount - |View().partial|)
      modifies this`partialReceiveBuffer, this`asyncReceiveInProgress, this`pendingRead, receiveBuffer
      ensures receiveBuffer.Valid()
      ensures var r := ConnectedReceive(old(View()), ammount, net);
              View() == r.c && receiveBuffer.data == r.out && ok == r.ok && thrown == r.thrown
    {
      if asyncReceiveInProgress {
        return false, None;
      }
      if |partialReceiveBuffer| < ammount {
        thrown := NonblockReceive(ammount - |partialReceiveBuffer|, net);
        if thrown.Some? {
          return false, thrown;
        }
      }
      if |partialReceiveBuffer| >= ammount {
        receiveBuffer.Write(partialReceiveBuffer[..ammount]);
        partialReceiveBuffer := partialReceiveBuffer[ammount..];
        return true, None;
      } else {
        var remaining := ammount - |partialReceiveBuffer|;
        StartAsyncReceive(remaining);
        return false, None;
      }
    }

    method ReceiveAvailable(net: NetRead, receiveBuffer: Buffer) returns (thrown: Option<string>)
      requires receiveBuffer.Valid() && receiveBuffer.data == []
      requires !asyncReceiveInProgress ==> NetFits(net, SIZE_MAX)
      modifies this`partialReceiveBuffer, receiveBuffer
      ensures receiveBuffer.Valid()
      ensures var r := ConnectedReceiveAvailable(old(View()), net);
              View() == r.c && receiveBuffer.data == r.out && thrown == r.thrown
    {
      if asyncReceiveInProgress {
        return None;
      }
      thrown := NonblockReceive(SIZE_MAX, net);
      if thrown.None? {
        receiveBuffer.Write(partialReceiveBuffer);
        partialReceiveBuffer := [];
      }
    }

    /** Asio writes arriving bytes into the space the outstanding read was given. */
    method NetworkFills(bytes: seq<byte>)
      requires ReadFits(View(), bytes)
      modifies this`partialReceiveBuffer, this`pendingRead
      ensures View() == FillRead(old(View()), bytes)
    {
      var at := pendingRead.start + pendingRead.filled;
      partialReceiveBuffer := partialReceiveBuffer[..at] + bytes + partialReceiveBuffer[at + |bytes|..];
      pendingRead := pendingRead.(filled := pendingRead.filled + |bytes|);
    }
  }

  class TcpSocket {
    const sendbuffer: SendBuffer
    const receiveBuffer: Buffer
    const tcpConnecting: TcpConnecting
    const tcpConnected: TcpConnected
    const tcpClosed: TcpClosed
    var state: Phase
    var sendbufferSizeLimit: nat
    var outOfRange: bool
    ghost var history: History

    ghost predicate Valid()
      reads this, tcpConnecting, tcpConnecting.attempt, tcpConnected, tcpConnected.sendbuffer, tcpConnected.sendbuffer.buffers
      reads receiveBuffer
    {
      && tcpConnecting.Valid()
      && tcpConnected.sendbuffer == sendbuffer && tcpConnected.Valid()
      && receiveBuffer.Valid()
    }

    ghost function Repr(): set<object>
      reads sendbuffer`buffers, tcpConnecting`attempt
    {
      {this, receiveBuffer, tcpConnecting, tcpConnected, tcpClosed} + sendbuffer.Repr()
      + (if tcpConnecting.attempt == null then {} else {tcpConnecting.attempt})
    }

    ghost function View(): World
      requires Valid()
      reads this, tcpConnecting, tcpConnecting.attempt, tcpConnected, tcpConnected.sendbuffer, tcpConnected.sendbuffer.buffers
      reads receiveBuffer, tcpClosed
    {
      World(Socket(state, tcpConnecting.View(), tcpConnected.View(), tcpClosed.View(), tcpConnected.Queue(),
                   sendbufferSizeLimit, outOfRange, receiveBuffer.data), history)
    }

    // ----- constructors -----

    constructor (phase: Phase, resolving: bool)
      ensures Valid() && fresh(Repr())
      ensures View() == World(NewSocket(phase, if resolving then Resolving else NoOp), NO_HISTORY)
    {
      var buffer := new SendBuffer();
      sendbuffer := buffer;
      receiveBuffer := new Buffer();
      tcpConnecting := new TcpConnecting(resolving);
      tcpConnected := new TcpConnected(buffer);
      tcpClosed := new TcpClosed();
      state, sendbufferSizeLimit, outOfRange, history := phase, SIZE_MAX, false, NO_HISTORY;
      new;
      assert tcpConnecting.Valid() && tcpConnected.Valid() && receiveBuffer.Valid();
      assert Repr() == {this, receiveBuffer, tcpConnecting, tcpConnected, tcpClosed, sendbuffer};
    }

    static method ConnectTo() returns (s: TcpSocket)
      ensures s.Valid() && fresh(s.Repr()) && s.View() == TcpProtocol.ConnectTo()
    {
      s := new TcpSocket(Connecting, true);
    }

    static method Error(message: string) returns (s: TcpSocket)
      ensures s.Valid() && fresh(s.Repr()) && s.View() == ErrorSocket(message)
    {
      s := new TcpSocket(Closed, false);
      s.tcpClosed.EnterError(message);
    }

    static method FromConnectedSocket(enterError: Option<string>) returns (s: TcpSocket)
      ensures s.Valid() && fresh(s.Repr()) && s.View() == FromConnected(enterError)
    {
      s := new TcpSocket(Connected, false);
      s.EnterConnectedState(enterError);
    }

    // ----- state changes -----

    method StateAbort()
      requires Valid()
      modifies tcpConnecting`abortRequested, tcpConnected`abortRequested
      ensures Valid() && View() == old(View()).(s := Abort(old(View()).s))
      ensures Repr() == old(Repr()) && tcpConnected.LoanKept()
    {
      match state {
        case Connecting => tcpConnecting.abortRequested := true;
        case Connected => tcpConnected.abortRequested := true;
        case Closed =>
      }
    }

    method EnterErrorState(message: string)
      requires Valid()
      modifies this`state, tcpConnecting`abortRequested, tcpConnected`abortRequested, tcpClosed
      ensures Valid() && View() == old(View()).(s := EnterError(old(View()).s, message))
      ensures Repr() == old(Repr()) && tcpConnected.LoanKept()
    {
      StateAbort();
      state := Closed;
      tcpClosed.EnterError(message);
    }

    method EnterClosedState()
      requires Valid()
      modifies this`state, tcpConnecting`abortRequested, tcpConnected`abortRequested
      ensures Valid() && View() == old(View()).(s := EnterClosed(old(View()).s))
      ensures Repr() == old(Repr()) && tcpConnected.LoanKept()
    {
      StateAbort();
      state := Closed;
    }

    /** TcpConnected::enter; `enterError` is what querying or configuring the Asio socket threw. */
    method EnterConnectedState(enterError: Option<string>)
      requires Valid()
      modifies this`state, tcpConnecting`abortRequested, tcpConnected, tcpClosed
      ensures Valid() && View() == old(View()).(s := EnterConnected(old(View()).s, enterError))
      ensures Repr() == old(Repr()) && tcpConnected.LoanKept()
    {
      state := Connected;
      if enterError.Some? {
        EnterErrorState(enterError.value);
        return;
      }
      tcpConnected.StartAsyncSend();
    }

    // ----- client calls -----

    method Write(bytes: seq<byte>)
      requires Valid()
      modifies this, tcpConnecting`abortRequested, tcpConnected`abortRequested, tcpClosed, sendbuffer.Repr()
      ensures Valid() && View() == WriteStep(old(View()), bytes)
      ensures fresh(Repr() - old(Repr())) && tcpConnected.LoanKept()
    {
      if state != Closed {
        var total := sendbuffer.TotalSize();
        if total + |bytes| > sendbufferSizeLimit {
          EnterErrorState(LIMIT_EXCEEDED);
          return;
        } else {
          Append(bytes);
        }
      }
    }

    /** The accepted part of a write, which leaves the bytes lent to an outstanding send alone. */
    method Append(bytes: seq<byte>)
      requires Valid()
      modifies this`history, sendbuffer.Repr()
      ensures Valid()
      ensures var (w, queue) := (old(View()), old(tcpConnected.Queue()));
              View() == World(w.s.(queue := queue.(bytes := queue.bytes + bytes)), w.h.(accepted := w.h.accepted + bytes))
      ensures fresh(Repr() - old(Repr())) && tcpConnected.LoanKept()
    {
      sendbuffer.Push(bytes);
      tcpConnected.QueueGrew();
      history := history.(accepted := history.accepted + bytes);
    }

    method SetSendbufferLimit(maxSize: nat)
      requires Valid()
      modifies this`sendbufferSizeLimit
      ensures Valid() && View() == old(View()).(s := old(View()).s.(limit := maxSize))
      ensures Repr() == old(Repr()) && tcpConnected.LoanKept()
    {
      sendbufferSizeLimit := maxSize;
    }

    method Send()
      requires Valid()
      modifies this`history, sendbuffer`committedBytes
      modifies tcpConnected`asyncSendInProgress, tcpConnected`offered, tcpConnected`inFlight
      ensures Valid() && View() == SendStep(old(View()))
      ensures Repr() == old(Repr()) && tcpConnected.LoanKept()
    {
      sendbuffer.Commit();
      tcpConnected.QueueGrew();
      history := history.(flushed := |history.accepted|);
      if state == Connected {
        tcpConnected.StartAsyncSend();
      }
    }

    /** The receive buffer is emptied in every state. */
    method Receive(ammount: nat, net: NetRead) returns (ok: bool)
      requires Valid()
      requires state == Connected && ReceiveReads(tcpConnected.View(), ammount) ==>
                 NetFits(net, ammount - |tcpConnected.View().partial|)
      modifies this, tcpConnecting`abortRequested, tcpConnected, tcpClosed, receiveBuffer
      ensures Valid() && (View(), ok) == ReceiveStep(old(View()), ammount, net)
      ensures Repr() == old(Repr()) && tcpConnected.LoanKept()
    {
      receiveBuffer.Clear();
      if state == Connected {
        ok := ReceiveConnected(ammount, net);
      } else {
        ok := false;
      }
    }

    method ReceiveConnected(ammount: nat, net: NetRead) returns (ok: bool)
      requires Valid() && state == Connected && receiveBuffer.data == []
      requires ReceiveReads(tcpConnected.View(), ammount) ==> NetFits(net, ammount - |tcpConnected.View().partial|)
      modifies this, tcpConnecting`abortRequested, tcpConnected, tcpClosed, receiveBuffer
      ensures var r := ConnectedReceive(old(tcpConnected.View()), ammount, net);
              Valid() && View() == AfterReceive(old(View()), r) && ok == r.ok
      ensures Repr() == old(Repr()) && tcpConnected.LoanKept()
    {
      ghost var w, r := View(), ConnectedReceive(tcpConnected.View(), ammount, net);
      var thrown;
      ok, thrown := tcpConnected.Receive(ammount, net, receiveBuffer);
      FinishReceive(w, r, thrown);
    }

    /** What a receive call delivered is recorded and what it threw is entered. */
    method FinishReceive(ghost w: World, ghost r: Received, thrown: Option<string>)
      requires Valid() && View() == w.(s := w.s.(connected := r.c, received := r.out)) && thrown == r.thrown
      modifies this`state, this`history, tcpConnecting`abortRequested, tcpConnected`abortRequested, tcpClosed
      ensures Valid() && View() == AfterReceive(w, r)
      ensures Repr() == old(Repr()) && tcpConnected.LoanKept()
    {
      history := history.(consumed := history.consumed + r.read, delivered := history.delivered + r.out);
      if thrown.Some? {
        EnterErrorState(thrown.value);
      }
    }

    method ReceiveAvailable(net: NetRead) returns (size: nat)
      requires Valid() && (state == Connected && !tcpConnected.asyncReceiveInProgress ==> NetFits(net, SIZE_MAX))
      modifies this, tcpConnecting`abortRequested, tcpConnected, tcpClosed, receiveBuffer
      ensures Valid() && View() == ReceiveAvailableStep(old(View()), net) && size == |View().s.received|
      ensures Repr() == old(Repr()) && tcpConnected.LoanKept()
    {
      receiveBuffer.Clear();
      if state == Connected {
        ReceiveAvailableConnected(net);
      }
      return receiveBuffer.Size();
    }

    method ReceiveAvailableConnected(net: NetRead)
      requires Valid() && state == Connected && receiveBuffer.data == []
      requires tcpConnected.View().read.None? ==> NetFits(net, SIZE_MAX)
      modifies this, tcpConnecting`abortRequested, tcpConnected, tcpClosed, receiveBuffer
      ensures var r := ConnectedReceiveAvailable(old(tcpConnected.View()), net);
              Valid() && View() == AfterReceive(old(View()), r)
      ensures Repr() == old(Repr()) && tcpConnected.LoanKept()
    {
      ghost var w, r := View(), ConnectedReceiveAvailable(tcpConnected.View(), net);
      var thrown := tcpConnected.ReceiveAvailable(net, receiveBuffer);
      FinishReceive(w, r, thrown);
    }

    method IsEof(peek: Peek) returns (eof: bool)
      requires Valid()
      modifies this`state, tcpConnecting`abortRequested, tcpConnected`abortRequested, tcpClosed
      ensures Valid() && (View(), eof) == IsEofStep(old(View()), peek)
      ensures Repr() == old(Repr()) && tcpConnected.LoanKept()
    {
      match state
      case Connecting => return false;
      case Closed => return true;
      case Connected =>
        if |tcpConnected.partialReceiveBuffer| > 0 || tcpConnected.asyncReceiveInProgress {
          return false;
        }
        match peek
        case PeekEof => return true;
        case PeekWouldBlock => return false;
        case PeekData => return false;
        case PeekError(message) =>
          EnterErrorState(message);
          return true;
    }

    method DisconnectAbortive()
      requires Valid()
      modifies this`state, tcpConnecting`abortRequested, tcpConnected`abortRequested
      ensures Valid() && View() == old(View()).(s := EnterClosed(old(View()).s))
      ensures Repr() == old(Repr()) && tcpConnected.LoanKept()
    {
      EnterClosedState();
    }

    // ----- completion handlers -----

    method HandleResolve(lookup: Option<seq<Endpoint>>, message: string, closeError: Option<string>)
      requires Valid() && tcpConnecting.resolving
      modifies this, tcpConnecting, tcpConnected`abortRequested, tcpClosed
      ensures Valid() && View() == ResolvedStep(old(View()), lookup, message, closeError)
      ensures fresh(Repr() - old(Repr())) && tcpConnected.LoanKept()
    {
      if !tcpConnecting.abortRequested && lookup.Some? {
        history := history.(found := lookup);
      }
      var outcome := tcpConnecting.HandleResolve(lookup, message, closeError);
      match outcome {
        case Failed(error) => EnterErrorState(error);
        case Trying(endpoint) => history := history.(attempts := history.attempts + [endpoint]);
        case _ =>
      }
    }

    method HandleConnect(error: Option<string>, closeError: Option<string>, enterError: Option<string>)
      requires Valid() && tcpConnecting.attempt != null
      modifies this, tcpConnecting, tcpConnecting.attempt, tcpConnected, tcpClosed
      ensures Valid() && View() == ConnectDoneStep(old(View()), error, closeError, enterError)
      ensures fresh(Repr() - old(Repr())) && tcpConnected.LoanKept()
    {
      var outcome := tcpConnecting.HandleConnect(error, closeError);
      match outcome {
        case Entered => EnterConnectedState(enterError);
        case Failed(message) => EnterErrorState(message);
        case Trying(endpoint) => history := history.(attempts := history.attempts + [endpoint]);
        case Ignored =>
      }
    }

    method HandleSend(error: Option<string>, bytesTransferred: nat)
      requires Valid() && tcpConnected.asyncSendInProgress && bytesTransferred <= |tcpConnected.inFlight|
      requires sendbuffer.firstElementIndex + bytesTransferred < 0x8000_0000
      modifies this, tcpConnecting`abortRequested, tcpConnected, tcpClosed, sendbuffer
      ensures Valid() && View() == SendDoneStep(old(View()), bytesTransferred, error)
      ensures fresh(Repr() - old(Repr()))
    {
      ghost var w := View();
      ghost var r := ConnectedSendDone(w.s.connected, w.s.queue, bytesTransferred, error);
      ghost var sent := tcpConnected.inFlight[..bytesTransferred];
      var failed, threw := SendCompleted(error, bytesTransferred);
      FinishSend(w, r, sent, failed, threw);
    }

    /** The sent bytes are recorded, and what the handler threw or failed with is entered. */
    method FinishSend(ghost w: World, ghost r: Sent, ghost sent: seq<byte>, failed: Option<string>, threw: bool)
      requires Valid() && View() == World(w.s.(connected := r.c, queue := r.queue), w.h)
      requires failed == r.failed && threw == r.threw
      modifies this`state, this`history, this`outOfRange, tcpConnecting`abortRequested, tcpConnected`abortRequested, tcpClosed
      ensures Valid() && Repr() == old(Repr())
      ensures var s := w.s.(connected := r.c, queue := r.queue, outOfRange := w.s.outOfRange || r.threw);
              View() == World(if r.failed.Some? then EnterError(s, r.failed.value) else s, w.h.(wire := w.h.wire + sent))
    {
      history := history.(wire := history.wire + sent);
      outOfRange := outOfRange || threw;
      if failed.Some? {
        EnterErrorState(failed.value);
      }
    }

    method SendCompleted(error: Option<string>, bytesTransferred: nat) returns (failed: Option<string>, threw: bool)
      requires Valid() && tcpConnected.asyncSendInProgress && bytesTransferred <= |tcpConnected.inFlight|
      requires sendbuffer.firstElementIndex + bytesTransferred < 0x8000_0000
      modifies tcpConnected, sendbuffer
      ensures Valid() && Repr() <= old(Repr())
      ensures var s := old(View().s);
              var r := ConnectedSendDone(s.connected, s.queue, bytesTransferred, error);
              && failed == r.failed && threw == r.threw
              && View() == World(s.(connected := r.c, queue := r.queue), old(history))
    {
      failed, threw := tcpConnected.HandleSend(error, bytesTransferred);
    }

    method NetworkFills(bytes: seq<byte>)
      requires Valid() && ReadFits(tcpConnected.View(), bytes)
      modifies this`history, tcpConnected
      ensures Valid() && View() == ReadSomeStep(old(View()), bytes)
      ensures Repr() == old(Repr()) && tcpConnected.LoanKept()
    {
      tcpConnected.NetworkFills(bytes);
      history := history.(consumed := history.consumed + bytes);
    }

    method HandleReceive(error: Option<string>)
      requires Valid() && tcpConnected.asyncReceiveInProgress
      modifies this`state, tcpConnecting`abortRequested, tcpConnected, tcpClosed
      ensures Valid() && View() == ReadDoneStep(old(View()), error)
      ensures Repr() == old(Repr()) && tcpConnected.LoanKept()
    {
      tcpConnected.asyncReceiveInProgress := false;
      if error.Some? {
        EnterErrorState(error.value);
      }
    }
  }

  // ----- runs of an object -----

  /** One event: the client call, or the completion handler. */
  method Perform(s: TcpSocket, e: Event)
    requires s.Valid() && Enabled(s.View(), e) && (e.SendDone? ==> e.transferred < 0x8000_0000 - BUFFER_SIZE)
    modifies s.Repr()
    ensures s.Valid() && s.View() == Step(old(s.View()), e) && fresh(s.Repr() - old(s.Repr()))
  {
    match e {
      case Write(bytes) => s.Write(bytes);
      case Send => s.Send();
      case SetLimit(max) => s.SetSendbufferLimit(max);
      case Receive(amount, net) => var ok := s.Receive(amount, net);
      case ReceiveAvailable(net) => var size := s.ReceiveAvailable(net);
      case IsEof(peek) => var eof := s.IsEof(peek);
      case DisconnectAbortive => s.DisconnectAbortive();
      case Resolved(lookup, message, closeError) => s.HandleResolve(lookup, message, closeError);
      case ConnectDone(error, closeError, enterError) => s.HandleConnect(error, closeError, enterError);
      case SendDone(n, error) => s.HandleSend(error, n);
      case ReadSome(bytes) => s.NetworkFills(bytes);
      case ReadDone(error) => s.HandleReceive(error);
    }
  }

  /** Whatever events can happen, the object goes through the run of the machine. */
  method Run(s: TcpSocket, es: seq<Event>)
    requires s.Valid() && Legal(s.View(), es)
    requires forall e :: e in es && e.SendDone? ==> e.transferred < 0x8000_0000 - BUFFER_SIZE
    modifies s.Repr()
    ensures s.Valid() && s.View() == After(old(s.View()), es) && fresh(s.Repr() - old(s.Repr()))
  {
    assert es[0..] == es;
    for i := 0 to |es|
      invariant s.Valid() && Legal(s.View(), es[i..]) && After(s.View(), es[i..]) == After(old(s.View()), es)
      invariant fresh(s.Repr() - old(s.Repr()))
    {
      assert es[i..][0] == es[i] && es[i..][1..] == es[i + 1..];
      Perform(s, es[i]);
    }
  }
}
