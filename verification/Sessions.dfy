/** What the results about runs say of the socket objects. */
module Sessions {
  import opened Common
  import TcpProtocol
  import TcpRuns
  import TcpLaws
  import TcpSockets
  import UdpProtocol
  import UdpRuns
  import UdpAccounts
  import UdpSockets

  /** A TCP socket object, connected to a host and driven by any events that can happen. */
  method TcpSession(es: seq<TcpProtocol.Event>) returns (s: TcpSockets.TcpSocket)
    requires TcpProtocol.Legal(TcpProtocol.ConnectTo(), es)
    requires forall e :: e in es && e.SendDone? ==> e.transferred < 0x8000_0000 - 65536
    ensures s.Valid() && fresh(s.Repr()) && s.View() == TcpProtocol.After(TcpProtocol.ConnectTo(), es)
    ensures var seen := TcpRuns.Observed(TcpProtocol.ConnectTo(), es);
            var flushed := TcpRuns.Flushed(TcpProtocol.ConnectTo(), es, 0, 0);
            && seen.wire <= seen.accepted && |seen.wire| <= flushed <= |seen.accepted| && !s.outOfRange
            && (s.state == TcpProtocol.Connected && !s.tcpConnected.asyncSendInProgress ==> |seen.wire| == flushed)
            && seen.delivered <= seen.consumed
            && (s.state == TcpProtocol.Connected && !s.tcpConnected.asyncReceiveInProgress ==>
                  seen.consumed == seen.delivered + s.tcpConnected.partialReceiveBuffer)
    ensures s.tcpClosed.View() == TcpLaws.FirstReported(TcpProtocol.ConnectTo(), es)
    ensures s.state == TcpLaws.PhaseAfter(TcpProtocol.ConnectTo(), TcpProtocol.Connecting, es)
  {
    s := TcpSockets.TcpSocket.ConnectTo();
    TcpSockets.Run(s, es);
    TcpRuns.OutgoingStream(TcpProtocol.ConnectTo(), es);
    TcpRuns.IncomingStream(TcpProtocol.ConnectTo(), es);
    ConnectToEnds(es);
    ghost var w := s.View();
    assert w.s.error == s.tcpClosed.View() && w.s.phase == s.state && w.s.outOfRange == s.outOfRange && w.s.connected == s.tcpConnected.View();
  }

  /** The recorded error and the phase at the end. */
  lemma ConnectToEnds(es: seq<TcpProtocol.Event>)
    requires TcpProtocol.Legal(TcpProtocol.ConnectTo(), es)
    ensures var w := TcpProtocol.After(TcpProtocol.ConnectTo(), es);
            && w.s.error == TcpLaws.FirstReported(TcpProtocol.ConnectTo(), es)
            && w.s.phase == TcpLaws.PhaseAfter(TcpProtocol.ConnectTo(), TcpProtocol.Connecting, es)
  {
    TcpRuns.InitiallyInv(TcpProtocol.ConnectTo());
    TcpLaws.ErrorIsFirstFailure(TcpProtocol.ConnectTo(), es);
    TcpLaws.PhaseExactly(TcpProtocol.ConnectTo(), es);
  }

  /** A UDP socket object, driven by any events that can happen. */
  method UdpSession(cfg: UdpProtocol.Config, es: seq<UdpProtocol.Event>) returns (s: UdpSockets.UdpSocket)
    requires UdpProtocol.Legal(cfg, UdpProtocol.NewWorld(2 * 1024 * 1024), es)
    ensures s.Valid() && fresh(s.Repr) && s.cfg == cfg
    ensures var w0 := UdpProtocol.NewWorld(2 * 1024 * 1024);
            var log := UdpAccounts.Deeds(cfg, w0, es);
            && s.world == UdpProtocol.After(cfg, w0, es)
            && (s.sendqueue.queue != [] ==> s.asyncSendInProgress)
            && UdpAccounts.WireOf(UdpRuns.SubmittedBy(es, [], 0), UdpAccounts.Deliveries(log))
            && UdpAccounts.AllAccountedFor(cfg, 2 * 1024 * 1024, es, s.world.s, log)
    ensures s.sendqueue.memSize <= UdpAccounts.LimitAfter(2 * 1024 * 1024, es)
  {
    s := new UdpSockets.UdpSocket(cfg);
    UdpSockets.Run(s, es);
    UdpAccounts.EveryDatagramAccountedFor(cfg, 2 * 1024 * 1024, es);
    UdpAccounts.NewIsUnused(cfg, 2 * 1024 * 1024);
    UdpAccounts.RunSetsLimit(cfg, UdpProtocol.NewWorld(2 * 1024 * 1024), es);
  }
}
