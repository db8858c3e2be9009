/** The invariant of the unbounded protocol is kept by every move. */
module IdealProof {
  import opened Octets
  import opened Apci
  import opened IdealSession

  /** The server appends a reply: the queue still ends where the server stands. */
  lemma SrvSays(a: Ideal, b: Ideal, out: seq<Msg>)
    requires ToClientOk(a) && b.cli == a.cli && b.s2c == a.s2c + out && |out| <= 2
    requires b.sent == a.sent || exists asdu :: b.sent == a.sent + [asdu]
    requires var v := SeeAll(ToClient, CliView(a), a.s2c);
             var v' := SeeAll(ToClient, v, out);
             && AllGood(ToClient, v, out, b.sent)
             && v'.ack == b.srv.told && v'.next == b.srv.sent && v'.lost == 0 && (b.srv.active ==> v'.active)
    ensures ToClientOk(b)
  {
    if b.sent != a.sent {
      var asdu :| b.sent == a.sent + [asdu];
      LogGrows(ToClient, CliView(a), a.s2c, a.sent, asdu);
    }
    ConcatGood(ToClient, CliView(a), a.s2c, out, b.sent);
  }

  lemma CliSays(a: Ideal, b: Ideal, out: seq<Msg>)
    requires ToServerOk(a) && SrvView(b) == SrvView(a) && b.c2s == a.c2s + out && |out| <= 2
    requires b.cliSent == a.cliSent || exists asdu :: b.cliSent == a.cliSent + [asdu]
    requires var v := SeeAll(ToServer, SrvView(a), a.c2s);
             var v' := SeeAll(ToServer, v, out);
             && AllGood(ToServer, v, out, b.cliSent)
             && v'.ack == b.cli.told && v'.next == b.cli.sent && v'.active == b.want && (v'.lost > 0 <==> b.late)
    ensures ToServerOk(b)
  {
    if b.cliSent != a.cliSent {
      var asdu :| b.cliSent == a.cliSent + [asdu];
      LogGrows(ToServer, SrvView(a), a.c2s, a.cliSent, asdu);
    }
    ConcatGood(ToServer, SrvView(a), a.c2s, out, b.cliSent);
  }

  lemma SrvOfferKeeps(l: Limits, a: Ideal, asdu: Bytes)
    requires l.InRange() && IInv(l, a)
    ensures IInv(l, INext(l, a, SrvOffer(asdu)))
  {
    var b := INext(l, a, SrvOffer(asdu));
    if b != a {
      var out := Send(a.srv, asdu).out;
      ReplyGood(ToClient, SeeAll(ToClient, CliView(a), a.s2c), out, b.sent);
      assert b.sent == a.sent + [asdu];
      SrvSays(a, b, out);
      Chain(l, a);
    }
  }

  lemma SrvTickKeeps(l: Limits, a: Ideal, ackDue: bool, testDue: bool)
    requires l.InRange() && IInv(l, a)
    ensures IInv(l, INext(l, a, SrvTick(false, ackDue, testDue)))
  {
    var b := INext(l, a, SrvTick(false, ackDue, testDue));
    if a.srvUp {
      var out := Tick(a.srv, ackDue, testDue).out;
      ReplyGood(ToClient, SeeAll(ToClient, CliView(a), a.s2c), out, b.sent);
      SrvSays(a, b, out);
    }
  }

  lemma CliOfferKeeps(l: Limits, a: Ideal, asdu: Bytes)
    requires l.InRange() && IInv(l, a)
    ensures IInv(l, INext(l, a, CliOffer(asdu)))
  {
    var b := INext(l, a, CliOffer(asdu));
    if b != a && a.srvUp {
      var out := Send(a.cli, asdu).out;
      ReplyGood(ToServer, SeeAll(ToServer, SrvView(a), a.c2s), out, b.cliSent);
      assert b.cliSent == a.cliSent + [asdu];
      CliSays(a, b, out);
    }
  }

  lemma CliTickKeeps(l: Limits, a: Ideal, ackDue: bool, testDue: bool)
    requires l.InRange() && IInv(l, a)
    ensures IInv(l, INext(l, a, CliTick(false, ackDue, testDue)))
  {
    var b := INext(l, a, CliTick(false, ackDue, testDue));
    if a.cliUp && a.srvUp {
      var out := Tick(a.cli, ackDue, testDue).out;
      ReplyGood(ToServer, SeeAll(ToServer, SrvView(a), a.c2s), out, b.cliSent);
      CliSays(a, b, out);
    }
  }

  lemma CliAsksKeeps(l: Limits, a: Ideal, m: Move)
    requires l.InRange() && IInv(l, a) && (m.CliStart? || m.CliStop?)
    ensures IInv(l, INext(l, a, m))
  {
    var b := INext(l, a, m);
    if a.cliUp && a.srvUp {
      var out := [Ctl(if m.CliStart? then StartDtActive else StopDtActive)];
      ReplyGood(ToServer, SeeAll(ToServer, SrvView(a), a.c2s), out, b.cliSent);
      CliSays(a, b, out);
    }
  }

  /** The client never refuses what is at the head of its queue, and is active for every I frame. */
  lemma ClientAccepts(l: Limits, a: Ideal)
    requires IInv(l, a) && a.s2c != []
    ensures CliTake(a.cli, l.wCli, a.s2c[0]).alive
    ensures a.s2c[0].Data? ==> a.cli.active && a.s2c[0].n == a.cli.rcvd
    ensures !a.s2c[0].Ctl? ==> Plausible(a.cli, a.s2c[0].ack)
  {
    Chain(l, a);
    ViewGrows(ToClient, See(ToClient, CliView(a), a.s2c[0]), a.s2c[1..], a.sent);
  }

  /**
   * The server judges every acknowledgement plausible; it refuses a frame exactly when it is an I
   * frame, transfer is on, and an earlier I frame was discarded.
   */
  lemma ServerRefusal(l: Limits, a: Ideal)
    requires IInv(l, a) && a.srvUp && a.c2s != []
    ensures SrvTake(a.srv, l.wSrv, a.c2s[0]).alive <==> !(a.c2s[0].Data? && a.srv.active && a.lost > 0)
    ensures a.c2s[0].Data? ==> a.c2s[0].n == a.srv.rcvd + a.lost
    ensures !a.c2s[0].Ctl? ==> Plausible(a.srv, a.c2s[0].ack)
  {
    Chain(l, a);
    ViewGrows(ToServer, See(ToServer, SrvView(a), a.c2s[0]), a.c2s[1..], a.cliSent);
  }

  /** The client's view moves past the frame it took. */
  lemma CliViewMoves(l: Limits, a: Ideal)
    requires IInv(l, a) && a.cliUp && a.s2c != []
    ensures ToClientOk(INext(l, a, CliReceive))
  {
    ClientAccepts(l, a);
    assert CliView(INext(l, a, CliReceive)) == See(ToClient, CliView(a), a.s2c[0]);
  }

  lemma CliCountsKept(l: Limits, a: Ideal)
    requires l.InRange() && IInv(l, a) && a.cliUp && a.s2c != []
    ensures Within(INext(l, a, CliReceive).cli, l.kCli, l.wCli) && LogsOk(INext(l, a, CliReceive))
  {
    ClientAccepts(l, a);
  }

  lemma CliReceiveKeeps(l: Limits, a: Ideal)
    requires l.InRange() && IInv(l, a)
    ensures IInv(l, INext(l, a, CliReceive))
  {
    var b := INext(l, a, CliReceive);
    if a.cliUp && a.s2c != [] {
      var r := CliTake(a.cli, l.wCli, a.s2c[0]);
      ClientAccepts(l, a);
      CliViewMoves(l, a);
      CliCountsKept(l, a);
      if a.srvUp {
        ReplyGood(ToServer, SeeAll(ToServer, SrvView(a), a.c2s), r.out, b.cliSent);
        CliSays(a, b, r.out);
      }
    }
  }

  /** Whatever the server answers continues the queue to the client correctly. */
  lemma SrvAnswer(p: Peer, w: nat, m: Msg, v: View, log: seq<Bytes>)
    requires SrvTake(p, w, m).alive && p.told <= p.rcvd && (p.stopping ==> !p.active)
    requires v.ack == p.told && v.next == p.sent && v.lost == 0 && (p.active ==> v.active)
    ensures var r := SrvTake(p, w, m);
            var v' := SeeAll(ToClient, v, r.out);
            && |r.out| <= 2 && AllGood(ToClient, v, r.out, log)
            && v'.ack == r.p.told && v'.next == r.p.sent && v'.lost == 0 && (r.p.active ==> v'.active)
  {
    ReplyGood(ToClient, v, SrvTake(p, w, m).out, log);
  }

  /** The server's view moves past the frame it took. */
  lemma SrvViewMoves(l: Limits, a: Ideal)
    requires IInv(l, a) && a.srvUp && a.c2s != [] && SrvTake(a.srv, l.wSrv, a.c2s[0]).alive
    ensures ToServerOk(INext(l, a, SrvReceive))
  {
    ServerRefusal(l, a);
    assert SrvView(INext(l, a, SrvReceive)) == See(ToServer, SrvView(a), a.c2s[0]);
  }

  lemma SrvReceiveKeeps(l: Limits, a: Ideal)
    requires l.InRange() && IInv(l, a)
    ensures IInv(l, INext(l, a, SrvReceive))
  {
    var b := INext(l, a, SrvReceive);
    if a.srvUp && a.c2s != [] {
      var r := SrvTake(a.srv, l.wSrv, a.c2s[0]);
      if r.alive {
        SrvViewMoves(l, a);
        SrvAnswer(a.srv, l.wSrv, a.c2s[0], SeeAll(ToClient, CliView(a), a.s2c), b.sent);
        SrvSays(a, b, r.out);
        ServerRefusal(l, a);
        SrvCountsKept(l, a);
      }
    }
  }

  lemma SrvCountsKept(l: Limits, a: Ideal)
    requires l.InRange() && IInv(l, a) && a.srvUp && a.c2s != [] && SrvTake(a.srv, l.wSrv, a.c2s[0]).alive
    ensures var b := INext(l, a, SrvReceive);
            Within(b.srv, l.kSrv, l.wSrv) && LogsOk(b) && (b.srv.stopping ==> !b.srv.active)
  {
    ServerRefusal(l, a);
  }

  lemma MoveKeeps(l: Limits, a: Ideal, m: Move)
    requires l.InRange() && IInv(l, a)
    ensures IInv(l, INext(l, a, m))
  {
    match m
    case SrvOffer(asdu) => SrvOfferKeeps(l, a, asdu);
    case SrvTick(dead, ackDue, testDue) => if !dead { SrvTickKeeps(l, a, ackDue, testDue); }
    case SrvReceive => SrvReceiveKeeps(l, a);
    case CliOffer(asdu) => CliOfferKeeps(l, a, asdu);
    case CliTick(dead, ackDue, testDue) => if !dead { CliTickKeeps(l, a, ackDue, testDue); }
    case CliReceive => CliReceiveKeeps(l, a);
    case CliStart => CliAsksKeeps(l, a, m);
    case CliStop => CliAsksKeeps(l, a, m);
  }
}
