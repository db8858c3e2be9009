/** What every run of two joined endpoints of the program guarantees. */
module SessionTheorems {
  import opened Octets
  import opened SeqNo
  import opened Apci
  import opened Config104
  import opened Session104
  import opened SessionNet
  import opened SessionRefinement
  import W = Window
  import I = IdealSession
  import P = IdealProof

  // ---- delivery ----

  /** The ASDUs of the I frames in a queue. */
  function Carried(fs: seq<Frame>): seq<Bytes> {
    if fs == [] then []
    else (if fs[0].IFrame? then [fs[0].asdu] else []) + Carried(fs[1..])
  }

  /** A queue carries exactly the part of the log its reader has not seen. */
  lemma {:induction false} CarriedIsRest(d: I.Direction, v: I.View, ms: seq<I.Msg>, fs: seq<Frame>, log: seq<Bytes>)
    requires I.AllGood(d, v, ms, log) && Queue(fs, ms)
    requires v.next <= |log| && I.SeeAll(d, v, ms).next == |log|
    ensures Carried(fs) == log[v.next..]
    decreases |ms|
  {
    if ms != [] {
      I.ViewGrows(d, I.See(d, v, ms[0]), ms[1..], log);
      CarriedIsRest(d, I.See(d, v, ms[0]), ms[1..], fs[1..], log);
    }
  }

  /**
   * Server to client, on every run: what the client handed to rcvASDU, followed by what is in
   * flight, is what the server took from sendASDU. Nothing is lost, doubled or reordered, however
   * often the sequence numbers wrap.
   */
  lemma ServerDataDelivered(cfg: Pair, now: W.Time, es: seq<Event>)
    requires cfg.InRange()
    ensures var n := Play(cfg, now, es); n.sent == n.got + Carried(n.s2c)
  {
    RunRefines(cfg, now, es);
    var n, a := Play(cfg, now, es), Shadow(cfg, now, es);
    I.Chain(Limits(cfg), a);
    CarriedIsRest(I.ToClient, I.CliView(a), a.s2c, n.s2c, a.sent);
    assert n.sent == n.sent[..|n.got|] + n.sent[|n.got|..];
  }

  /** Client to server: what the server handed up is always a prefix of what the client sent. */
  lemma ClientDataPrefix(cfg: Pair, now: W.Time, es: seq<Event>)
    requires cfg.InRange()
    ensures var n := Play(cfg, now, es);
            && n.srvGot <= n.cliSent
            && (n.srvUp && !n.late ==> n.cliSent == n.srvGot + Carried(n.c2s))
  {
    RunRefines(cfg, now, es);
    var n, a := Play(cfg, now, es), Shadow(cfg, now, es);
    if n.srvUp && !n.late {
      I.Chain(Limits(cfg), a);
      I.ViewGrows(I.ToServer, I.SrvView(a), a.c2s, a.cliSent);
      CarriedIsRest(I.ToServer, I.SrvView(a), a.c2s, n.c2s, a.cliSent);
      assert n.cliSent == n.cliSent[..|n.srvGot|] + n.cliSent[|n.srvGot|..];
    }
  }

  // ---- the fatal exits ----

  /** The client never takes the fatal exit on a received frame, and never discards an I frame. */
  lemma ClientNeverRefuses(cfg: Pair, now: W.Time, es: seq<Event>, t: W.Time)
    requires cfg.InRange() && Play(cfg, now, es).s2c != []
    ensures var n := Play(cfg, now, es);
            && CliOnFrame(cfg.cli, n.cli, n.s2c[0], t).alive
            && (n.s2c[0].IFrame? ==> n.cli.isActive && n.s2c[0].sendSN == n.cli.win.seqNoRcv)
  {
    RunRefines(cfg, now, es);
    var n, a := Play(cfg, now, es), Shadow(cfg, now, es);
    Narrowed(cfg, a);
    ArrivalsNear(cfg, a);
    P.ClientAccepts(Limits(cfg), a);
    CliFrameRefines(cfg.cli, n.cli, t, a.cli, a.s2c[0]);
  }

  /**
   * The server takes the fatal exit exactly when an I frame reaches it while active after it
   * discarded one while inactive; no acknowledgement is ever the reason.
   */
  lemma ServerRefusesExactlyAfterLoss(cfg: Pair, now: W.Time, es: seq<Event>, t: W.Time)
    requires cfg.InRange() && Play(cfg, now, es).srvUp && Play(cfg, now, es).c2s != []
    ensures var n := Play(cfg, now, es);
            && (SrvOnFrame(cfg.srv, n.srv, n.c2s[0], t).alive <==> !(n.c2s[0].IFrame? && n.srv.isActive && n.lost > 0))
            && (!n.c2s[0].UFrame? ==> W.UpdateAckNoOut(n.srv.win, n.c2s[0].rcvSN).1)
  {
    RunRefines(cfg, now, es);
    var n, a := Play(cfg, now, es), Shadow(cfg, now, es);
    Narrowed(cfg, a);
    ArrivalsNear(cfg, a);
    P.ServerRefusal(Limits(cfg), a);
    SrvFrameRefines(cfg.srv, n.srv, t, a.srv, a.c2s[0]);
    if !a.c2s[0].Ctl? {
      AckRefines(n.srv.win, a.srv, a.c2s[0].ack);
    }
  }

  /**
   * Losing an I frame is the client's doing: none is lost before the client has sent one while its
   * last request on the wire was STOPDT, and once it has, one is lost by the time the queue is empty.
   */
  lemma LossExactlyWhenLate(cfg: Pair, now: W.Time, es: seq<Event>)
    requires cfg.InRange() && Play(cfg, now, es).srvUp
    ensures var n := Play(cfg, now, es);
            && (n.lost > 0 ==> n.late)
            && (n.c2s == [] ==> (n.lost > 0 <==> n.late) && n.srv.isActive == n.want)
  {
    RunRefines(cfg, now, es);
    var a := Shadow(cfg, now, es);
    I.ViewGrows(I.ToServer, I.SrvView(a), a.c2s, a.cliSent);
  }

  lemma PlayTwo(cfg: Pair, now: W.Time, es: seq<Event>, e: Event, f: Event)
    ensures Play(cfg, now, es + [e, f]) == Step(cfg, Step(cfg, Play(cfg, now, es), e), f)
  {
    assert (es + [e, f])[..|es| + 1] == es + [e];
    assert (es + [e])[..|es|] == es;
  }

  /**
   * With the line quiet and transfer on, one more I frame from the client goes through exactly when it was never
   * late.
   */
  lemma NextDataSurvivesExactlyWhenNeverLate(cfg: Pair, now: W.Time, es: seq<Event>, asdu: Bytes, t: W.Time, u: W.Time)
    requires cfg.InRange() && Fits(asdu)
    requires var n := Play(cfg, now, es);
             n.srvUp && n.cliUp && n.c2s == [] && n.srv.isActive && CliMaySend(cfg.cli, n.cli)
    ensures Play(cfg, now, es + [CliOffer(asdu, t), SrvReceive(u)]).srvUp <==> !Play(cfg, now, es).late
  {
    var n := Play(cfg, now, es);
    var es' := es + [CliOffer(asdu, t)];
    assert es'[..|es|] == es;
    PlayTwo(cfg, now, es, CliOffer(asdu, t), SrvReceive(u));
    LossExactlyWhenLate(cfg, now, es);
    ServerRefusesExactlyAfterLoss(cfg, now, es', u);
  }

  lemma ShadowSnoc(cfg: Pair, es: seq<Event>, e: Event)
    ensures Shadow(cfg, 0, es + [e]) == INext(cfg, Play(cfg, 0, es), Shadow(cfg, 0, es), e)
  {
    assert (es + [e])[..|es|] == es;
  }

  /** STARTDT, answered. */
  const STARTED: seq<Event> := [] + [CliStart(0)] + [SrvReceive(0)] + [CliReceive(0)]

  /** One event more, seen as a move of the ideal protocol. */
  lemma ShadowMoves(cfg: Pair, es: seq<Event>, e: Event, m: I.Move)
    requires e.SrvOffer? || e.CliOffer? ==> Fits(e.asdu)
    requires m == MoveOf(cfg, Play(cfg, 0, es), e)
    ensures Shadow(cfg, 0, es + [e]) == I.INext(Limits(cfg), Shadow(cfg, 0, es), m)
  {
    ShadowSnoc(cfg, es, e);
  }

  lemma Handshake(l: I.Limits)
    ensures I.INext(l, I.INext(l, I.INext(l, I.START, I.CliStart), I.SrvReceive), I.CliReceive)
            == I.START.(srv := I.NEW.(active := true), cli := I.NEW.(active := true), want := true)
  {
    var b := I.INext(l, I.START, I.CliStart);
    assert b.c2s == [I.Ctl(StartDtActive)];
    var c := I.INext(l, b, I.SrvReceive);
    assert c.s2c == [I.Ctl(StartDtConfirm)] && c.c2s == [];
  }

  lemma StartedShadow(cfg: Pair)
    ensures Shadow(cfg, 0, STARTED) ==
            I.START.(srv := I.NEW.(active := true), cli := I.NEW.(active := true), want := true)
  {
    ShadowMoves(cfg, [], CliStart(0), I.CliStart);
    ShadowMoves(cfg, [] + [CliStart(0)], SrvReceive(0), I.SrvReceive);
    ShadowMoves(cfg, [] + [CliStart(0)] + [SrvReceive(0)], CliReceive(0), I.CliReceive);
    Handshake(Limits(cfg));
  }

  /** STOPDT, and an I frame before its confirmation has come back. */
  function Overtaking(asdu: Bytes): seq<Event> {
    STARTED + [CliStop(0)] + [CliOffer(asdu, 0)] + [SrvReceive(0)] + [SrvReceive(0)]
  }

  /** Both ends idle and up: these are the only facts the steps below depend on. */
  ghost predicate Idle(a: I.Ideal, srv: I.Peer, cli: I.Peer) {
    a.srv == srv && a.cli == cli && a.srvUp && a.cliUp && a.c2s == []
  }

  /** The I frame is sent behind the STOPDT act and finds the server inactive. */
  lemma OvertakenDiscarded(l: I.Limits, a: I.Ideal, asdu: Bytes)
    requires l.kCli >= 2 && Idle(a, I.NEW.(active := true), I.NEW.(active := true))
    ensures var b := I.INext(l, I.INext(l, a, I.CliStop), I.CliOffer(asdu));
            && b.c2s == [I.Ctl(StopDtActive), I.Data(0, 0, asdu)] && b.late
            && b.srv == a.srv && b.cli == I.Peer(1, 0, 0, 0, true, false) && b.srvUp && b.cliUp
  {
    var b := I.INext(l, a, I.CliStop);
    assert b.c2s == [I.Ctl(StopDtActive)] && !b.want && b.cli == a.cli && b.cliUp;
    assert I.Send(b.cli, asdu).out == [I.Data(0, 0, asdu)];
  }

  lemma StopTaken(l: I.Limits, a: I.Ideal, asdu: Bytes)
    requires a.srvUp && a.srv == I.NEW.(active := true) && a.c2s == [I.Ctl(StopDtActive), I.Data(0, 0, asdu)]
    ensures var b := I.INext(l, a, I.SrvReceive);
            b.c2s == [I.Data(0, 0, asdu)] && b.srv == I.NEW && b.srvUp && b.cli == a.cli && b.cliUp == a.cliUp
                && b.late == a.late
  {
    assert I.SrvTake(a.srv, l.wSrv, a.c2s[0]) == I.SrvCtl(a.srv, StopDtActive);
  }

  lemma DataDiscarded(l: I.Limits, a: I.Ideal, asdu: Bytes)
    requires a.srvUp && a.srv == I.NEW && a.c2s == [I.Data(0, 0, asdu)]
    ensures var b := I.INext(l, a, I.SrvReceive);
            b.c2s == [] && b.srv == I.NEW && b.srvUp && b.cli == a.cli && b.cliUp == a.cliUp && b.late == a.late
  {
    assert I.SrvTake(a.srv, l.wSrv, a.c2s[0]) == I.SrvHear(a.srv, 0);
  }

  lemma Restarted(l: I.Limits, a: I.Ideal, cli: I.Peer)
    requires Idle(a, I.NEW, cli)
    ensures var b := I.INext(l, I.INext(l, a, I.CliStart), I.SrvReceive);
            Idle(b, I.NEW.(active := true), cli) && b.late == a.late
  {
    var b := I.INext(l, a, I.CliStart);
    assert b.c2s == [I.Ctl(StartDtActive)];
    assert I.SrvTake(b.srv, l.wSrv, b.c2s[0]) == I.SrvCtl(b.srv, StartDtActive);
  }

  lemma OvertakingShadow(cfg: Pair, asdu: Bytes)
    requires Fits(asdu) && cfg.cli.k >= 2
    ensures var a := Shadow(cfg, 0, Overtaking(asdu));
            Idle(a, I.NEW, I.Peer(1, 0, 0, 0, true, false)) && a.late
  {
    var e1 := STARTED + [CliStop(0)];
    var e2 := e1 + [CliOffer(asdu, 0)];
    var e3 := e2 + [SrvReceive(0)];
    StartedShadow(cfg);
    ShadowSnoc(cfg, STARTED, CliStop(0));
    ShadowSnoc(cfg, e1, CliOffer(asdu, 0));
    OvertakenDiscarded(Limits(cfg), Shadow(cfg, 0, STARTED), asdu);
    ShadowSnoc(cfg, e2, SrvReceive(0));
    StopTaken(Limits(cfg), Shadow(cfg, 0, e2), asdu);
    ShadowSnoc(cfg, e3, SrvReceive(0));
    DataDiscarded(Limits(cfg), Shadow(cfg, 0, e3), asdu);
  }

  /** The run up to the second STARTDT. */
  function Relapse(asdu: Bytes): seq<Event> {
    Overtaking(asdu) + [CliStart(0)] + [SrvReceive(0)]
  }

  lemma RelapseShadow(cfg: Pair, asdu: Bytes)
    requires Fits(asdu) && cfg.cli.k >= 2
    ensures var a := Shadow(cfg, 0, Relapse(asdu));
            Idle(a, I.NEW.(active := true), I.Peer(1, 0, 0, 0, true, false)) && a.late
  {
    OvertakingShadow(cfg, asdu);
    ShadowSnoc(cfg, Overtaking(asdu), CliStart(0));
    ShadowSnoc(cfg, Overtaking(asdu) + [CliStart(0)], SrvReceive(0));
    Restarted(Limits(cfg), Shadow(cfg, 0, Overtaking(asdu)), I.Peer(1, 0, 0, 0, true, false));
  }

  /** Such a client exists: STARTDT, STOPDT, an I frame before the STOPDT con arrives, STARTDT, an I frame. */
  lemma LateClientEndsSession(cfg: Pair, asdu: Bytes)
    requires cfg.InRange() && Fits(asdu) && cfg.cli.k >= 2
    ensures !Play(cfg, 0, Relapse(asdu) + [CliOffer(asdu, 0), SrvReceive(0)]).srvUp
  {
    RelapseShadow(cfg, asdu);
    RunRefines(cfg, 0, Relapse(asdu));
    UnwrapCounts(Play(cfg, 0, Relapse(asdu)).cli.win, I.Peer(1, 0, 0, 0, true, false));
    NextDataSurvivesExactlyWhenNeverLate(cfg, 0, Relapse(asdu), asdu, 0, 0);
  }

  // ---- flow control ----

  /** The server has data to hand out and may not, and nothing is in flight that could change it. */
  predicate ServerStalled(cfg: Pair, n: Net) {
    n.srvUp && n.cliUp && n.srv.isActive && W.Unacked(n.srv.win) >= cfg.srv.k && n.s2c == [] && n.c2s == []
  }

  predicate ClientStalled(cfg: Pair, n: Net) {
    n.srvUp && n.cliUp && n.cli.isActive && W.Unacked(n.cli.win) >= cfg.cli.k && n.s2c == [] && n.c2s == []
  }

  lemma NoStallWhenWAtMostK(cfg: Pair, now: W.Time, es: seq<Event>)
    requires cfg.InRange()
    ensures cfg.cli.w <= cfg.srv.k ==> !ServerStalled(cfg, Play(cfg, now, es))
    ensures cfg.srv.w <= cfg.cli.k && !Play(cfg, now, es).late ==> !ClientStalled(cfg, Play(cfg, now, es))
  {
    RunRefines(cfg, now, es);
    var n, a := Play(cfg, now, es), Shadow(cfg, now, es);
    Narrowed(cfg, a);
    if n.srvUp { UnwrapCounts(n.srv.win, a.srv); }
    UnwrapCounts(n.cli.win, a.cli);
  }

  /** STARTDT, its con, then m times: one I frame out, one I frame in. */
  function Filling(m: nat): seq<Event> {
    if m == 0 then STARTED else Filling(m - 1) + [SrvOffer([0], 0)] + [CliReceive(0)]
  }

  ghost predicate Filled(a: I.Ideal, m: nat) {
    && a.srv == I.Peer(m, 0, 0, 0, true, false) && a.cli == I.Peer(0, 0, m, 0, true, false)
    && a.srvUp && a.cliUp && a.s2c == [] && a.c2s == []
  }

  lemma FillingOneMore(cfg: Pair, before: seq<Event>, m: nat)
    requires Filled(Shadow(cfg, 0, before), m) && m < cfg.srv.k && m + 1 < cfg.cli.w
    ensures Filled(Shadow(cfg, 0, before + [SrvOffer([0], 0)] + [CliReceive(0)]), m + 1)
  {
    ShadowMoves(cfg, before, SrvOffer([0], 0), I.SrvOffer([0]));
    ShadowMoves(cfg, before + [SrvOffer([0], 0)], CliReceive(0), I.CliReceive);
    FillOne(Limits(cfg), Shadow(cfg, 0, before), m);
  }

  /** As long as m stays below w the client announces nothing. */
  lemma {:induction false} FillingShadow(cfg: Pair, m: nat)
    requires m <= cfg.srv.k && m < cfg.cli.w
    ensures Filled(Shadow(cfg, 0, Filling(m)), m)
  {
    if m == 0 {
      StartedShadow(cfg);
    } else {
      FillingShadow(cfg, m - 1);
      FillingOneMore(cfg, Filling(m - 1), m - 1);
    }
  }

  lemma FillOne(l: I.Limits, a: I.Ideal, m: nat)
    requires Filled(a, m) && m < l.kSrv && m + 1 < l.wCli
    ensures Filled(I.INext(l, I.INext(l, a, I.SrvOffer([0])), I.CliReceive), m + 1)
  {
    assert I.Send(a.srv, [0]).out == [I.Data(m, 0, [0])];
    var b := I.INext(l, a, I.SrvOffer([0]));
    assert b.s2c == [I.Data(m, 0, [0])] && b.srv == I.Peer(m + 1, 0, 0, 0, true, false);
    assert I.CliTake(b.cli, l.wCli, b.s2c[0]) == I.Accept(b.cli, l.wCli, 0, [0]);
    assert I.Accept(b.cli, l.wCli, 0, [0]).out == [];
  }

  /** The k-th I frame out, all of them taken, none announced. */
  lemma FillingStalls(cfg: Pair)
    requires cfg.InRange() && cfg.cli.w > cfg.srv.k
    ensures ServerStalled(cfg, Play(cfg, 0, Filling(cfg.srv.k)))
  {
    var es := Filling(cfg.srv.k);
    FillingShadow(cfg, cfg.srv.k);
    RunRefines(cfg, 0, es);
    UnwrapCounts(Play(cfg, 0, es).srv.win, Shadow(cfg, 0, es).srv);
  }

  ghost predicate ServerCanStall(cfg: Pair) {
    exists es :: ServerStalled(cfg, Play(cfg, 0, es))
  }

  /** The bound is sharp: the server can stall exactly when the client's w exceeds the server's k. */
  lemma ServerStallsExactlyWhenWExceedsK(cfg: Pair)
    requires cfg.InRange()
    ensures ServerCanStall(cfg) <==> cfg.cli.w > cfg.srv.k
  {
    if cfg.cli.w > cfg.srv.k {
      FillingStalls(cfg);
      assert ServerCanStall(cfg);
    } else {
      forall es ensures !ServerStalled(cfg, Play(cfg, 0, es)) {
        NoStallWhenWAtMostK(cfg, 0, es);
      }
    }
  }
}
