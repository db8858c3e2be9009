/** When the client is left with k unacknowledged I frames and nothing in flight that could release it. */
module ClientStalls {
  import opened Octets
  import opened SeqNo
  import opened Apci
  import opened Session104
  import opened SessionNet
  import opened SessionRefinement
  import opened SessionTheorems
  import W = Window
  import I = IdealSession

  // ---- a client that is never late ----

  /** STARTDT, its con, then m times: one I frame from the client, taken by the server. */
  function Uploading(m: nat): seq<Event> {
    if m == 0 then STARTED else Uploading(m - 1) + [CliOffer([0], 0)] + [SrvReceive(0)]
  }

  ghost predicate Uploaded(a: I.Ideal, m: nat) {
    && a.srv == I.Peer(0, 0, m, 0, true, false) && a.cli == I.Peer(m, 0, 0, 0, true, false)
    && a.srvUp && a.cliUp && a.s2c == [] && a.c2s == [] && a.want && !a.late
  }

  lemma UploadOne(l: I.Limits, a: I.Ideal, m: nat)
    requires Uploaded(a, m) && m < l.kCli && m + 1 < l.wSrv
    ensures Uploaded(I.INext(l, I.INext(l, a, I.CliOffer([0])), I.SrvReceive), m + 1)
  {
    assert I.Send(a.cli, [0]).out == [I.Data(m, 0, [0])];
    var b := I.INext(l, a, I.CliOffer([0]));
    assert b.c2s == [I.Data(m, 0, [0])] && b.cli == I.Peer(m + 1, 0, 0, 0, true, false);
    assert I.SrvTake(b.srv, l.wSrv, b.c2s[0]) == I.Accept(b.srv, l.wSrv, 0, [0]);
    assert I.Accept(b.srv, l.wSrv, 0, [0]).out == [];
  }

  lemma UploadOneMore(cfg: Pair, before: seq<Event>, m: nat)
    requires Uploaded(Shadow(cfg, 0, before), m) && m < cfg.cli.k && m + 1 < cfg.srv.w
    ensures Uploaded(Shadow(cfg, 0, before + [CliOffer([0], 0)] + [SrvReceive(0)]), m + 1)
  {
    ShadowMoves(cfg, before, CliOffer([0], 0), I.CliOffer([0]));
    ShadowMoves(cfg, before + [CliOffer([0], 0)], SrvReceive(0), I.SrvReceive);
    UploadOne(Limits(cfg), Shadow(cfg, 0, before), m);
  }

  /** As long as m stays below its w the server announces nothing. */
  lemma {:induction false} UploadingShadow(cfg: Pair, m: nat)
    requires m <= cfg.cli.k && m < cfg.srv.w
    ensures Uploaded(Shadow(cfg, 0, Uploading(m)), m)
  {
    if m == 0 {
      StartedShadow(cfg);
    } else {
      UploadingShadow(cfg, m - 1);
      UploadOneMore(cfg, Uploading(m - 1), m - 1);
    }
  }

  lemma UploadingStalls(cfg: Pair)
    requires cfg.InRange() && cfg.srv.w > cfg.cli.k
    ensures var n := Play(cfg, 0, Uploading(cfg.cli.k)); ClientStalled(cfg, n) && !n.late
  {
    var es := Uploading(cfg.cli.k);
    UploadingShadow(cfg, cfg.cli.k);
    RunRefines(cfg, 0, es);
    UnwrapCounts(Play(cfg, 0, es).cli.win, Shadow(cfg, 0, es).cli);
  }

  ghost predicate ClientCanStallInTime(cfg: Pair) {
    exists es :: ClientStalled(cfg, Play(cfg, 0, es)) && !Play(cfg, 0, es).late
  }

  /** A client that was never late can stall exactly when the server's w exceeds its k. */
  lemma TimelyClientStallsExactlyWhenWExceedsK(cfg: Pair)
    requires cfg.InRange()
    ensures ClientCanStallInTime(cfg) <==> cfg.srv.w > cfg.cli.k
  {
    if cfg.srv.w > cfg.cli.k {
      UploadingStalls(cfg);
      assert ClientCanStallInTime(cfg);
    } else {
      forall es ensures !(ClientStalled(cfg, Play(cfg, 0, es)) && !Play(cfg, 0, es).late) {
        NoStallWhenWAtMostK(cfg, 0, es);
      }
    }
  }

  // ---- a late client ----

  /** STOPDT, then m I frames before its con is read: each finds the server inactive. */
  function Wasting(m: nat): seq<Event> {
    if m == 0 then STARTED + [CliStop(0)] + [SrvReceive(0)] else Wasting(m - 1) + [CliOffer([0], 0)] + [SrvReceive(0)]
  }

  ghost predicate Wasted(a: I.Ideal, m: nat) {
    && a.srv == I.NEW && a.cli == I.Peer(m, 0, 0, 0, true, false) && a.srvUp && a.cliUp && !a.want
    && a.c2s == [] && a.s2c == [I.Ctl(StopDtConfirm)] && (m > 0 ==> a.late)
  }

  lemma StopAnswered(l: I.Limits, a: I.Ideal)
    requires a == I.START.(srv := I.NEW.(active := true), cli := I.NEW.(active := true), want := true)
    ensures Wasted(I.INext(l, I.INext(l, a, I.CliStop), I.SrvReceive), 0)
  {
    var b := I.INext(l, a, I.CliStop);
    assert b.c2s == [I.Ctl(StopDtActive)];
    assert I.SrvTake(b.srv, l.wSrv, b.c2s[0]) == I.SrvCtl(b.srv, StopDtActive);
  }

  lemma WasteOne(l: I.Limits, a: I.Ideal, m: nat)
    requires Wasted(a, m) && m < l.kCli
    ensures Wasted(I.INext(l, I.INext(l, a, I.CliOffer([0])), I.SrvReceive), m + 1)
  {
    assert I.Send(a.cli, [0]).out == [I.Data(m, 0, [0])];
    var b := I.INext(l, a, I.CliOffer([0]));
    assert b.c2s == [I.Data(m, 0, [0])] && b.cli == I.Peer(m + 1, 0, 0, 0, true, false);
    assert I.SrvTake(b.srv, l.wSrv, b.c2s[0]) == I.SrvHear(b.srv, 0);
  }

  lemma WasteOneMore(cfg: Pair, before: seq<Event>, m: nat)
    requires Wasted(Shadow(cfg, 0, before), m) && m < cfg.cli.k
    ensures Wasted(Shadow(cfg, 0, before + [CliOffer([0], 0)] + [SrvReceive(0)]), m + 1)
  {
    ShadowMoves(cfg, before, CliOffer([0], 0), I.CliOffer([0]));
    ShadowMoves(cfg, before + [CliOffer([0], 0)], SrvReceive(0), I.SrvReceive);
    WasteOne(Limits(cfg), Shadow(cfg, 0, before), m);
  }

  lemma StoppedShadow(cfg: Pair)
    ensures Wasted(Shadow(cfg, 0, Wasting(0)), 0)
  {
    StartedShadow(cfg);
    ShadowMoves(cfg, STARTED, CliStop(0), I.CliStop);
    ShadowMoves(cfg, STARTED + [CliStop(0)], SrvReceive(0), I.SrvReceive);
    StopAnswered(Limits(cfg), Shadow(cfg, 0, STARTED));
  }

  lemma {:induction false} WastingShadow(cfg: Pair, m: nat)
    requires m <= cfg.cli.k
    ensures Wasted(Shadow(cfg, 0, Wasting(m)), m)
  {
    if m == 0 {
      StoppedShadow(cfg);
    } else {
      WastingShadow(cfg, m - 1);
      WasteOneMore(cfg, Wasting(m - 1), m - 1);
    }
  }

  /** The STOPDT con is read, and transfer starts again. */
  function Resuming(before: seq<Event>): seq<Event> {
    before + [CliReceive(0)] + [CliStart(0)] + [SrvReceive(0)] + [CliReceive(0)]
  }

  lemma Resumed(l: I.Limits, a: I.Ideal, m: nat)
    requires Wasted(a, m)
    ensures
      var c := I.INext(l, I.INext(l, a, I.CliReceive), I.CliStart);
      var b := I.INext(l, I.INext(l, c, I.SrvReceive), I.CliReceive);
      && b.srv == I.NEW.(active := true) && b.cli == I.Peer(m, 0, 0, 0, true, false)
      && b.srvUp && b.cliUp && b.c2s == [] && b.s2c == [] && b.late == a.late
  {
    var b := I.INext(l, a, I.CliReceive);
    assert I.CliTake(a.cli, l.wCli, a.s2c[0]) == I.CliCtl(a.cli, StopDtConfirm);
    assert b.s2c == [] && b.cli == I.Peer(m, 0, 0, 0, false, false);
    var c := I.INext(l, b, I.CliStart);
    assert c.c2s == [I.Ctl(StartDtActive)];
    var d := I.INext(l, c, I.SrvReceive);
    assert I.SrvTake(c.srv, l.wSrv, c.c2s[0]) == I.SrvCtl(c.srv, StartDtActive);
    assert d.s2c == [I.Ctl(StartDtConfirm)] && d.c2s == [];
  }

  lemma ResumedShadow(cfg: Pair, before: seq<Event>, m: nat)
    requires Wasted(Shadow(cfg, 0, before), m)
    ensures var b := Shadow(cfg, 0, Resuming(before));
            && b.cli == I.Peer(m, 0, 0, 0, true, false) && b.srvUp && b.cliUp && b.c2s == [] && b.s2c == []
            && b.late == Shadow(cfg, 0, before).late
  {
    ShadowMoves(cfg, before, CliReceive(0), I.CliReceive);
    ShadowMoves(cfg, before + [CliReceive(0)], CliStart(0), I.CliStart);
    ShadowMoves(cfg, before + [CliReceive(0)] + [CliStart(0)], SrvReceive(0), I.SrvReceive);
    ShadowMoves(cfg, before + [CliReceive(0)] + [CliStart(0)] + [SrvReceive(0)], CliReceive(0), I.CliReceive);
    Resumed(Limits(cfg), Shadow(cfg, 0, before), m);
  }

  /**
   * Whatever k and w are, a client that sends k I frames between STOPDT act and its con, and then starts
   * transfer again, is stalled: the server has discarded them all.
   */
  lemma LateClientStalls(cfg: Pair)
    requires cfg.InRange()
    ensures var n := Play(cfg, 0, Resuming(Wasting(cfg.cli.k))); ClientStalled(cfg, n) && n.late
  {
    var es := Resuming(Wasting(cfg.cli.k));
    WastingShadow(cfg, cfg.cli.k);
    ResumedShadow(cfg, Wasting(cfg.cli.k), cfg.cli.k);
    RunRefines(cfg, 0, es);
    UnwrapCounts(Play(cfg, 0, es).cli.win, Shadow(cfg, 0, es).cli);
  }
}
