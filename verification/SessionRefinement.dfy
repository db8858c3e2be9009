/** The wrapping counters refine the unbounded ones: every step of the program is a step of the ideal protocol. */
module SessionRefinement {
  import opened Octets
  import opened SeqNo
  import opened Apci
  import opened Config104
  import opened Session104
  import W = Window
  import N = SessionNet
  import I = IdealSession
  import P = IdealProof

  /** The wire numbers are the unbounded numbers modulo 32768. */
  predicate Same(w: W.Window, p: I.Peer) {
    && w.seqNoSend == Wrap(p.sent) && w.ackNoSend == Wrap(p.acked)
    && w.seqNoRcv == Wrap(p.rcvd) && w.ackNoRcv == Wrap(p.told)
  }

  function FrameOf(m: I.Msg): Frame {
    match m
    case Data(n, ack, asdu) => IFrame(Wrap(n), Wrap(ack), asdu)
    case Ack(ack) => SFrame(Wrap(ack))
    case Ctl(f) => UFrame(f)
  }

  predicate Queue(fs: seq<Frame>, ms: seq<I.Msg>) {
    |fs| == |ms| && forall i :: 0 <= i < |ms| ==> fs[i] == FrameOf(ms[i])
  }

  ghost predicate Refines(n: N.Net, a: I.Ideal) {
    && SrvLike(n.srv, a.srv) && CliLike(n.cli, a.cli)
    && n.srvUp == a.srvUp && n.cliUp == a.cliUp
    && Queue(n.s2c, a.s2c) && Queue(n.c2s, a.c2s)
    && n.sent == a.sent && n.got == a.got && n.cliSent == a.cliSent && n.srvGot == a.srvGot
    && n.want == a.want && n.late == a.late && n.lost == a.lost
  }

  function Limits(cfg: N.Pair): I.Limits {
    I.Limits(cfg.srv.k, cfg.srv.w, cfg.cli.k, cfg.cli.w)
  }

  /** The windows are narrow enough for 15 bits. */
  predicate Narrow(p: I.Peer) {
    p.acked <= p.sent <= p.acked + 32767 && p.told <= p.rcvd < p.told + 32767
  }

  lemma UnwrapCounts(w: W.Window, p: I.Peer)
    requires Same(w, p) && Narrow(p)
    ensures W.Unacked(w) == p.sent - p.acked
    ensures SeqNoCount(w.ackNoRcv, w.seqNoRcv) == p.rcvd - p.told
    ensures w.ackNoSend == w.seqNoSend <==> p.acked == p.sent
    ensures w.ackNoRcv == w.seqNoRcv <==> p.told == p.rcvd
    ensures Next(w.seqNoSend) == Wrap(p.sent + 1) && Next(w.seqNoRcv) == Wrap(p.rcvd + 1)
  {
    CountUnwraps(p.acked, p.sent);
    CountUnwraps(p.told, p.rcvd);
    WrapInjective(p.acked, p.sent);
    WrapInjective(p.told, p.rcvd);
    WrapNext(p.sent);
    WrapNext(p.rcvd);
  }

  /**
   * Of the acknowledgements not older than the last, the program accepts exactly the plausible ones; they
   * move the window, and the others change nothing.
   */
  lemma AckRefines(w: W.Window, p: I.Peer, ack: nat)
    requires Same(w, p) && Narrow(p) && p.acked <= ack < p.acked + MODULUS
    ensures
      var (w', ok) := W.UpdateAckNoOut(w, Wrap(ack));
      && (ok <==> I.Plausible(p, ack)) && Same(w', if ok then p.(acked := ack) else p)
  {
    CountUnwraps(p.acked, p.sent);
    if ack <= p.sent {
      CountUnwraps(ack, p.sent);
    } else {
      CountUnwraps(ack, p.sent + MODULUS);
      assert Wrap(p.sent + MODULUS) == Wrap(p.sent);
      WrapInjective(p.acked, ack);
    }
  }

  /** A reply of the ideal peer and the effect of the same event on the program's endpoint. */
  ghost predicate SrvMatch(x: Effect<SrvState>, r: I.Reply) {
    && x.alive == r.alive
    && (r.alive ==>
          && SrvLike(x.st, r.p) && Queue(x.out, r.out) && x.rcv == r.rcv)
  }

  ghost predicate CliMatch(x: Effect<CliState>, r: I.Reply) {
    && x.alive == r.alive
    && (r.alive ==>
          && CliLike(x.st, r.p) && Queue(x.out, r.out) && x.rcv == r.rcv)
  }

  /** What a frame must satisfy to be judged the same with and without wrapping. */
  predicate Near(p: I.Peer, m: I.Msg) {
    && (!m.Ctl? ==> I.Plausible(p, m.ack))
    && (m.Data? ==> p.rcvd <= m.n < p.rcvd + MODULUS)
  }

  predicate SrvLike(st: SrvState, p: I.Peer) {
    Same(st.win, p) && st.isActive == p.active && st.pendingStopDt == p.stopping
  }

  predicate CliLike(st: CliState, p: I.Peer) {
    Same(st.win, p) && st.isActive == p.active && !p.stopping
  }

  lemma SrvHearRefines(st: SrvState, p: I.Peer, ack: nat)
    requires SrvLike(st, p) && Narrow(p) && I.Plausible(p, ack)
    ensures SrvMatch(SrvOnS(st, Wrap(ack)), I.SrvHear(p, ack))
  {
    AckRefines(st.win, p, ack);
    WrapInjective(ack, p.sent);
  }

  lemma SrvDataRefines(cfg: Config, st: SrvState, now: W.Time, p: I.Peer, n: nat, ack: nat, asdu: Bytes)
    requires SrvLike(st, p) && Narrow(p) && I.Plausible(p, ack) && p.rcvd <= n < p.rcvd + MODULUS
    ensures SrvMatch(SrvOnI(cfg, st, Wrap(n), Wrap(ack), asdu, now), I.SrvTake(p, cfg.w, I.Data(n, ack, asdu)))
  {
    AckRefines(st.win, p, ack);
    if !p.active {
      SrvHearRefines(st, p, ack);
    } else {
      WrapInjective(p.rcvd, n);
      WrapNext(p.rcvd);
      CountUnwraps(p.told, p.rcvd + 1);
    }
  }

  lemma SrvFrameRefines(cfg: Config, st: SrvState, now: W.Time, p: I.Peer, m: I.Msg)
    requires SrvLike(st, p) && Narrow(p) && Near(p, m)
    ensures SrvMatch(SrvOnFrame(cfg, st, FrameOf(m), now), I.SrvTake(p, cfg.w, m))
  {
    var s := st.(idleSince := now);
    match m
    case Ack(ack) => SrvHearRefines(s, p, ack);
    case Data(n, ack, asdu) => SrvDataRefines(cfg, s, now, p, n, ack, asdu);
    case Ctl(f) => SrvCtlRefines(s, p, f);
  }

  lemma SrvCtlRefines(st: SrvState, p: I.Peer, f: UFunction)
    requires SrvLike(st, p) && Narrow(p)
    ensures SrvMatch(SrvOnU(st, f), I.SrvCtl(p, f))
  {
    UnwrapCounts(st.win, p);
  }

  lemma CliFrameRefines(cfg: Config, st: CliState, now: W.Time, p: I.Peer, m: I.Msg)
    requires CliLike(st, p) && Narrow(p) && Near(p, m)
    ensures CliMatch(CliOnFrame(cfg, st, FrameOf(m), now), I.CliTake(p, cfg.w, m))
  {
    match m
    case Ack(ack) =>
      AckRefines(st.win, p, ack);
    case Data(n, ack, asdu) =>
      AckRefines(st.win, p, ack);
      WrapInjective(p.rcvd, n);
      WrapNext(p.rcvd);
      CountUnwraps(p.told, p.rcvd + 1);
    case Ctl(f) =>
  }

  lemma SrvTickRefines(cfg: Config, st: SrvState, now: W.Time, p: I.Peer)
    requires SrvLike(st, p) && !SrvOverdue(cfg, st, now)
    ensures SrvMatch(SrvTick(cfg, st, now), I.Tick(p, SrvAckDue(cfg, st, now), now - st.idleSince >= cfg.t3))
  {
  }

  lemma CliTickRefines(cfg: Config, st: CliState, now: W.Time, p: I.Peer)
    requires CliLike(st, p) && !CliOverdue(cfg, st, now)
    ensures CliMatch(CliTick(cfg, st, now), I.Tick(p, CliAckDue(cfg, st, now), now - st.idleSince >= cfg.t3))
  {
  }

  lemma SrvDidRefines(n: N.Net, a: I.Ideal, x: Effect<SrvState>, r: I.Reply)
    requires Refines(n, a) && SrvMatch(x, r)
    ensures Refines(N.SrvDid(n, x), I.SrvDid(a, r))
  {
  }

  lemma CliDidRefines(n: N.Net, a: I.Ideal, x: Effect<CliState>, r: I.Reply)
    requires Refines(n, a) && CliMatch(x, r)
    ensures Refines(N.CliDid(n, x), I.CliDid(a, r))
  {
  }

  /** The ideal move an event of the program amounts to; the timers decide what a tick does. */
  function MoveOf(cfg: N.Pair, n: N.Net, e: N.Event): I.Move {
    match e
    case SrvOffer(asdu, _) => I.SrvOffer(asdu)
    case SrvTicks(now) =>
      I.SrvTick(SrvOverdue(cfg.srv, n.srv, now), SrvAckDue(cfg.srv, n.srv, now), now - n.srv.idleSince >= cfg.srv.t3)
    case SrvReceive(_) => I.SrvReceive
    case CliOffer(asdu, _) => I.CliOffer(asdu)
    case CliTicks(now) =>
      I.CliTick(CliOverdue(cfg.cli, n.cli, now), CliAckDue(cfg.cli, n.cli, now), now - n.cli.idleSince >= cfg.cli.t3)
    case CliReceive(_) => I.CliReceive
    case CliStart(_) => I.CliStart
    case CliStop(_) => I.CliStop
  }

  function INext(cfg: N.Pair, n: N.Net, a: I.Ideal, e: N.Event): I.Ideal {
    if (e.SrvOffer? || e.CliOffer?) && !Fits(e.asdu) then a else I.INext(Limits(cfg), a, MoveOf(cfg, n, e))
  }

  lemma Narrowed(cfg: N.Pair, a: I.Ideal)
    requires cfg.InRange() && I.IInv(Limits(cfg), a)
    ensures Narrow(a.cli) && (a.srvUp ==> Narrow(a.srv))
  {
    I.Chain(Limits(cfg), a);
  }

  lemma SrvOfferRefines(cfg: N.Pair, n: N.Net, a: I.Ideal, asdu: Bytes, now: W.Time)
    requires Refines(n, a) && (a.srvUp ==> Narrow(a.srv))
    ensures Refines(N.Step(cfg, n, N.SrvOffer(asdu, now)), INext(cfg, n, a, N.SrvOffer(asdu, now)))
  {
    if a.srvUp {
      UnwrapCounts(n.srv.win, a.srv);
      if SrvMaySend(cfg.srv, n.srv) && Fits(asdu) {
        SrvDidRefines(n, a, SrvSend(n.srv, asdu, now), I.Send(a.srv, asdu));
      }
    }
  }

  lemma SrvTicksRefines(cfg: N.Pair, n: N.Net, a: I.Ideal, now: W.Time)
    requires Refines(n, a)
    ensures Refines(N.Step(cfg, n, N.SrvTicks(now)), INext(cfg, n, a, N.SrvTicks(now)))
  {
    if a.srvUp && !SrvOverdue(cfg.srv, n.srv, now) {
      SrvTickRefines(cfg.srv, n.srv, now, a.srv);
      SrvDidRefines(n, a, SrvTick(cfg.srv, n.srv, now),
        I.Tick(a.srv, SrvAckDue(cfg.srv, n.srv, now), now - n.srv.idleSince >= cfg.srv.t3));
    }
  }

  lemma CliOfferRefines(cfg: N.Pair, n: N.Net, a: I.Ideal, asdu: Bytes, now: W.Time)
    requires Refines(n, a) && Narrow(a.cli)
    ensures Refines(N.Step(cfg, n, N.CliOffer(asdu, now)), INext(cfg, n, a, N.CliOffer(asdu, now)))
  {
    UnwrapCounts(n.cli.win, a.cli);
    if a.cliUp && CliMaySend(cfg.cli, n.cli) && Fits(asdu) {
      CliDidRefines(n, a, CliSend(n.cli, asdu, now), I.Send(a.cli, asdu));
    }
  }

  lemma CliTicksRefines(cfg: N.Pair, n: N.Net, a: I.Ideal, now: W.Time)
    requires Refines(n, a)
    ensures Refines(N.Step(cfg, n, N.CliTicks(now)), INext(cfg, n, a, N.CliTicks(now)))
  {
    if a.cliUp && !CliOverdue(cfg.cli, n.cli, now) {
      CliTickRefines(cfg.cli, n.cli, now, a.cli);
      CliDidRefines(n, a, CliTick(cfg.cli, n.cli, now),
        I.Tick(a.cli, CliAckDue(cfg.cli, n.cli, now), now - n.cli.idleSince >= cfg.cli.t3));
    }
  }

  lemma CliAsksRefines(cfg: N.Pair, n: N.Net, a: I.Ideal, e: N.Event)
    requires Refines(n, a) && (e.CliStart? || e.CliStop?)
    ensures Refines(N.Step(cfg, n, e), INext(cfg, n, a, e))
  {
  }

  lemma SrvReceiveRefines(cfg: N.Pair, n: N.Net, a: I.Ideal, now: W.Time)
    requires Refines(n, a) && (a.srvUp && a.c2s != [] ==> Narrow(a.srv) && Near(a.srv, a.c2s[0]))
    ensures Refines(N.Step(cfg, n, N.SrvReceive(now)), INext(cfg, n, a, N.SrvReceive(now)))
  {
    if a.srvUp && a.c2s != [] {
      SrvFrameRefines(cfg.srv, n.srv, now, a.srv, a.c2s[0]);
      SrvDidRefines(n, a, SrvOnFrame(cfg.srv, n.srv, n.c2s[0], now), I.SrvTake(a.srv, cfg.srv.w, a.c2s[0]));
    }
  }

  lemma CliReceiveRefines(cfg: N.Pair, n: N.Net, a: I.Ideal, now: W.Time)
    requires Refines(n, a) && Narrow(a.cli) && (a.s2c != [] ==> Near(a.cli, a.s2c[0]))
    ensures Refines(N.Step(cfg, n, N.CliReceive(now)), INext(cfg, n, a, N.CliReceive(now)))
  {
    if a.cliUp && a.s2c != [] {
      CliFrameRefines(cfg.cli, n.cli, now, a.cli, a.s2c[0]);
      CliDidRefines(n, a, CliOnFrame(cfg.cli, n.cli, n.s2c[0], now), I.CliTake(a.cli, cfg.cli.w, a.s2c[0]));
    }
  }

  /** Discarded I frames are never acknowledged, so they all fit in one window: no alias modulo 32768. */
  lemma LostIsFew(cfg: N.Pair, a: I.Ideal)
    requires cfg.InRange() && I.IInv(Limits(cfg), a) && a.srvUp
    ensures a.lost <= 32767
  {
    I.Chain(Limits(cfg), a);
  }

  /** Whatever arrives is near enough to be judged the same with and without wrapping. */
  lemma ArrivalsNear(cfg: N.Pair, a: I.Ideal)
    requires cfg.InRange() && I.IInv(Limits(cfg), a)
    ensures a.srvUp && a.c2s != [] ==> Near(a.srv, a.c2s[0])
    ensures a.s2c != [] ==> Near(a.cli, a.s2c[0])
  {
    if a.srvUp && a.c2s != [] {
      P.ServerRefusal(Limits(cfg), a);
      LostIsFew(cfg, a);
    }
    if a.s2c != [] {
      P.ClientAccepts(Limits(cfg), a);
    }
  }

  /** Forward simulation. */
  lemma StepRefines(cfg: N.Pair, n: N.Net, a: I.Ideal, e: N.Event)
    requires cfg.InRange() && I.IInv(Limits(cfg), a) && Refines(n, a)
    ensures Refines(N.Step(cfg, n, e), INext(cfg, n, a, e))
  {
    Narrowed(cfg, a);
    ArrivalsNear(cfg, a);
    match e
    case SrvOffer(asdu, now) => SrvOfferRefines(cfg, n, a, asdu, now);
    case SrvTicks(now) => SrvTicksRefines(cfg, n, a, now);
    case SrvReceive(now) => SrvReceiveRefines(cfg, n, a, now);
    case CliOffer(asdu, now) => CliOfferRefines(cfg, n, a, asdu, now);
    case CliTicks(now) => CliTicksRefines(cfg, n, a, now);
    case CliReceive(now) => CliReceiveRefines(cfg, n, a, now);
    case CliStart(_) => CliAsksRefines(cfg, n, a, e);
    case CliStop(_) => CliAsksRefines(cfg, n, a, e);
  }

  /** The ideal run that goes with a run of the program. */
  function Shadow(cfg: N.Pair, now: W.Time, es: seq<N.Event>): I.Ideal {
    if es == [] then I.START
    else
      var before := es[..|es| - 1];
      INext(cfg, N.Play(cfg, now, before), Shadow(cfg, now, before), es[|es| - 1])
  }

  /** On every run, of any length, the program's state is the ideal state with its numbers wrapped. */
  lemma {:induction false} RunRefines(cfg: N.Pair, now: W.Time, es: seq<N.Event>)
    requires cfg.InRange()
    ensures Refines(N.Play(cfg, now, es), Shadow(cfg, now, es))
    ensures I.IInv(Limits(cfg), Shadow(cfg, now, es))
  {
    if es != [] {
      var before := es[..|es| - 1];
      RunRefines(cfg, now, before);
      var n, a, e := N.Play(cfg, now, before), Shadow(cfg, now, before), es[|es| - 1];
      StepRefines(cfg, n, a, e);
      P.MoveKeeps(Limits(cfg), a, MoveOf(cfg, n, e));
    }
  }
}
