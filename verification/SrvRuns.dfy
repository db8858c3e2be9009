/** Every run of one server session against an arbitrary peer. */
module SrvRuns {
  import opened Octets
  import opened SeqNo
  import opened Apci
  import opened Window
  import opened Config104
  import opened Session104

  /** An event, and how long after the previous one it comes. Received frames are arbitrary. */
  datatype Event =
    | Offer(asdu: Bytes, dt: nat)
    | Tick(dt: nat)
    | Receive(frame: Frame, dt: nat)

  datatype Run = Run(alive: bool, st: SrvState, clock: Time, wire: seq<Frame>)

  function Begin(now: Time): Run {
    Run(true, SrvStart(now), now, [])
  }

  function EffectOf(cfg: Config, r: Run, e: Event): Effect<SrvState> {
    var now := r.clock + e.dt;
    match e
    case Offer(asdu, _) =>
      if SrvMaySend(cfg, r.st) then SrvSend(r.st, asdu, now) else Effect(true, r.st, [], [])
    case Tick(_) => SrvTick(cfg, r.st, now)
    case Receive(f, _) => SrvOnFrame(cfg, r.st, f, now)
  }

  function Step(cfg: Config, r: Run, e: Event): Run {
    if !r.alive then r
    else
      var x := EffectOf(cfg, r, e);
      Run(x.alive, x.st, r.clock + e.dt, r.wire + x.out)
  }

  function Play(cfg: Config, r: Run, es: seq<Event>): Run {
    if es == [] then r else Step(cfg, Play(cfg, r, es[..|es| - 1]), es[|es| - 1])
  }

  /** What holds of a session against any peer, as long as it is up. */
  ghost predicate Inv(cfg: Config, st: SrvState, clock: Time) {
    && Valid(st.win, cfg.k, clock)
    && SeqNoCount(st.win.ackNoRcv, st.win.seqNoRcv) < cfg.w
    && (st.pendingStopDt ==> !st.isActive && st.win.ackNoSend != st.win.seqNoSend && st.win.ackNoRcv == st.win.seqNoRcv)
  }

  lemma AfterReceiveBelowW(win: Window, w: nat)
    requires SeqNoCount(win.ackNoRcv, win.seqNoRcv) < w <= 32767
    ensures var r := AfterReceive(win, w).0; SeqNoCount(r.ackNoRcv, r.seqNoRcv) < w
  {
    var d := SeqNoCount(win.ackNoRcv, win.seqNoRcv);
    SeqNoCountIsDistance(win.ackNoRcv, win.seqNoRcv, d);
    SeqNoCountIsDistance(win.ackNoRcv, Next(win.seqNoRcv), d + 1);
  }

  /** Time passing and unacknowledged counts changing do not disturb the pending list. */
  lemma ValidLater(w: Window, w': Window, k: nat, clock: Time, clock': Time)
    requires Valid(w, k, clock) && clock <= clock'
    requires w'.ackNoSend == w.ackNoSend && w'.seqNoSend == w.seqNoSend && w'.pending == w.pending
    ensures Valid(w', k, clock')
  {
  }

  lemma OfferKeepsInv(cfg: Config, st: SrvState, clock: Time, now: Time, asdu: Bytes)
    requires cfg.InRange() && Inv(cfg, st, clock) && clock <= now && SrvMaySend(cfg, st)
    ensures Inv(cfg, SrvSend(st, asdu, now).st, now)
  {
    PushedValid(st.win, cfg.k, clock, now);
  }

  lemma WaitKeepsInv(cfg: Config, st: SrvState, clock: Time, now: Time)
    requires Inv(cfg, st, clock) && clock <= now
    ensures Inv(cfg, st, now) && Inv(cfg, st.(idleSince := now), now)
  {
    ValidLater(st.win, st.win, cfg.k, clock, now);
  }

  lemma TickKeepsInv(cfg: Config, st: SrvState, clock: Time, now: Time)
    requires cfg.InRange() && Inv(cfg, st, clock) && clock <= now && SrvTick(cfg, st, now).alive
    ensures Inv(cfg, SrvTick(cfg, st, now).st, now)
  {
    ValidLater(st.win, SrvTick(cfg, st, now).st.win, cfg.k, clock, now);
  }

  lemma SFrameKeepsInv(cfg: Config, st: SrvState, now: Time, n: SeqNum)
    requires cfg.InRange() && Inv(cfg, st, now) && SrvOnS(st, n).alive
    ensures Inv(cfg, SrvOnS(st, n).st, now)
  {
    AckExact(st.win, cfg.k, now, n);
  }

  lemma IFrameKeepsInv(cfg: Config, st: SrvState, now: Time, s: SeqNum, n: SeqNum, asdu: Bytes)
    requires cfg.InRange() && Inv(cfg, st, now) && SrvOnI(cfg, st, s, n, asdu, now).alive
    ensures Inv(cfg, SrvOnI(cfg, st, s, n, asdu, now).st, now)
  {
    AckExact(st.win, cfg.k, now, n);
    if st.isActive {
      var win := UpdateAckNoOut(st.win, n).0;
      AfterReceiveBelowW(win, cfg.w);
      ValidLater(win, SrvOnI(cfg, st, s, n, asdu, now).st.win, cfg.k, now, now);
    }
  }

  lemma UFrameKeepsInv(cfg: Config, st: SrvState, now: Time, f: UFunction)
    requires cfg.InRange() && Inv(cfg, st, now)
    ensures Inv(cfg, SrvOnU(st, f).st, now)
  {
    ValidLater(st.win, SrvOnU(st, f).st.win, cfg.k, now, now);
  }

  lemma FrameKeepsInv(cfg: Config, st: SrvState, clock: Time, now: Time, f: Frame)
    requires cfg.InRange() && Inv(cfg, st, clock) && clock <= now && SrvOnFrame(cfg, st, f, now).alive
    ensures Inv(cfg, SrvOnFrame(cfg, st, f, now).st, now)
  {
    var s := st.(idleSince := now);
    WaitKeepsInv(cfg, st, clock, now);
    match f
    case SFrame(n) => SFrameKeepsInv(cfg, s, now, n);
    case IFrame(m, n, asdu) => IFrameKeepsInv(cfg, s, now, m, n, asdu);
    case UFrame(u) => UFrameKeepsInv(cfg, s, now, u);
  }

  lemma StepKeepsInv(cfg: Config, r: Run, e: Event)
    requires cfg.InRange() && r.alive && Inv(cfg, r.st, r.clock)
    ensures var x := EffectOf(cfg, r, e); x.alive ==> Inv(cfg, x.st, r.clock + e.dt)
  {
    var now := r.clock + e.dt;
    var x := EffectOf(cfg, r, e);
    if x.alive {
      match e {
        case Offer(asdu, dt) =>
          if SrvMaySend(cfg, r.st) {
            OfferKeepsInv(cfg, r.st, r.clock, now, asdu);
            assert x.st == SrvSend(r.st, asdu, now).st;
          } else {
            WaitKeepsInv(cfg, r.st, r.clock, now);
          }
        case Tick(dt) =>
          assert x == SrvTick(cfg, r.st, now);
          TickKeepsInv(cfg, r.st, r.clock, now);
        case Receive(f, dt) =>
          assert x == SrvOnFrame(cfg, r.st, f, now);
          FrameKeepsInv(cfg, r.st, r.clock, now, f);
      }
    }
  }

  /**
   * In every state of a live session, whatever the peer sent: pending is exactly the window, never
   * wider than k, in send order; at least one of w received frames stays unannounced at most; a
   * waiting STOPDT implies transfer is off and something is still unacknowledged.
   */
  lemma {:induction false} LiveSessionInvariant(cfg: Config, now: Time, es: seq<Event>)
    requires cfg.InRange()
    ensures var r := Play(cfg, Begin(now), es); r.alive ==> Inv(cfg, r.st, r.clock)
  {
    if es != [] {
      var r := Play(cfg, Begin(now), es[..|es| - 1]);
      LiveSessionInvariant(cfg, now, es[..|es| - 1]);
      if r.alive {
        StepKeepsInv(cfg, r, es[|es| - 1]);
      }
    }
  }

  /** In a live session an acknowledgement is judged by the window alone: in it, or fatal. */
  lemma AckJudgedByWindow(cfg: Config, now: Time, es: seq<Event>, n: SeqNum, dt: nat)
    requires cfg.InRange() && Play(cfg, Begin(now), es).alive
    ensures var r := Play(cfg, Begin(now), es);
            EffectOf(cfg, r, Receive(SFrame(n), dt)).alive <==>
            exists i | 0 <= i <= |r.st.win.pending| :: n == Ahead(r.st.win.ackNoSend, i)
  {
    LiveSessionInvariant(cfg, now, es);
    var win := Play(cfg, Begin(now), es).st.win;
    AckExact(win, cfg.k, Play(cfg, Begin(now), es).clock, n);
    SeqNoCountIsDistance(win.ackNoSend, n, SeqNoCount(win.ackNoSend, n));
    forall i | 0 <= i <= |win.pending| && n == Ahead(win.ackNoSend, i)
      ensures i == SeqNoCount(win.ackNoSend, n)
    {
      SeqNoCountIsDistance(win.ackNoSend, n, i);
    }
  }

  // ---- STOPDT ----

  /**
   * A STOPDT confirmation is honest: when it goes out, every I frame sent has been acknowledged,
   * every I frame accepted has been acknowledged to the peer, and transfer is off.
   */
  lemma StopConfirmHonest(cfg: Config, now: Time, es: seq<Event>, e: Event)
    requires cfg.InRange() && Play(cfg, Begin(now), es).alive
    requires UFrame(StopDtConfirm) in EffectOf(cfg, Play(cfg, Begin(now), es), e).out
    ensures var st := EffectOf(cfg, Play(cfg, Begin(now), es), e).st;
            && st.win.pending == [] && st.win.ackNoSend == st.win.seqNoSend
            && st.win.ackNoRcv == st.win.seqNoRcv
            && !st.isActive && !st.pendingStopDt
  {
    var r := Play(cfg, Begin(now), es);
    LiveSessionInvariant(cfg, now, es);
    StepKeepsInv(cfg, r, e);
    StopConfirmStep(cfg, r, e);
  }

  lemma StopConfirmStep(cfg: Config, r: Run, e: Event)
    requires r.st.pendingStopDt ==> !r.st.isActive && r.st.win.ackNoRcv == r.st.win.seqNoRcv
    requires UFrame(StopDtConfirm) in EffectOf(cfg, r, e).out
    ensures var x := EffectOf(cfg, r, e);
            && x.alive && x.st.win.ackNoSend == x.st.win.seqNoSend && x.st.win.ackNoRcv == x.st.win.seqNoRcv
            && !x.st.isActive && !x.st.pendingStopDt
  {
  }

  /** Whether the wire says data may flow: the last of STARTDT con and STOPDT con was the former. */
  function Started(wire: seq<Frame>): bool {
    if wire == [] then false
    else
      var f := wire[|wire| - 1];
      if f == UFrame(StartDtConfirm) then true
      else if f == UFrame(StopDtConfirm) then false
      else Started(wire[..|wire| - 1])
  }

  /** No I frame precedes the first STARTDT con, and none follows a STOPDT con before the next STARTDT con. */
  ghost predicate NoDataWhileStopped(wire: seq<Frame>) {
    forall i :: 0 <= i < |wire| && wire[i].IFrame? ==> Started(wire[..i])
  }

  lemma NoDataAppend(wire: seq<Frame>, f: Frame)
    requires NoDataWhileStopped(wire) && (f.IFrame? ==> Started(wire))
    ensures NoDataWhileStopped(wire + [f])
    ensures Started(wire + [f]) == (f == UFrame(StartDtConfirm) || (Started(wire) && f != UFrame(StopDtConfirm)))
  {
    var wire' := wire + [f];
    assert wire'[..|wire|] == wire;
    forall i | 0 <= i < |wire'| && wire'[i].IFrame? ensures Started(wire'[..i]) {
      if i < |wire| {
        assert wire'[..i] == wire[..i];
      }
    }
  }

  /** On every run: no data before the first STARTDT con, none between a STOPDT con and the next STARTDT con. */
  lemma {:induction false} WireOrder(cfg: Config, now: Time, es: seq<Event>)
    requires cfg.InRange()
    ensures var r := Play(cfg, Begin(now), es); NoDataWhileStopped(r.wire) && (r.st.isActive ==> Started(r.wire))
  {
    if es != [] {
      var r := Play(cfg, Begin(now), es[..|es| - 1]);
      var e := es[|es| - 1];
      WireOrder(cfg, now, es[..|es| - 1]);
      if r.alive {
        LiveSessionInvariant(cfg, now, es[..|es| - 1]);
        OutputShape(cfg, r, e);
        OutputOrder(r.wire, r.st, EffectOf(cfg, r, e));
      }
    }
  }

  lemma OutputOrder(wire: seq<Frame>, st: SrvState, x: Effect<SrvState>)
    requires NoDataWhileStopped(wire) && (st.isActive ==> Started(wire)) && Shaped(st, x)
    ensures NoDataWhileStopped(wire + x.out) && (x.st.isActive ==> Started(wire + x.out))
  {
    if |x.out| == 1 {
      NoDataAppend(wire, x.out[0]);
      assert wire + x.out == wire + [x.out[0]];
    } else if |x.out| == 2 {
      NoDataAppend(wire, x.out[0]);
      NoDataAppend(wire + [x.out[0]], x.out[1]);
      assert wire + x.out == wire + [x.out[0]] + [x.out[1]];
    } else {
      assert wire + x.out == wire;
    }
  }

  /**
   * What one event may write: at most two frames, the first of two an S frame; an I frame only from
   * an active session and alone; a STOPDT con only when inactive afterwards.
   */
  ghost predicate Shaped(st: SrvState, x: Effect<SrvState>) {
    && |x.out| <= 2
    && (|x.out| == 2 ==> x.out[0].SFrame? && !x.out[1].IFrame?)
    && (|x.out| == 1 && x.out[0].IFrame? ==> st.isActive)
    && (x.st.isActive ==> st.isActive || x.out == [UFrame(StartDtConfirm)])
    && (UFrame(StopDtConfirm) in x.out ==> !x.st.isActive)
  }

  lemma OutputShape(cfg: Config, r: Run, e: Event)
    requires r.st.pendingStopDt ==> !r.st.isActive
    ensures Shaped(r.st, EffectOf(cfg, r, e))
  {
  }
}
