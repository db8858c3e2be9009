/** A client against an arbitrary peer does what its past calls for, event by event. */
module CliHistory {
  import opened Octets
  import opened SeqNo
  import opened Apci
  import opened Window
  import opened Config104
  import opened Session104
  import opened SessionHistory
  import Srv = SrvHistory

  /** An event, and how long after the previous one it comes. Received frames are arbitrary. */
  datatype Event =
    | Offer(asdu: Bytes, dt: nat)
    | Tick(dt: nat)
    | Receive(frame: Frame, dt: nat)
    | Start(dt: nat)
    | Stop(dt: nat)

  datatype Run = Run(alive: bool, st: CliState, clock: Time)

  function Begin(now: Time): Run {
    Run(true, CliInit(now), now)
  }

  function EffectOf(cfg: Config, r: Run, e: Event): Effect<CliState> {
    var now := r.clock + e.dt;
    match e
    case Offer(asdu, _) =>
      if CliMaySend(cfg, r.st) then CliSend(r.st, asdu, now) else Effect(true, r.st, [], [])
    case Tick(_) => CliTick(cfg, r.st, now)
    case Receive(f, _) => CliOnFrame(cfg, r.st, f, now)
    case Start(_) => CliStartDt(r.st, now)
    case Stop(_) => CliStopDt(r.st, now)
  }

  function Step(cfg: Config, r: Run, e: Event): Run {
    if !r.alive then r
    else
      var x := EffectOf(cfg, r, e);
      Run(x.alive, x.st, r.clock + e.dt)
  }

  function Play(cfg: Config, r: Run, es: seq<Event>): Run {
    if es == [] then r else Step(cfg, Play(cfg, r, es[..|es| - 1]), es[|es| - 1])
  }

  /** What an event leaves in the past, given its effect. */
  function Stamps(e: Event, took: bool, x: Effect<CliState>, now: Time): seq<Stamp> {
    match e
    case Offer(asdu, _) => if took then [Took(asdu, now)] else []
    case Receive(f, _) => [In(f, now)] + Outs(x.out, now)
    case _ => Outs(x.out, now)
  }

  /** And what it makes of the view. */
  ghost function After(v: View, e: Event, took: bool, x: Effect<CliState>, now: Time): View {
    match e
    case Offer(asdu, _) => if took then See(Controlling, v, Took(asdu, now)) else v
    case Receive(f, _) => SaidAll(Heard(Controlling, v.(idle := now), f, now), x.out, now)
    case _ => SaidAll(v, x.out, now)
  }

  lemma StampsSeen(begin: Time, past: seq<Stamp>, e: Event, took: bool, x: Effect<CliState>, now: Time)
    ensures ViewOf(Controlling, begin, past + Stamps(e, took, x, now))
            == After(ViewOf(Controlling, begin, past), e, took, x, now)
  {
    match e
    case Offer(asdu, _) =>
      SeesOne(Controlling, begin, past, Took(asdu, now));
      assert past + [] == past;
    case Receive(f, _) =>
      Assoc(past, [In(f, now)], Outs(x.out, now));
      SeesOne(Controlling, begin, past, In(f, now));
      SeesOuts(Controlling, begin, past + [In(f, now)], x.out, now);
    case _ =>
      SeesOuts(Controlling, begin, past, x.out, now);
  }

  ghost function Past(cfg: Config, begin: Time, es: seq<Event>): seq<Stamp> {
    if es == [] then []
    else
      var r := Play(cfg, Begin(begin), es[..|es| - 1]);
      var e := es[|es| - 1];
      Past(cfg, begin, es[..|es| - 1])
      + if r.alive then Stamps(e, CliMaySend(cfg, r.st), EffectOf(cfg, r, e), r.clock + e.dt) else []
  }

  ghost function Seen(cfg: Config, begin: Time, es: seq<Event>): View {
    ViewOf(Controlling, begin, Past(cfg, begin, es))
  }

  /** The state is what the past makes it, and pending is the window. */
  ghost predicate Agrees(cfg: Config, v: View, st: CliState, clock: Time) {
    && Valid(st.win, cfg.k, clock) && Counts(cfg.k, cfg.w, v, st.win)
    && st.isActive == v.active && !v.stopping
    && (v.unannounced != [] ==> st.unAckRcvSince == Since(v.unannounced[0]))
    && st.idleSince == v.idle && st.testFrSince == v.test && st.startDtSince == v.start && st.stopDtSince == v.stop
  }

  lemma Later(cfg: Config, v: View, st: CliState, clock: Time, now: Time)
    requires Agrees(cfg, v, st, clock) && clock <= now
    ensures Agrees(cfg, v, st, now) && Agrees(cfg, v.(idle := now), st.(idleSince := now), now)
  {
  }

  /** Neither receiving nor acknowledging touches the pending list. */
  lemma ValidSame(w: Window, w': Window, k: nat, clock: Time, now: Time)
    requires Valid(w, k, clock) && clock <= now
    requires w'.ackNoSend == w.ackNoSend && w'.seqNoSend == w.seqNoSend && w'.pending == w.pending
    ensures Valid(w', k, now)
  {
  }

  // ---- one event ----

  lemma OfferAgrees(cfg: Config, v: View, st: CliState, asdu: Bytes, clock: Time, now: Time)
    requires cfg.InRange() && Agrees(cfg, v, st, clock) && clock <= now
    ensures CliMaySend(cfg, st) <==> v.active && |v.sent| < v.confirmed + cfg.k
    ensures CliMaySend(cfg, st)
            ==> Agrees(cfg, See(Controlling, v, Took(asdu, now)), CliSend(st, asdu, now).st, now)
  {
    CountsDistance(cfg.k, cfg.w, v, st.win);
    if CliMaySend(cfg, st) {
      CountsTook(cfg.k, cfg.w, v, st.win, now);
      PushedValid(st.win, cfg.k, clock, now);
    }
  }

  lemma OverdueIs(cfg: Config, v: View, st: CliState, clock: Time, now: Time)
    requires cfg.InRange() && Agrees(cfg, v, st, clock)
    ensures CliOverdue(cfg, st, now) <==> !Srv.InTime(cfg, v, now)
  {
    hide Counts, Valid;
    Srv.OldestDecides(cfg, v, st.win, clock, now);
  }

  lemma AckDueIs(cfg: Config, v: View, st: CliState, clock: Time, now: Time)
    requires cfg.InRange() && Agrees(cfg, v, st, clock)
    ensures CliAckDue(cfg, st, now) <==> Srv.AckWanted(cfg, v, now)
  {
    hide Counts, Valid, Wrap;
    CountsDistance(cfg.k, cfg.w, v, st.win);
  }

  lemma TickAgrees(cfg: Config, v: View, st: CliState, clock: Time, now: Time)
    requires cfg.InRange() && Agrees(cfg, v, st, clock) && clock <= now
    ensures
      var x := CliTick(cfg, st, now);
      && (x.alive <==> Srv.InTime(cfg, v, now)) && x.rcv == []
      && (x.alive ==> x.out == Srv.TickFrames(cfg, v, now) && Agrees(cfg, SaidAll(v, x.out, now), x.st, now))
  {
    hide Counts, Valid, SaidAll, Wrap, Unacked, CliOverdue, CliAckDue, Srv.InTime, Srv.AckWanted;
    OverdueIs(cfg, v, st, clock, now);
    AckDueIs(cfg, v, st, clock, now);
    CountsAnnounced(cfg.k, cfg.w, v, st.win);
    CountsNumbers(cfg.k, cfg.w, v, st.win);
    CountsAside(cfg.k, cfg.w, v, v.(test := Since(now), idle := now), st.win);
    CountsAside(cfg.k, cfg.w, v.(unannounced := []), v.(unannounced := [], test := Since(now), idle := now),
                Acknowledged(st.win));
    Srv.TickSays(cfg, v, now);
    ValidSame(st.win, st.win, cfg.k, clock, now);
    ValidSame(st.win, Acknowledged(st.win), cfg.k, clock, now);
  }

  lemma AskAgrees(cfg: Config, v: View, st: CliState, clock: Time, now: Time)
    requires Agrees(cfg, v, st, clock) && clock <= now
    ensures Agrees(cfg, SaidAll(v, [UFrame(StartDtActive)], now), CliStartDt(st, now).st, now)
    ensures Agrees(cfg, SaidAll(v, [UFrame(StopDtActive)], now), CliStopDt(st, now).st, now)
  {
    SaidTwo(v, [UFrame(StartDtActive)], now);
    SaidTwo(v, [UFrame(StopDtActive)], now);
  }

  /** What a received frame must be for the session to go on. */
  ghost predicate Goes(v: View, f: Frame) {
    match f
    case SFrame(r) => Allowed(v, r)
    case IFrame(n, r, _) => v.active ==> n == Wrap(v.accepted) && Allowed(v, r)
    case UFrame(_) => true
  }

  function Replies(cfg: Config, v: View, f: Frame): seq<Frame> {
    match f
    case SFrame(_) => []
    case IFrame(_, _, _) =>
      if v.active && |v.unannounced| + 1 >= cfg.w then [SFrame(Wrap(v.accepted + 1))] else []
    case UFrame(u) => if u == TestFrActive then [UFrame(TestFrConfirm)] else []
  }

  /** The effect of a frame is the one its place in the past calls for. */
  ghost predicate Answers(cfg: Config, v: View, f: Frame, x: Effect<CliState>, now: Time) {
    && (x.alive <==> Goes(v, f))
    && (x.alive ==>
          && x.out == Replies(cfg, v, f) && x.rcv == Srv.Hands(v, f)
          && Agrees(cfg, SaidAll(Heard(Controlling, v, f, now), x.out, now), x.st, now))
  }

  lemma SFrameAnswers(cfg: Config, v: View, st: CliState, r: SeqNum, now: Time)
    requires cfg.InRange() && Agrees(cfg, v, st, now) && st.idleSince == now
    ensures Answers(cfg, v, SFrame(r), CliOnFrame(cfg, st, SFrame(r), now), now)
  {
    CountsConfirmed(cfg.k, cfg.w, v, st.win, now, r);
    AckExact(st.win, cfg.k, now, r);
    assert st.(idleSince := now) == st;
  }

  lemma Accepts(cfg: Config, v: View, win: Window, now: Time)
    requires cfg.InRange() && Valid(win, cfg.k, now) && Counts(cfg.k, cfg.w, v, win)
    ensures
      var (win', out) := AfterReceive(win, cfg.w);
      var u := v.(accepted := v.accepted + 1, unannounced := v.unannounced + [now]);
      && out == (if |v.unannounced| + 1 >= cfg.w then [SFrame(Wrap(v.accepted + 1))] else [])
      && SaidAll(u, out, now) == (if out == [] then u else u.(unannounced := []))
      && Counts(cfg.k, cfg.w, SaidAll(u, out, now), win') && Valid(win', cfg.k, now)
  {
    CountsTaken(cfg.k, cfg.w, v, win, now);
    ValidSame(win, AfterReceive(win, cfg.w).0, cfg.k, now, now);
    SaidTwo(v.(accepted := v.accepted + 1, unannounced := v.unannounced + [now]), AfterReceive(win, cfg.w).1, now);
  }

  lemma IFrameTaken(cfg: Config, v: View, st: CliState, n: SeqNum, r: SeqNum, asdu: Bytes, now: Time)
    requires cfg.InRange() && Agrees(cfg, v, st, now) && v.active
    ensures Answers(cfg, v, IFrame(n, r, asdu), CliOnI(cfg, st, n, r, asdu, now), now)
  {
    hide Valid, Counts, SaidAll, UpdateAckNoOut, AfterReceive, Reached, InWindow;
    var u, win := Confirmed(v, r), UpdateAckNoOut(st.win, r).0;
    CountsConfirmed(cfg.k, cfg.w, v, st.win, now, r);
    AckExact(st.win, cfg.k, now, r);
    CountsDistance(cfg.k, cfg.w, u, win);
    assert win.seqNoRcv == Wrap(u.accepted) by { CountsNumbers(cfg.k, cfg.w, u, win); }
    Accepts(cfg, u, win, now);
  }

  lemma IFrameAnswers(cfg: Config, v: View, st: CliState, n: SeqNum, r: SeqNum, asdu: Bytes, now: Time)
    requires cfg.InRange() && Agrees(cfg, v, st, now)
    ensures Answers(cfg, v, IFrame(n, r, asdu), CliOnI(cfg, st, n, r, asdu, now), now)
  {
    if v.active {
      IFrameTaken(cfg, v, st, n, r, asdu, now);
    }
  }

  lemma UFrameAnswers(cfg: Config, v: View, st: CliState, f: UFunction, now: Time)
    requires cfg.InRange() && Agrees(cfg, v, st, now)
    ensures Answers(cfg, v, UFrame(f), CliOnU(st, f), now)
  {
    hide Valid;
    SaidTwo(Heard(Controlling, v, UFrame(f), now), CliOnU(st, f).out, now);
  }

  lemma FrameAnswers(cfg: Config, v: View, st: CliState, f: Frame, clock: Time, now: Time)
    requires cfg.InRange() && Agrees(cfg, v, st, clock) && clock <= now
    ensures Answers(cfg, v.(idle := now), f, CliOnFrame(cfg, st, f, now), now)
  {
    var u, s := v.(idle := now), st.(idleSince := now);
    Later(cfg, v, st, clock, now);
    match f
    case SFrame(r) => SFrameAnswers(cfg, u, s, r, now);
    case IFrame(n, r, asdu) => IFrameAnswers(cfg, u, s, n, r, asdu, now);
    case UFrame(g) => UFrameAnswers(cfg, u, s, g, now);
  }

  // ---- whole runs ----

  /** The state after an event agrees with the view after it. */
  ghost predicate AgreesAfter(cfg: Config, v: View, e: Event, took: bool, x: Effect<CliState>, now: Time) {
    x.alive ==> Agrees(cfg, After(v, e, took, x, now), x.st, now)
  }

  /** What a run's past amounts to after an effect agrees with the state. */
  ghost predicate SeenAfter(cfg: Config, begin: Time, past: seq<Stamp>, x: Effect<CliState>, now: Time) {
    x.alive ==> Agrees(cfg, ViewOf(Controlling, begin, past), x.st, now)
  }

  lemma SeenFromAgrees(cfg: Config, begin: Time, past: seq<Stamp>, v: View, e: Event, took: bool,
                       x: Effect<CliState>, now: Time, past': seq<Stamp>)
    requires v == ViewOf(Controlling, begin, past) && past' == past + Stamps(e, took, x, now)
    requires AgreesAfter(cfg, v, e, took, x, now)
    ensures SeenAfter(cfg, begin, past', x, now)
  {
    StampsSeen(begin, past, e, took, x, now);
  }

  lemma OfferAfter(cfg: Config, v: View, r: Run, e: Event)
    requires cfg.InRange() && Agrees(cfg, v, r.st, r.clock) && e.Offer?
    ensures AgreesAfter(cfg, v, e, CliMaySend(cfg, r.st), EffectOf(cfg, r, e), r.clock + e.dt)
  {
    hide CliSend, CliMaySend, Agrees, See;
    OfferAgrees(cfg, v, r.st, e.asdu, r.clock, r.clock + e.dt);
    Later(cfg, v, r.st, r.clock, r.clock + e.dt);
  }

  lemma TickAfter(cfg: Config, v: View, r: Run, e: Event)
    requires cfg.InRange() && Agrees(cfg, v, r.st, r.clock) && e.Tick?
    ensures AgreesAfter(cfg, v, e, CliMaySend(cfg, r.st), EffectOf(cfg, r, e), r.clock + e.dt)
  {
    hide CliTick, Counts, SaidAll;
    TickAgrees(cfg, v, r.st, r.clock, r.clock + e.dt);
  }

  lemma FromAnswers(cfg: Config, v: View, e: Event, took: bool, x: Effect<CliState>, now: Time)
    requires e.Receive? && Answers(cfg, v.(idle := now), e.frame, x, now)
    ensures AgreesAfter(cfg, v, e, took, x, now)
  {
  }

  lemma ReceiveAfter(cfg: Config, v: View, r: Run, e: Event)
    requires cfg.InRange() && Agrees(cfg, v, r.st, r.clock) && e.Receive?
    ensures AgreesAfter(cfg, v, e, CliMaySend(cfg, r.st), EffectOf(cfg, r, e), r.clock + e.dt)
  {
    var now := r.clock + e.dt;
    hide CliOnFrame, AgreesAfter, Answers, Agrees;
    FrameAnswers(cfg, v, r.st, e.frame, r.clock, now);
    FromAnswers(cfg, v, e, CliMaySend(cfg, r.st), EffectOf(cfg, r, e), now);
  }

  lemma AskAfter(cfg: Config, v: View, r: Run, e: Event)
    requires Agrees(cfg, v, r.st, r.clock) && (e.Start? || e.Stop?)
    ensures AgreesAfter(cfg, v, e, CliMaySend(cfg, r.st), EffectOf(cfg, r, e), r.clock + e.dt)
  {
    hide Counts, SaidAll, Valid;
    AskAgrees(cfg, v, r.st, r.clock, r.clock + e.dt);
  }

  lemma EventAgrees(cfg: Config, v: View, r: Run, e: Event)
    requires cfg.InRange() && Agrees(cfg, v, r.st, r.clock)
    ensures AgreesAfter(cfg, v, e, CliMaySend(cfg, r.st), EffectOf(cfg, r, e), r.clock + e.dt)
  {
    if e.Offer? {
      OfferAfter(cfg, v, r, e);
    } else if e.Tick? {
      TickAfter(cfg, v, r, e);
    } else if e.Receive? {
      ReceiveAfter(cfg, v, r, e);
    } else {
      AskAfter(cfg, v, r, e);
    }
  }

  /** One event, from a state that agrees with the past. */
  lemma EventSeen(cfg: Config, begin: Time, past: seq<Stamp>, r: Run, e: Event, v: View)
    requires v == ViewOf(Controlling, begin, past) && cfg.InRange() && Agrees(cfg, v, r.st, r.clock)
    ensures
      var x, now := EffectOf(cfg, r, e), r.clock + e.dt;
      SeenAfter(cfg, begin, past + Stamps(e, CliMaySend(cfg, r.st), x, now), x, now)
  {
    hide EffectOf, Agrees, AgreesAfter, After, Stamps, ViewOf;
    var x, now, took := EffectOf(cfg, r, e), r.clock + e.dt, CliMaySend(cfg, r.st);
    EventAgrees(cfg, v, r, e);
    SeenFromAgrees(cfg, begin, past, v, e, took, x, now, past + Stamps(e, took, x, now));
  }

  lemma StartAgrees(cfg: Config, begin: Time)
    requires cfg.InRange()
    ensures Agrees(cfg, ViewOf(Controlling, begin, []), CliInit(begin), begin)
  {
  }

  /** In every live session the state is what its past makes it. */
  lemma {:induction false} RunAgrees(cfg: Config, begin: Time, es: seq<Event>)
    requires cfg.InRange() && Play(cfg, Begin(begin), es).alive
    ensures Agrees(cfg, Seen(cfg, begin, es), Play(cfg, Begin(begin), es).st, Play(cfg, Begin(begin), es).clock)
  {
    hide EffectOf, Stamps, ViewOf, Agrees;
    if es == [] {
      StartAgrees(cfg, begin);
    } else {
      var front, e := es[..|es| - 1], es[|es| - 1];
      RunAgrees(cfg, begin, front);
      var r := Play(cfg, Begin(begin), front);
      EventSeen(cfg, begin, Past(cfg, begin, front), r, e, Seen(cfg, begin, front));
    }
  }

  /** What a tick does, given what the past amounts to. */
  ghost predicate TickDue(cfg: Config, v: View, now: Time, x: Effect<CliState>) {
    && (x.alive <==> Srv.InTime(cfg, v, now))
    && (x.alive ==> x.out == Srv.TickFrames(cfg, v, now) && x.rcv == [])
  }

  lemma TickDueAt(cfg: Config, v: View, r: Run, dt: nat)
    requires cfg.InRange() && Agrees(cfg, v, r.st, r.clock)
    ensures TickDue(cfg, v, r.clock + dt, EffectOf(cfg, r, Tick(dt)))
  {
    TickAgrees(cfg, v, r.st, r.clock, r.clock + dt);
  }

  /**
   * A tick ends a client's session exactly when an ASDU it took has waited t1 for its acknowledgement, or the last
   * STARTDT, STOPDT or TESTFR act t1 for its con; otherwise it sends exactly what is due.
   */
  lemma TickExact(cfg: Config, begin: Time, es: seq<Event>, dt: nat)
    requires cfg.InRange() && Play(cfg, Begin(begin), es).alive
    ensures
      var r := Play(cfg, Begin(begin), es);
      TickDue(cfg, Seen(cfg, begin, es), r.clock + dt, EffectOf(cfg, r, Tick(dt)))
  {
    RunAgrees(cfg, begin, es);
    TickDueAt(cfg, Seen(cfg, begin, es), Play(cfg, Begin(begin), es), dt);
  }

  ghost predicate ReceiveDue(cfg: Config, v: View, f: Frame, x: Effect<CliState>) {
    (x.alive <==> Goes(v, f)) && (x.alive ==> x.out == Replies(cfg, v, f) && x.rcv == Srv.Hands(v, f))
  }

  lemma ReceiveDueAt(cfg: Config, v: View, r: Run, f: Frame, dt: nat)
    requires cfg.InRange() && Agrees(cfg, v, r.st, r.clock)
    ensures ReceiveDue(cfg, v, f, EffectOf(cfg, r, Receive(f, dt)))
  {
    hide CliOnFrame, Agrees;
    FrameAnswers(cfg, v, r.st, f, r.clock, r.clock + dt);
  }

  /** Whether a received frame ends the session, what is answered and what is handed over. */
  lemma ReceiveExact(cfg: Config, begin: Time, es: seq<Event>, f: Frame, dt: nat)
    requires cfg.InRange() && Play(cfg, Begin(begin), es).alive
    ensures
      var r := Play(cfg, Begin(begin), es);
      ReceiveDue(cfg, Seen(cfg, begin, es), f, EffectOf(cfg, r, Receive(f, dt)))
  {
    RunAgrees(cfg, begin, es);
    ReceiveDueAt(cfg, Seen(cfg, begin, es), Play(cfg, Begin(begin), es), f, dt);
  }

  /** What an offered ASDU does: taken exactly while transfer is on and fewer than k wait for their acknowledgement. */
  ghost predicate OfferDue(cfg: Config, v: View, st: CliState, asdu: Bytes, x: Effect<CliState>) {
    && x.alive && x.rcv == []
    && if v.active && |v.sent| < v.confirmed + cfg.k
       then x.out == (if |asdu| <= ASDU_SIZE_MAX then [IFrame(Wrap(|v.sent|), Wrap(v.accepted), asdu)] else [])
       else x.out == [] && x.st == st
  }

  lemma OfferDueAt(cfg: Config, v: View, r: Run, asdu: Bytes, dt: nat)
    requires cfg.InRange() && Agrees(cfg, v, r.st, r.clock)
    ensures OfferDue(cfg, v, r.st, asdu, EffectOf(cfg, r, Offer(asdu, dt)))
  {
    OfferAgrees(cfg, v, r.st, asdu, r.clock, r.clock + dt);
  }

  lemma OfferExact(cfg: Config, begin: Time, es: seq<Event>, asdu: Bytes, dt: nat)
    requires cfg.InRange() && Play(cfg, Begin(begin), es).alive
    ensures
      var r := Play(cfg, Begin(begin), es);
      OfferDue(cfg, Seen(cfg, begin, es), r.st, asdu, EffectOf(cfg, r, Offer(asdu, dt)))
  {
    RunAgrees(cfg, begin, es);
    OfferDueAt(cfg, Seen(cfg, begin, es), Play(cfg, Begin(begin), es), asdu, dt);
  }
}
