/** A server session against an arbitrary peer does what its past calls for, event by event. */
module SrvHistory {
  import opened Octets
  import opened SeqNo
  import opened Apci
  import opened Window
  import opened Config104
  import opened Session104
  import opened SrvRuns
  import opened SessionHistory

  /** What an event leaves in the past, given its effect. */
  function Stamps(e: Event, took: bool, x: Effect<SrvState>, now: Time): seq<Stamp> {
    match e
    case Offer(asdu, _) => if took then [Took(asdu, now)] else []
    case Receive(f, _) => [In(f, now)] + Outs(x.out, now)
    case _ => Outs(x.out, now)
  }

  /** And what it makes of the view. */
  ghost function After(v: View, e: Event, took: bool, x: Effect<SrvState>, now: Time): View {
    match e
    case Offer(asdu, _) => if took then See(Controlled, v, Took(asdu, now)) else v
    case Receive(f, _) => SaidAll(Heard(Controlled, v.(idle := now), f, now), x.out, now)
    case _ => SaidAll(v, x.out, now)
  }

  lemma StampsSeen(begin: Time, past: seq<Stamp>, e: Event, took: bool, x: Effect<SrvState>, now: Time)
    ensures ViewOf(Controlled, begin, past + Stamps(e, took, x, now))
            == After(ViewOf(Controlled, begin, past), e, took, x, now)
  {
    match e
    case Offer(asdu, _) =>
      SeesOne(Controlled, begin, past, Took(asdu, now));
      assert past + [] == past;
    case Receive(f, _) =>
      Assoc(past, [In(f, now)], Outs(x.out, now));
      SeesOne(Controlled, begin, past, In(f, now));
      SeesOuts(Controlled, begin, past + [In(f, now)], x.out, now);
    case _ =>
      SeesOuts(Controlled, begin, past, x.out, now);
  }

  ghost function Past(cfg: Config, begin: Time, es: seq<Event>): seq<Stamp> {
    if es == [] then []
    else
      var r := Play(cfg, Begin(begin), es[..|es| - 1]);
      var e := es[|es| - 1];
      Past(cfg, begin, es[..|es| - 1])
      + if r.alive then Stamps(e, SrvMaySend(cfg, r.st), EffectOf(cfg, r, e), r.clock + e.dt) else []
  }

  ghost function Seen(cfg: Config, begin: Time, es: seq<Event>): View {
    ViewOf(Controlled, begin, Past(cfg, begin, es))
  }

  /** The state is what the past makes it. */
  ghost predicate Agrees(cfg: Config, v: View, st: SrvState) {
    && Counts(cfg.k, cfg.w, v, st.win)
    && st.isActive == v.active && st.pendingStopDt == v.stopping
    && (v.unannounced != [] ==> st.unAckRcvSince == Since(v.unannounced[0]))
    && st.idleSince == v.idle && st.testFrSince == v.test && v.start == Never && v.stop == Never
  }

  // ---- one event ----

  lemma OfferAgrees(cfg: Config, v: View, st: SrvState, asdu: Bytes, now: Time)
    requires cfg.InRange() && Agrees(cfg, v, st)
    ensures SrvMaySend(cfg, st) <==> v.active && |v.sent| < v.confirmed + cfg.k
    ensures SrvMaySend(cfg, st) ==> Agrees(cfg, See(Controlled, v, Took(asdu, now)), SrvSend(st, asdu, now).st)
  {
    CountsDistance(cfg.k, cfg.w, v, st.win);
    if SrvMaySend(cfg, st) {
      CountsTook(cfg.k, cfg.w, v, st.win, now);
    }
  }

  /** No I frame waits too long for its acknowledgement, and no request for its confirmation. */
  ghost predicate InTime(cfg: Config, v: View, now: Time) {
    && (forall i :: v.confirmed <= i < |v.sent| ==> now - v.sent[i] < cfg.t1)
    && (v.test.Since? ==> now - v.test.at < cfg.t1)
    && (v.start.Since? ==> now - v.start.at < cfg.t1)
    && (v.stop.Since? ==> now - v.stop.at < cfg.t1)
  }

  /** An accepted I frame has waited long enough, or nothing has happened for the resolution of the timers. */
  predicate AckWanted(cfg: Config, v: View, now: Time) {
    v.unannounced != [] && (now - v.unannounced[0] >= cfg.t2 || now - v.idle >= 100_000_000)
  }

  function TickFrames(cfg: Config, v: View, now: Time): seq<Frame> {
    (if AckWanted(cfg, v, now) then [SFrame(Wrap(v.accepted))] else [])
    + (if now - v.idle >= cfg.t3 then [UFrame(TestFrActive)] else [])
  }

  /** The oldest unacknowledged I frame decides for all of them. */
  lemma OldestDecides(cfg: Config, v: View, win: Window, clock: Time, now: Time)
    requires cfg.InRange() && Counts(cfg.k, cfg.w, v, win) && Valid(win, cfg.k, clock)
    ensures (win.ackNoSend != win.seqNoSend && win.pending != [] && now - win.pending[0].sendTime >= cfg.t1)
            <==> exists i :: v.confirmed <= i < |v.sent| && now - v.sent[i] >= cfg.t1
  {
    CountsDistance(cfg.k, cfg.w, v, win);
    if i :| v.confirmed <= i < |v.sent| && now - v.sent[i] >= cfg.t1 {
      assert win.pending[i - v.confirmed].sendTime == v.sent[i];
      assert win.pending[0].sendTime <= win.pending[i - v.confirmed].sendTime;
    }
    if win.pending != [] {
      assert win.pending[0].sendTime == v.sent[v.confirmed];
    }
  }

  lemma OverdueIs(cfg: Config, v: View, st: SrvState, clock: Time, now: Time)
    requires cfg.InRange() && Agrees(cfg, v, st) && Valid(st.win, cfg.k, clock)
    ensures SrvOverdue(cfg, st, now) <==> !InTime(cfg, v, now)
  {
    hide Counts, Valid;
    OldestDecides(cfg, v, st.win, clock, now);
  }

  lemma AckDueIs(cfg: Config, v: View, st: SrvState, clock: Time, now: Time)
    requires cfg.InRange() && Agrees(cfg, v, st) && Valid(st.win, cfg.k, clock)
    ensures SrvAckDue(cfg, st, now) <==> AckWanted(cfg, v, now)
  {
    hide Counts, Valid, Wrap;
    CountsDistance(cfg.k, cfg.w, v, st.win);
  }

  lemma TickAgrees(cfg: Config, v: View, st: SrvState, clock: Time, now: Time)
    requires cfg.InRange() && Agrees(cfg, v, st) && Valid(st.win, cfg.k, clock)
    ensures
      var x := SrvTick(cfg, st, now);
      && (x.alive <==> InTime(cfg, v, now)) && x.rcv == []
      && (x.alive ==> x.out == TickFrames(cfg, v, now) && Agrees(cfg, SaidAll(v, x.out, now), x.st))
  {
    hide Counts, Valid, SaidAll, Wrap, Unacked, SrvOverdue, SrvAckDue, InTime, AckWanted;
    OverdueIs(cfg, v, st, clock, now);
    AckDueIs(cfg, v, st, clock, now);
    CountsAnnounced(cfg.k, cfg.w, v, st.win);
    CountsNumbers(cfg.k, cfg.w, v, st.win);
    CountsAside(cfg.k, cfg.w, v, v.(test := Since(now), idle := now), st.win);
    CountsAside(cfg.k, cfg.w, v.(unannounced := []), v.(unannounced := [], test := Since(now), idle := now),
                Acknowledged(st.win));
    TickSays(cfg, v, now);
  }

  lemma TickSays(cfg: Config, v: View, now: Time)
    ensures
      var u := if AckWanted(cfg, v, now) then v.(unannounced := []) else v;
      SaidAll(v, TickFrames(cfg, v, now), now)
      == if now - v.idle >= cfg.t3 then u.(test := Since(now), idle := now) else u
  {
    var fs := TickFrames(cfg, v, now);
    if fs != [] {
      assert SaidAll(v, fs, now) == SaidAll(Said(v, fs[0], now), fs[1..], now);
    }
  }

  /** STOPDT is confirmed once everything sent is. */
  function StopFrames(v: View): seq<Frame> {
    if v.stopping && v.confirmed == |v.sent| then [UFrame(StopDtConfirm)] else []
  }

  lemma StopAgrees(cfg: Config, v: View, st: SrvState, now: Time)
    requires cfg.InRange() && Agrees(cfg, v, st)
    ensures
      var (s, out) := ConfirmStop(st);
      out == StopFrames(v) && Agrees(cfg, SaidAll(v, out, now), s)
  {
    CountsDistance(cfg.k, cfg.w, v, st.win);
    assert SaidAll(v.(stopping := false), [], now) == v.(stopping := false);
  }

  lemma SFrameAgrees(cfg: Config, v: View, st: SrvState, r: SeqNum, now: Time)
    requires cfg.InRange() && Agrees(cfg, v, st) && Valid(st.win, cfg.k, now)
    ensures
      var x := SrvOnS(st, r);
      && (x.alive <==> Allowed(v, r)) && x.rcv == []
      && (x.alive ==> x.out == StopFrames(Confirmed(v, r)) && Agrees(cfg, SaidAll(Confirmed(v, r), x.out, now), x.st))
  {
    CountsConfirmed(cfg.k, cfg.w, v, st.win, now, r);
    StopAgrees(cfg, Confirmed(v, r), st.(win := UpdateAckNoOut(st.win, r).0), now);
  }

  /** While transfer is off an I frame only acknowledges. */
  lemma IFrameOffAgrees(cfg: Config, v: View, st: SrvState, n: SeqNum, r: SeqNum, asdu: Bytes, now: Time)
    requires cfg.InRange() && Agrees(cfg, v, st) && Valid(st.win, cfg.k, now) && !v.active
    requires v.stopping ==> v.confirmed < |v.sent|
    ensures
      var x := SrvOnI(cfg, st, n, r, asdu, now);
      && x.alive && x.rcv == [] && x.out == StopFrames(Confirmed(v, r))
      && Agrees(cfg, SaidAll(Confirmed(v, r), x.out, now), x.st)
  {
    CountsConfirmed(cfg.k, cfg.w, v, st.win, now, r);
    CountsDistance(cfg.k, cfg.w, v, st.win);
    StopAgrees(cfg, Confirmed(v, r), st.(win := UpdateAckNoOut(st.win, r).0), now);
  }

  lemma IFrameAgrees(cfg: Config, v: View, st: SrvState, n: SeqNum, r: SeqNum, asdu: Bytes, now: Time)
    requires cfg.InRange() && Agrees(cfg, v, st) && Valid(st.win, cfg.k, now) && v.active
    ensures
      var x := SrvOnI(cfg, st, n, r, asdu, now);
      && (x.alive <==> n == Wrap(v.accepted) && Allowed(v, r))
      && (x.alive ==>
            && x.rcv == [asdu]
            && x.out == (if |v.unannounced| + 1 >= cfg.w then [SFrame(Wrap(v.accepted + 1))] else [])
            && Agrees(cfg, SaidAll(Heard(Controlled, v, IFrame(n, r, asdu), now), x.out, now), x.st))
  {
    hide SeqNoCount, Wrap, UpdateAckNoOut;
    var u, win := Confirmed(v, r), UpdateAckNoOut(st.win, r).0;
    CountsConfirmed(cfg.k, cfg.w, v, st.win, now, r);
    CountsDistance(cfg.k, cfg.w, u, win);
    CountsTaken(cfg.k, cfg.w, u, win, now);
    var a := u.(accepted := u.accepted + 1, unannounced := u.unannounced + [now]);
    assert SaidAll(a, [], now) == a;
    assert SaidAll(a, [SFrame(Wrap(v.accepted + 1))], now) == SaidAll(a.(unannounced := []), [], now);
  }

  function UReplies(v: View, f: UFunction): seq<Frame> {
    match f
    case StartDtActive => [UFrame(StartDtConfirm)]
    case StopDtActive =>
      (if v.unannounced != [] then [SFrame(Wrap(v.accepted))] else [])
      + (if v.confirmed == |v.sent| then [UFrame(StopDtConfirm)] else [])
    case TestFrActive => [UFrame(TestFrConfirm)]
    case TestFrConfirm | StartDtConfirm | StopDtConfirm => []
  }

  lemma StopAsked(cfg: Config, v: View, st: SrvState, now: Time)
    requires cfg.InRange() && Agrees(cfg, v, st)
    ensures
      var x := SrvOnU(st, StopDtActive);
      && x.alive && x.rcv == [] && x.out == UReplies(v, StopDtActive)
      && Agrees(cfg, SaidAll(v.(active := false, stopping := true), x.out, now), x.st)
  {
    CountsDistance(cfg.k, cfg.w, v, st.win);
    CountsAnnounced(cfg.k, cfg.w, v, st.win);
    SaidTwo(v.(active := false, stopping := true), UReplies(v, StopDtActive), now);
  }

  lemma UFrameAgrees(cfg: Config, v: View, st: SrvState, f: UFunction, now: Time)
    requires cfg.InRange() && Agrees(cfg, v, st)
    ensures
      var x := SrvOnU(st, f);
      && x.alive && x.rcv == [] && x.out == UReplies(v, f)
      && Agrees(cfg, SaidAll(Heard(Controlled, v, UFrame(f), now), x.out, now), x.st)
  {
    if f == StopDtActive {
      StopAsked(cfg, v, st, now);
    } else {
      SaidTwo(Heard(Controlled, v, UFrame(f), now), UReplies(v, f), now);
    }
  }

  // ---- whole runs ----

  /** What a received frame must be for the session to go on, what is answered and what is handed over. */
  ghost predicate Goes(cfg: Config, v: View, f: Frame) {
    match f
    case SFrame(r) => Allowed(v, r)
    case IFrame(n, r, _) => v.active ==> n == Wrap(v.accepted) && Allowed(v, r)
    case UFrame(_) => true
  }

  ghost function Replies(cfg: Config, v: View, f: Frame): seq<Frame> {
    match f
    case SFrame(r) => StopFrames(Confirmed(v, r))
    case IFrame(_, r, _) =>
      if !v.active then StopFrames(Confirmed(v, r))
      else if |v.unannounced| + 1 >= cfg.w then [SFrame(Wrap(v.accepted + 1))] else []
    case UFrame(u) => UReplies(v, u)
  }

  function Hands(v: View, f: Frame): seq<Bytes> {
    if f.IFrame? && v.active then [f.asdu] else []
  }

  /** The effect of a frame is the one its place in the past calls for. */
  ghost predicate Answers(cfg: Config, v: View, f: Frame, x: Effect<SrvState>, now: Time) {
    && (x.alive <==> Goes(cfg, v, f))
    && (x.alive ==>
          && x.out == Replies(cfg, v, f) && x.rcv == Hands(v, f)
          && Agrees(cfg, SaidAll(Heard(Controlled, v, f, now), x.out, now), x.st))
  }

  lemma IFrameAnswers(cfg: Config, v: View, st: SrvState, n: SeqNum, r: SeqNum, asdu: Bytes, now: Time)
    requires cfg.InRange() && Agrees(cfg, v, st) && Valid(st.win, cfg.k, now)
    requires v.stopping ==> !v.active && v.confirmed < |v.sent|
    ensures Answers(cfg, v, IFrame(n, r, asdu), SrvOnI(cfg, st, n, r, asdu, now), now)
  {
    if v.active {
      IFrameAgrees(cfg, v, st, n, r, asdu, now);
    } else {
      IFrameOffAgrees(cfg, v, st, n, r, asdu, now);
    }
  }

  lemma FrameAnswers(cfg: Config, v: View, st: SrvState, f: Frame, now: Time)
    requires cfg.InRange() && Agrees(cfg, v, st) && Valid(st.win, cfg.k, now) && v.idle == now
    requires v.stopping ==> !v.active && v.confirmed < |v.sent|
    ensures Answers(cfg, v, f, SrvOnFrame(cfg, st, f, now), now)
  {
    assert st.(idleSince := now) == st;
    match f
    case SFrame(r) => SFrameAgrees(cfg, v, st, r, now);
    case IFrame(n, r, asdu) => IFrameAnswers(cfg, v, st, n, r, asdu, now);
    case UFrame(g) => UFrameAgrees(cfg, v, st, g, now);
  }

  // ---- whole runs ----

  lemma HeardAgrees(cfg: Config, v: View, r: Run, f: Frame, now: Time)
    requires cfg.InRange() && Inv(cfg, r.st, r.clock) && r.clock <= now && Agrees(cfg, v, r.st)
    ensures Answers(cfg, v.(idle := now), f, SrvOnFrame(cfg, r.st, f, now), now)
  {
    var st := r.st.(idleSince := now);
    CountsDistance(cfg.k, cfg.w, v, r.st.win);
    WaitKeepsInv(cfg, r.st, r.clock, now);
    FrameAnswers(cfg, v.(idle := now), st, f, now);
    assert SrvOnFrame(cfg, st, f, now) == SrvOnFrame(cfg, r.st, f, now);
  }

  /** The state after an event agrees with the view after it. */
  ghost predicate AgreesAfter(cfg: Config, v: View, e: Event, took: bool, x: Effect<SrvState>, now: Time) {
    x.alive ==> Agrees(cfg, After(v, e, took, x, now), x.st)
  }

  /** What a run's past amounts to after an effect agrees with the state. */
  ghost predicate SeenAfter(cfg: Config, begin: Time, past: seq<Stamp>, x: Effect<SrvState>, now: Time) {
    x.alive ==> Agrees(cfg, ViewOf(Controlled, begin, past), x.st)
  }

  lemma SeenFromAgrees(cfg: Config, begin: Time, past: seq<Stamp>, v: View, e: Event, took: bool,
                       x: Effect<SrvState>, now: Time, past': seq<Stamp>)
    requires v == ViewOf(Controlled, begin, past) && past' == past + Stamps(e, took, x, now)
    requires AgreesAfter(cfg, v, e, took, x, now)
    ensures SeenAfter(cfg, begin, past', x, now)
  {
    StampsSeen(begin, past, e, took, x, now);
  }

  lemma OfferAfter(cfg: Config, v: View, r: Run, e: Event)
    requires cfg.InRange() && Inv(cfg, r.st, r.clock) && Agrees(cfg, v, r.st) && e.Offer?
    ensures AgreesAfter(cfg, v, e, SrvMaySend(cfg, r.st), EffectOf(cfg, r, e), r.clock + e.dt)
  {
    hide SrvSend, SrvMaySend, Agrees, See;
    OfferAgrees(cfg, v, r.st, e.asdu, r.clock + e.dt);
  }

  lemma TickAfter(cfg: Config, v: View, r: Run, e: Event)
    requires cfg.InRange() && Inv(cfg, r.st, r.clock) && Agrees(cfg, v, r.st) && e.Tick?
    ensures AgreesAfter(cfg, v, e, SrvMaySend(cfg, r.st), EffectOf(cfg, r, e), r.clock + e.dt)
  {
    hide SrvTick, Counts, SaidAll;
    TickAgrees(cfg, v, r.st, r.clock, r.clock + e.dt);
  }

  lemma FromAnswers(cfg: Config, v: View, e: Event, took: bool, x: Effect<SrvState>, now: Time)
    requires e.Receive? && Answers(cfg, v.(idle := now), e.frame, x, now)
    ensures AgreesAfter(cfg, v, e, took, x, now)
  {
  }

  lemma ReceiveAfter(cfg: Config, v: View, r: Run, e: Event)
    requires cfg.InRange() && Inv(cfg, r.st, r.clock) && Agrees(cfg, v, r.st) && e.Receive?
    ensures AgreesAfter(cfg, v, e, SrvMaySend(cfg, r.st), EffectOf(cfg, r, e), r.clock + e.dt)
  {
    var now := r.clock + e.dt;
    hide SrvOnFrame, AgreesAfter, Answers, Agrees;
    HeardAgrees(cfg, v, r, e.frame, now);
    FromAnswers(cfg, v, e, SrvMaySend(cfg, r.st), EffectOf(cfg, r, e), now);
  }

  lemma EventAgrees(cfg: Config, v: View, r: Run, e: Event)
    requires cfg.InRange() && Inv(cfg, r.st, r.clock) && Agrees(cfg, v, r.st)
    ensures AgreesAfter(cfg, v, e, SrvMaySend(cfg, r.st), EffectOf(cfg, r, e), r.clock + e.dt)
  {
    if e.Offer? {
      OfferAfter(cfg, v, r, e);
    } else if e.Tick? {
      TickAfter(cfg, v, r, e);
    } else {
      ReceiveAfter(cfg, v, r, e);
    }
  }

  /** One event, from a state that agrees with the past. */
  lemma EventSeen(cfg: Config, begin: Time, past: seq<Stamp>, r: Run, e: Event, v: View)
    requires v == ViewOf(Controlled, begin, past) && cfg.InRange() && Inv(cfg, r.st, r.clock) && Agrees(cfg, v, r.st)
    ensures
      var x, now := EffectOf(cfg, r, e), r.clock + e.dt;
      SeenAfter(cfg, begin, past + Stamps(e, SrvMaySend(cfg, r.st), x, now), x, now)
  {
    hide EffectOf, Agrees, AgreesAfter, After, Stamps, ViewOf;
    var x, now, took := EffectOf(cfg, r, e), r.clock + e.dt, SrvMaySend(cfg, r.st);
    EventAgrees(cfg, v, r, e);
    SeenFromAgrees(cfg, begin, past, v, e, took, x, now, past + Stamps(e, took, x, now));
  }

  lemma StartAgrees(cfg: Config, begin: Time)
    requires cfg.InRange()
    ensures Agrees(cfg, ViewOf(Controlled, begin, []), SrvStart(begin))
  {
  }

  /** In every live session the state is what its past makes it. */
  lemma {:induction false} RunAgrees(cfg: Config, begin: Time, es: seq<Event>)
    requires cfg.InRange() && Play(cfg, Begin(begin), es).alive
    ensures Agrees(cfg, Seen(cfg, begin, es), Play(cfg, Begin(begin), es).st)
  {
    hide EffectOf, Stamps, ViewOf, Agrees;
    if es == [] {
      StartAgrees(cfg, begin);
    } else {
      var front, e := es[..|es| - 1], es[|es| - 1];
      var r := Play(cfg, Begin(begin), front);
      RunAgrees(cfg, begin, front);
      LiveSessionInvariant(cfg, begin, front);
      EventSeen(cfg, begin, Past(cfg, begin, front), r, e, Seen(cfg, begin, front));
    }
  }

  /** What a tick does, given what the past amounts to. */
  ghost predicate TickDue(cfg: Config, v: View, now: Time, x: Effect<SrvState>) {
    && (x.alive <==> InTime(cfg, v, now))
    && (x.alive ==> x.out == TickFrames(cfg, v, now) && x.rcv == [])
  }

  lemma TickDueAt(cfg: Config, v: View, r: Run, dt: nat)
    requires cfg.InRange() && Inv(cfg, r.st, r.clock) && Agrees(cfg, v, r.st)
    ensures TickDue(cfg, v, r.clock + dt, EffectOf(cfg, r, Tick(dt)))
  {
    TickAgrees(cfg, v, r.st, r.clock, r.clock + dt);
  }

  /**
   * A tick ends a session exactly when an ASDU it took has waited t1 for its acknowledgement, or the last TESTFR act
   * t1 for its con; otherwise it sends exactly the acknowledgement and the TESTFR act that are due.
   */
  lemma TickExact(cfg: Config, begin: Time, es: seq<Event>, dt: nat)
    requires cfg.InRange() && Play(cfg, Begin(begin), es).alive
    ensures
      var r := Play(cfg, Begin(begin), es);
      TickDue(cfg, Seen(cfg, begin, es), r.clock + dt, EffectOf(cfg, r, Tick(dt)))
  {
    RunAgrees(cfg, begin, es);
    LiveSessionInvariant(cfg, begin, es);
    TickDueAt(cfg, Seen(cfg, begin, es), Play(cfg, Begin(begin), es), dt);
  }

  /** What an offered ASDU does: taken exactly while transfer is on and fewer than k wait for their acknowledgement. */
  ghost predicate OfferDue(cfg: Config, v: View, st: SrvState, asdu: Bytes, x: Effect<SrvState>) {
    && x.alive && x.rcv == []
    && if v.active && |v.sent| < v.confirmed + cfg.k
       then x.out == (if |asdu| <= ASDU_SIZE_MAX then [IFrame(Wrap(|v.sent|), Wrap(v.accepted), asdu)] else [])
       else x.out == [] && x.st == st
  }

  lemma OfferDueAt(cfg: Config, v: View, r: Run, asdu: Bytes, dt: nat)
    requires cfg.InRange() && Agrees(cfg, v, r.st)
    ensures OfferDue(cfg, v, r.st, asdu, EffectOf(cfg, r, Offer(asdu, dt)))
  {
    OfferAgrees(cfg, v, r.st, asdu, r.clock + dt);
  }

  /** An ASDU is taken exactly while transfer is on and fewer than k are unconfirmed; its frame carries both counts. */
  lemma OfferExact(cfg: Config, begin: Time, es: seq<Event>, asdu: Bytes, dt: nat)
    requires cfg.InRange() && Play(cfg, Begin(begin), es).alive
    ensures
      var r := Play(cfg, Begin(begin), es);
      OfferDue(cfg, Seen(cfg, begin, es), r.st, asdu, EffectOf(cfg, r, Offer(asdu, dt)))
  {
    RunAgrees(cfg, begin, es);
    OfferDueAt(cfg, Seen(cfg, begin, es), Play(cfg, Begin(begin), es), asdu, dt);
  }

  ghost predicate ReceiveDue(cfg: Config, v: View, f: Frame, x: Effect<SrvState>) {
    (x.alive <==> Goes(cfg, v, f)) && (x.alive ==> x.out == Replies(cfg, v, f) && x.rcv == Hands(v, f))
  }

  lemma ReceiveDueAt(cfg: Config, v: View, r: Run, f: Frame, dt: nat)
    requires cfg.InRange() && Inv(cfg, r.st, r.clock) && Agrees(cfg, v, r.st)
    ensures ReceiveDue(cfg, v, f, EffectOf(cfg, r, Receive(f, dt)))
  {
    hide SrvOnFrame, Agrees;
    HeardAgrees(cfg, v, r, f, r.clock + dt);
    IdleAside(cfg, v, f, r.clock + dt);
  }

  lemma IdleAside(cfg: Config, v: View, f: Frame, at: Time)
    ensures Goes(cfg, v.(idle := at), f) == Goes(cfg, v, f)
    ensures Replies(cfg, v.(idle := at), f) == Replies(cfg, v, f) && Hands(v.(idle := at), f) == Hands(v, f)
  {
  }

  /** Whether a received frame ends the session, what is answered and what is handed over. */
  lemma ReceiveExact(cfg: Config, begin: Time, es: seq<Event>, f: Frame, dt: nat)
    requires cfg.InRange() && Play(cfg, Begin(begin), es).alive
    ensures
      var r := Play(cfg, Begin(begin), es);
      ReceiveDue(cfg, Seen(cfg, begin, es), f, EffectOf(cfg, r, Receive(f, dt)))
  {
    RunAgrees(cfg, begin, es);
    LiveSessionInvariant(cfg, begin, es);
    ReceiveDueAt(cfg, Seen(cfg, begin, es), Play(cfg, Begin(begin), es), f, dt);
  }
}
