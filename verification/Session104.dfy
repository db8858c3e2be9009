/** The run loops of a server session and of a client, one event at a time, as functions of the state. */
module Session104 {
  import opened Octets
  import opened SeqNo
  import opened Apci
  import opened Window
  import opened Config104

  datatype Timer = Never | Since(at: Time)

  predicate Expired(t: Timer, now: Time, limit: nat) {
    t.Since? && now - t.at >= limit
  }

  /** What one event does: is the session still up, its new state, what goes to sendRaw and to rcvASDU. */
  datatype Effect<+S> = Effect(alive: bool, st: S, out: seq<Frame>, rcv: seq<Bytes>)

  /** The frame sendIFrame puts on the wire; an ASDU that does not fit leaves none. */
  function IFrameFor(w: Window, asdu: Bytes): seq<Frame> {
    if |asdu| > ASDU_SIZE_MAX then [] else [IFrame(w.seqNoSend, w.seqNoRcv, asdu)]
  }

  /** After one more I frame was accepted: an S frame once w of them are unacknowledged. */
  function AfterReceive(win: Window, w: nat): (Window, seq<Frame>) {
    var r := Received(win);
    if SeqNoCount(r.ackNoRcv, r.seqNoRcv) >= w then (Acknowledged(r), [SFrame(r.seqNoRcv)]) else (r, [])
  }

  function AckIf(due: bool, win: Window): (Window, seq<Frame>) {
    if due then (Acknowledged(win), [SFrame(win.seqNoRcv)]) else (win, [])
  }

  // ---- server session ----

  datatype SrvState = SrvState(
    win: Window,
    isActive: bool,
    pendingStopDt: bool,
    unAckRcvSince: Timer,
    idleSince: Time,
    testFrSince: Timer)

  function SrvStart(now: Time): SrvState {
    SrvState(FRESH, false, false, Never, now, Never)
  }

  predicate SrvMaySend(cfg: Config, st: SrvState) {
    st.isActive && Unacked(st.win) < cfg.k
  }

  function SrvSend(st: SrvState, asdu: Bytes, now: Time): Effect<SrvState> {
    Effect(true, st.(win := Pushed(st.win, now), idleSince := now), IFrameFor(st.win, asdu), [])
  }

  /** The oldest unacknowledged I frame, or the confirmation of a TESTFR, is overdue. */
  predicate SrvOverdue(cfg: Config, st: SrvState, now: Time) {
    || Expired(st.testFrSince, now, cfg.t1)
    || (st.win.ackNoSend != st.win.seqNoSend && st.win.pending != [] && now - st.win.pending[0].sendTime >= cfg.t1)
  }

  predicate SrvAckDue(cfg: Config, st: SrvState, now: Time) {
    && st.win.ackNoRcv != st.win.seqNoRcv
    && (Expired(st.unAckRcvSince, now, cfg.t2) || now - st.idleSince >= TIMEOUT_RESOLUTION)
  }

  function SrvTick(cfg: Config, st: SrvState, now: Time): Effect<SrvState> {
    if SrvOverdue(cfg, st, now) then Effect(false, st, [], [])
    else
      var (win, acks) := AckIf(SrvAckDue(cfg, st, now), st.win);
      var s := st.(win := win);
      if now - st.idleSince >= cfg.t3
      then Effect(true, s.(testFrSince := Since(now), idleSince := now), acks + [UFrame(TestFrActive)], [])
      else Effect(true, s, acks, [])
  }

  /** confirmStopDtIfDone */
  function ConfirmStop(st: SrvState): (SrvState, seq<Frame>) {
    if st.pendingStopDt && st.win.ackNoSend == st.win.seqNoSend
    then (st.(pendingStopDt := false), [UFrame(StopDtConfirm)])
    else (st, [])
  }

  function SrvOnS(st: SrvState, rcvSN: SeqNum): Effect<SrvState> {
    var (win, ok) := UpdateAckNoOut(st.win, rcvSN);
    var s := st.(win := win);
    if !ok then Effect(false, s, [], [])
    else var (s', out) := ConfirmStop(s); Effect(true, s', out, [])
  }

  function SrvOnI(cfg: Config, st: SrvState, sendSN: SeqNum, rcvSN: SeqNum, asdu: Bytes, now: Time): Effect<SrvState> {
    var (win, ok) := UpdateAckNoOut(st.win, rcvSN);
    var s := st.(win := win);
    if !st.isActive then
      // not active: the ASDU is discarded, its acknowledgement still counts
      if ok then var (s', out) := ConfirmStop(s); Effect(true, s', out, []) else Effect(true, s, [], [])
    else if !ok || sendSN != win.seqNoRcv then Effect(false, s, [], [])
    else
      var since := if win.ackNoRcv == win.seqNoRcv then Since(now) else st.unAckRcvSince;
      var (win', out) := AfterReceive(win, cfg.w);
      Effect(true, s.(win := win', unAckRcvSince := since), out, [asdu])
  }

  function SrvOnU(st: SrvState, f: UFunction): Effect<SrvState> {
    match f
    case StartDtActive =>
      Effect(true, st.(isActive := true, pendingStopDt := false), [UFrame(StartDtConfirm)], [])
    case StopDtActive =>
      var (win, acks) := AckIf(st.win.ackNoRcv != st.win.seqNoRcv, st.win);
      var s := st.(win := win, isActive := false, pendingStopDt := true);
      if win.ackNoSend == win.seqNoSend
      then Effect(true, s.(pendingStopDt := false), acks + [UFrame(StopDtConfirm)], [])
      else Effect(true, s, acks, [])
    case TestFrActive => Effect(true, st, [UFrame(TestFrConfirm)], [])
    case TestFrConfirm => Effect(true, st.(testFrSince := Never), [], [])
    case StartDtConfirm | StopDtConfirm => Effect(true, st, [], [])
  }

  function SrvOnFrame(cfg: Config, st: SrvState, f: Frame, now: Time): Effect<SrvState> {
    var s := st.(idleSince := now);
    match f
    case SFrame(r) => SrvOnS(s, r)
    case IFrame(n, r, asdu) => SrvOnI(cfg, s, n, r, asdu, now)
    case UFrame(u) => SrvOnU(s, u)
  }

  // ---- client ----

  datatype CliState = CliState(
    win: Window,
    isActive: bool,
    unAckRcvSince: Timer,
    idleSince: Time,
    testFrSince: Timer,
    startDtSince: Timer,
    stopDtSince: Timer)

  function CliInit(now: Time): CliState {
    CliState(FRESH, false, Never, now, Never, Never, Never)
  }

  predicate CliMaySend(cfg: Config, st: CliState) {
    st.isActive && Unacked(st.win) < cfg.k
  }

  function CliSend(st: CliState, asdu: Bytes, now: Time): Effect<CliState> {
    Effect(true, st.(win := Pushed(st.win, now), idleSince := now), IFrameFor(st.win, asdu), [])
  }

  predicate CliOverdue(cfg: Config, st: CliState, now: Time) {
    || Expired(st.testFrSince, now, cfg.t1)
    || Expired(st.startDtSince, now, cfg.t1)
    || Expired(st.stopDtSince, now, cfg.t1)
    || (st.win.ackNoSend != st.win.seqNoSend && st.win.pending != [] && now - st.win.pending[0].sendTime >= cfg.t1)
  }

  predicate CliAckDue(cfg: Config, st: CliState, now: Time) {
    && st.win.ackNoRcv != st.win.seqNoRcv
    && (Expired(st.unAckRcvSince, now, cfg.t2) || now - st.idleSince >= TIMEOUT_RESOLUTION)
  }

  function CliTick(cfg: Config, st: CliState, now: Time): Effect<CliState> {
    if CliOverdue(cfg, st, now) then Effect(false, st, [], [])
    else
      var (win, acks) := AckIf(CliAckDue(cfg, st, now), st.win);
      var s := st.(win := win);
      if now - st.idleSince >= cfg.t3
      then Effect(true, s.(testFrSince := Since(now), idleSince := now), acks + [UFrame(TestFrActive)], [])
      else Effect(true, s, acks, [])
  }

  function CliOnI(cfg: Config, st: CliState, sendSN: SeqNum, rcvSN: SeqNum, asdu: Bytes, now: Time): Effect<CliState> {
    if !st.isActive then Effect(true, st, [], [])
    else
      var (win, ok) := UpdateAckNoOut(st.win, rcvSN);
      var s := st.(win := win);
      if !ok || sendSN != win.seqNoRcv then Effect(false, s, [], [])
      else
        var since := if win.ackNoRcv == win.seqNoRcv then Since(now) else st.unAckRcvSince;
        var (win', out) := AfterReceive(win, cfg.w);
        Effect(true, s.(win := win', unAckRcvSince := since), out, [asdu])
  }

  function CliOnU(st: CliState, f: UFunction): Effect<CliState> {
    match f
    case StartDtConfirm => Effect(true, st.(isActive := true, startDtSince := Never), [], [])
    case StopDtConfirm => Effect(true, st.(isActive := false, stopDtSince := Never), [], [])
    case TestFrActive => Effect(true, st, [UFrame(TestFrConfirm)], [])
    case TestFrConfirm => Effect(true, st.(testFrSince := Never), [], [])
    case StartDtActive | StopDtActive => Effect(true, st, [], [])
  }

  function CliOnFrame(cfg: Config, st: CliState, f: Frame, now: Time): Effect<CliState> {
    var s := st.(idleSince := now);
    match f
    case SFrame(r) =>
      var (win, ok) := UpdateAckNoOut(s.win, r);
      Effect(ok, s.(win := win), [], [])
    case IFrame(n, r, asdu) => CliOnI(cfg, s, n, r, asdu, now)
    case UFrame(u) => CliOnU(s, u)
  }

  /** SendStartDt and SendStopDt */
  function CliStartDt(st: CliState, now: Time): Effect<CliState> {
    Effect(true, st.(startDtSince := Since(now)), [UFrame(StartDtActive)], [])
  }

  function CliStopDt(st: CliState, now: Time): Effect<CliState> {
    Effect(true, st.(stopDtSince := Since(now)), [UFrame(StopDtActive)], [])
  }
}
