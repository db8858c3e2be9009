/** The server session as the program runs it: mutable counters, an in-place pending list, channels. */
module SrvSessions {
  import opened Octets
  import opened SeqNo
  import opened Apci
  import W = Window
  import opened Config104
  import opened Session104

  class SrvSession {
    const config: Config
    var seqNoSend: SeqNum
    var ackNoSend: SeqNum
    var seqNoRcv: SeqNum
    var ackNoRcv: SeqNum
    var pending: seq<W.SeqPending>
    var isActive: bool
    var pendingStopDt: bool
    var unAckRcvSince: Timer
    var idleSince: W.Time
    var testFrSince: Timer
    var sendASDU: seq<Bytes>
    var sendRaw: seq<Frame>
    var rcvASDU: seq<Bytes>

    ghost function Win(): W.Window
      reads this
    {
      W.Window(seqNoSend, ackNoSend, seqNoRcv, ackNoRcv, pending)
    }

    ghost function St(): SrvState
      reads this
    {
      SrvState(Win(), isActive, pendingStopDt, unAckRcvSince, idleSince, testFrSince)
    }

    /** The new state and everything written to the channels is what the event function says. */
    twostate predicate Did(e: Effect<SrvState>, alive: bool)
      reads this
    {
      && alive == e.alive && St() == e.st
      && sendRaw == old(sendRaw) + e.out && rcvASDU == old(rcvASDU) + e.rcv
    }

    constructor (config: Config, now: W.Time)
      ensures this.config == config && St() == SrvStart(now)
      ensures sendASDU == [] && sendRaw == [] && rcvASDU == []
    {
      this.config := config;
      seqNoSend, ackNoSend, seqNoRcv, ackNoRcv, pending := 0, 0, 0, 0, [];
      isActive, pendingStopDt := false, false;
      unAckRcvSince, idleSince, testFrSince := Never, now, Never;
      sendASDU, sendRaw, rcvASDU := [], [], [];
    }

    method SendSFrame(rcvSN: SeqNum)
      modifies this`sendRaw
      ensures sendRaw == old(sendRaw) + [SFrame(rcvSN)]
    {
      sendRaw := sendRaw + [SFrame(rcvSN)];
    }

    method SendUFrame(which: UFunction)
      modifies this`sendRaw
      ensures sendRaw == old(sendRaw) + [UFrame(which)]
    {
      sendRaw := sendRaw + [UFrame(which)];
    }

    method SendIFrame(asdu: Bytes, now: W.Time)
      modifies this`ackNoRcv, this`seqNoSend, this`pending, this`sendRaw
      ensures Win() == W.Pushed(old(Win()), now)
      ensures sendRaw == old(sendRaw) + IFrameFor(old(Win()), asdu)
    {
      var seqNo := seqNoSend;
      var iframe := if |asdu| <= ASDU_SIZE_MAX then [IFrame(seqNo, seqNoRcv, asdu)] else [];
      ackNoRcv := seqNoRcv;
      seqNoSend := Next(seqNo);
      pending := pending + [W.SeqPending(seqNo, now)];
      sendRaw := sendRaw + iframe;
    }

    /** The top of the run loop: one queued ASDU goes out when the session is active and the window open. */
    method TrySend(now: W.Time) returns (sent: bool)
      modifies this
      ensures sent == (old(SrvMaySend(config, St())) && old(sendASDU) != [])
      ensures !sent ==> St() == old(St()) && sendASDU == old(sendASDU)
      ensures !sent ==> sendRaw == old(sendRaw) && rcvASDU == old(rcvASDU)
      ensures sent ==> sendASDU == old(sendASDU)[1..] && Did(SrvSend(old(St()), old(sendASDU)[0], now), true)
    {
      sent := isActive && SeqNoCount(ackNoSend, seqNoSend) < config.k && sendASDU != [];
      if sent {
        var o := sendASDU[0];
        sendASDU := sendASDU[1..];
        SendIFrame(o, now);
        idleSince := now;
      }
    }

    /** updateAckNoOut: searches pending for the frame before ackNo and cuts the list behind it. */
    method UpdateAckNoOut(ackNo: SeqNum) returns (ok: bool)
      modifies this`ackNoSend, this`pending
      ensures (Win(), ok) == W.UpdateAckNoOut(old(Win()), ackNo)
    {
      if ackNo == ackNoSend {
        return true;
      }
      if SeqNoCount(ackNoSend, seqNoSend) < SeqNoCount(ackNo, seqNoSend) {
        return false;
      }
      var i := 0;
      while i < |pending|
        invariant 0 <= i <= |pending|
        invariant pending == old(pending) && ackNoSend == old(ackNoSend)
        invariant forall j :: 0 <= j < i ==> pending[j].seqNo != Previous(ackNo)
      {
        if pending[i].seqNo == Previous(ackNo) {
          pending := pending[i + 1..];
          break;
        }
        i := i + 1;
      }
      ackNoSend := ackNo;
      return true;
    }

    method ConfirmStopDtIfDone()
      modifies this`pendingStopDt, this`sendRaw
      ensures var (s, out) := ConfirmStop(old(St())); St() == s && sendRaw == old(sendRaw) + out
    {
      if pendingStopDt && ackNoSend == seqNoSend {
        SendUFrame(StopDtConfirm);
        pendingStopDt := false;
      }
    }

    /** checkTicker: pending[0] exists whenever something is unacknowledged. */
    method OnTick(now: W.Time) returns (alive: bool)
      requires |pending| == W.Unacked(Win())
      modifies this
      ensures Did(SrvTick(config, old(St()), now), alive) && sendASDU == old(sendASDU)
    {
      if Expired(testFrSince, now, config.t1) {
        return false;
      }
      SeqNoCountIsDistance(ackNoSend, seqNoSend, 0);
      if ackNoSend != seqNoSend && now - pending[0].sendTime >= config.t1 {
        return false;
      }
      if ackNoRcv != seqNoRcv && (Expired(unAckRcvSince, now, config.t2) || now - idleSince >= TIMEOUT_RESOLUTION) {
        SendSFrame(seqNoRcv);
        ackNoRcv := seqNoRcv;
      }
      if now - idleSince >= config.t3 {
        SendUFrame(TestFrActive);
        testFrSince := Since(now);
        idleSince := now;
      }
      return true;
    }

    method OnIFrame(sendSN: SeqNum, rcvSN: SeqNum, asdu: Bytes, now: W.Time) returns (alive: bool)
      modifies this
      ensures Did(SrvOnI(config, old(St()), sendSN, rcvSN, asdu, now), alive) && sendASDU == old(sendASDU)
    {
      if !isActive {
        var ok := UpdateAckNoOut(rcvSN);
        if ok {
          ConfirmStopDtIfDone();
        }
        return true;
      }
      var ok := UpdateAckNoOut(rcvSN);
      if !ok || sendSN != seqNoRcv {
        return false;
      }
      rcvASDU := rcvASDU + [asdu];
      if ackNoRcv == seqNoRcv {
        unAckRcvSince := Since(now);
      }
      seqNoRcv := Next(seqNoRcv);
      if SeqNoCount(ackNoRcv, seqNoRcv) >= config.w {
        SendSFrame(seqNoRcv);
        ackNoRcv := seqNoRcv;
      }
      return true;
    }

    method OnUFrame(f: UFunction)
      modifies this
      ensures Did(SrvOnU(old(St()), f), true) && sendASDU == old(sendASDU)
    {
      match f {
        case StartDtActive =>
          SendUFrame(StartDtConfirm);
          isActive := true;
          pendingStopDt := false;
        case StopDtActive =>
          isActive := false;
          if ackNoRcv != seqNoRcv {
            SendSFrame(seqNoRcv);
            ackNoRcv := seqNoRcv;
          }
          pendingStopDt := true;
          if ackNoSend == seqNoSend {
            SendUFrame(StopDtConfirm);
            pendingStopDt := false;
          }
        case TestFrActive => SendUFrame(TestFrConfirm);
        case TestFrConfirm => testFrSince := Never;
        case StartDtConfirm | StopDtConfirm =>
      }
    }

    /** One APDU from rcvRaw; a malformed one only resets the idle timer. */
    method OnApdu(apdu: Bytes, now: W.Time) returns (alive: bool)
      modifies this
      ensures sendASDU == old(sendASDU)
      ensures Parse(apdu).Ok? ==> Did(SrvOnFrame(config, old(St()), Parse(apdu).value, now), alive)
      ensures Parse(apdu).Err? ==> Did(Effect(true, old(St()).(idleSince := now), [], []), alive)
    {
      idleSince := now;
      var parsed := Parse(apdu);
      if parsed.Err? {
        return true;
      }
      match parsed.value {
        case SFrame(rcvSN) =>
          var ok := UpdateAckNoOut(rcvSN);
          if !ok {
            return false;
          }
          ConfirmStopDtIfDone();
          return true;
        case IFrame(sendSN, rcvSN, asdu) =>
          alive := OnIFrame(sendSN, rcvSN, asdu, now);
        case UFrame(f) =>
          OnUFrame(f);
          alive := true;
      }
    }
  }
}
