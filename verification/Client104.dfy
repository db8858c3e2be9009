/** The controlling station's session as the program runs it. */
module Clients104 {
  import opened Octets
  import opened SeqNo
  import opened Apci
  import W = Window
  import opened Config104
  import opened Session104

  class Client {
    const config: Config
    var seqNoSend: SeqNum
    var ackNoSend: SeqNum
    var seqNoRcv: SeqNum
    var ackNoRcv: SeqNum
    var pending: seq<W.SeqPending>
    var isActive: bool
    var unAckRcvSince: Timer
    var idleSince: W.Time
    var testFrSince: Timer
    var startDtSince: Timer
    var stopDtSince: Timer
    var sendASDU: seq<Bytes>
    var sendRaw: seq<Frame>
    var rcvASDU: seq<Bytes>

    ghost function Win(): W.Window
      reads this
    {
      W.Window(seqNoSend, ackNoSend, seqNoRcv, ackNoRcv, pending)
    }

    ghost function St(): CliState
      reads this
    {
      CliState(Win(), isActive, unAckRcvSince, idleSince, testFrSince, startDtSince, stopDtSince)
    }

    twostate predicate Did(e: Effect<CliState>, alive: bool)
      reads this
    {
      && alive == e.alive && St() == e.st
      && sendRaw == old(sendRaw) + e.out && rcvASDU == old(rcvASDU) + e.rcv
    }

    constructor (config: Config, now: W.Time)
      ensures this.config == config && St() == CliInit(now)
      ensures sendASDU == [] && sendRaw == [] && rcvASDU == []
    {
      this.config := config;
      seqNoSend, ackNoSend, seqNoRcv, ackNoRcv, pending := 0, 0, 0, 0, [];
      isActive := false;
      unAckRcvSince, idleSince, testFrSince := Never, now, Never;
      startDtSince, stopDtSince := Never, Never;
      sendASDU, sendRaw, rcvASDU := [], [], [];
    }

    method SendSFrame(rcvSN: SeqNum)
      modifies this`sendRaw
      ensures sendRaw == old(sendRaw) + [SFrame(rcvSN)]
    {
      sendRaw := sendRaw + [SFrame(rcvSN)];
    }

    method SendUFrame(which: UFunction)
      modifies this`sendRaw
      ensures sendRaw == old(sendRaw) + [UFrame(which)]
    {
      sendRaw := sendRaw + [UFrame(which)];
    }

    method SendIFrame(asdu: Bytes, now: W.Time)
      modifies this`ackNoRcv, this`seqNoSend, this`pending, this`sendRaw
      ensures Win() == W.Pushed(old(Win()), now)
      ensures sendRaw == old(sendRaw) + IFrameFor(old(Win()), asdu)
    {
      var seqNo := seqNoSend;
      var iframe := if |asdu| <= ASDU_SIZE_MAX then [IFrame(seqNo, seqNoRcv, asdu)] else [];
      ackNoRcv := seqNoRcv;
      seqNoSend := Next(seqNo);
      pending := pending + [W.SeqPending(seqNo, now)];
      sendRaw := sendRaw + iframe;
    }

    method TrySend(now: W.Time) returns (sent: bool)
      modifies this
      ensures sent == (old(CliMaySend(config, St())) && old(sendASDU) != [])
      ensures !sent ==> St() == old(St()) && sendASDU == old(sendASDU)
      ensures !sent ==> sendRaw == old(sendRaw) && rcvASDU == old(rcvASDU)
      ensures sent ==> sendASDU == old(sendASDU)[1..] && Did(CliSend(old(St()), old(sendASDU)[0], now), true)
    {
      sent := isActive && SeqNoCount(ackNoSend, seqNoSend) < config.k && sendASDU != [];
      if sent {
        var o := sendASDU[0];
        sendASDU := sendASDU[1..];
        SendIFrame(o, now);
        idleSince := now;
      }
    }

    method UpdateAckNoOut(ackNo: SeqNum) returns (ok: bool)
      modifies this`ackNoSend, this`pending
      ensures (Win(), ok) == W.UpdateAckNoOut(old(Win()), ackNo)
    {
      if ackNo == ackNoSend {
        return true;
      }
      if SeqNoCount(ackNoSend, seqNoSend) < SeqNoCount(ackNo, seqNoSend) {
        return false;
      }
      var i := 0;
      while i < |pending|
        invariant 0 <= i <= |pending|
        invariant pending == old(pending) && ackNoSend == old(ackNoSend)
        invariant forall j :: 0 <= j < i ==> pending[j].seqNo != Previous(ackNo)
      {
        if pending[i].seqNo == Previous(ackNo) {
          pending := pending[i + 1..];
          break;
        }
        i := i + 1;
      }
      ackNoSend := ackNo;
      return true;
    }

    method OnTick(now: W.Time) returns (alive: bool)
      requires |pending| == W.Unacked(Win())
      modifies this
      ensures Did(CliTick(config, old(St()), now), alive) && sendASDU == old(sendASDU)
    {
      if Expired(testFrSince, now, config.t1) || Expired(startDtSince, now, config.t1) ||
         Expired(stopDtSince, now, config.t1) {
        return false;
      }
      SeqNoCountIsDistance(ackNoSend, seqNoSend, 0);
      if ackNoSend != seqNoSend && now - pending[0].sendTime >= config.t1 {
        return false;
      }
      if ackNoRcv != seqNoRcv && (Expired(unAckRcvSince, now, config.t2) || now - idleSince >= TIMEOUT_RESOLUTION) {
        SendSFrame(seqNoRcv);
        ackNoRcv := seqNoRcv;
      }
      if now - idleSince >= config.t3 {
        SendUFrame(TestFrActive);
        testFrSince := Since(now);
        idleSince := now;
      }
      return true;
    }

    method OnIFrame(sendSN: SeqNum, rcvSN: SeqNum, asdu: Bytes, now: W.Time) returns (alive: bool)
      modifies this
      ensures Did(CliOnI(config, old(St()), sendSN, rcvSN, asdu, now), alive) && sendASDU == old(sendASDU)
    {
      if !isActive {
        return true;
      }
      var ok := UpdateAckNoOut(rcvSN);
      if !ok || sendSN != seqNoRcv {
        return false;
      }
      rcvASDU := rcvASDU + [asdu];
      if ackNoRcv == seqNoRcv {
        unAckRcvSince := Since(now);
      }
      seqNoRcv := Next(seqNoRcv);
      if SeqNoCount(ackNoRcv, seqNoRcv) >= config.w {
        SendSFrame(seqNoRcv);
        ackNoRcv := seqNoRcv;
      }
      return true;
    }

    method OnUFrame(f: UFunction)
      modifies this
      ensures Did(CliOnU(old(St()), f), true) && sendASDU == old(sendASDU)
    {
      match f {
        case StartDtConfirm =>
          isActive := true;
          startDtSince := Never;
        case StopDtConfirm =>
          isActive := false;
          stopDtSince := Never;
        case TestFrActive => SendUFrame(TestFrConfirm);
        case TestFrConfirm => testFrSince := Never;
        case StartDtActive | StopDtActive =>
      }
    }

    method OnApdu(apdu: Bytes, now: W.Time) returns (alive: bool)
      modifies this
      ensures sendASDU == old(sendASDU)
      ensures Parse(apdu).Ok? ==> Did(CliOnFrame(config, old(St()), Parse(apdu).value, now), alive)
      ensures Parse(apdu).Err? ==> Did(Effect(true, old(St()).(idleSince := now), [], []), alive)
    {
      idleSince := now;
      var parsed := Parse(apdu);
      if parsed.Err? {
        return true;
      }
      match parsed.value {
        case SFrame(rcvSN) =>
          alive := UpdateAckNoOut(rcvSN);
        case IFrame(sendSN, rcvSN, asdu) =>
          alive := OnIFrame(sendSN, rcvSN, asdu, now);
        case UFrame(f) =>
          OnUFrame(f);
          alive := true;
      }
    }

    method SendStartDt(now: W.Time)
      modifies this`startDtSince, this`sendRaw
      ensures Did(CliStartDt(old(St()), now), true)
    {
      startDtSince := Since(now);
      SendUFrame(StartDtActive);
    }

    method SendStopDt(now: W.Time)
      modifies this`stopDtSince, this`sendRaw
      ensures Did(CliStopDt(old(St()), now), true)
    {
      stopDtSince := Since(now);
      SendUFrame(StopDtActive);
    }
  }
}
