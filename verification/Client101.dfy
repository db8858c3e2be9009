/** The primary station as the program runs it: station table, outstanding frame and send queue updated in place. */
module Clients101 {
  import opened Octets
  import opened Link101

  /** Wherever an address stands in the list, those before it in the table stand further ahead. */
  ghost predicate InOrder(table: seq<Addr>, addrs: seq<Addr>) {
    forall i, j, k :: 0 <= i < j < |table| && 0 <= k < |addrs| && addrs[k] == table[j] ==> table[i] in addrs[..k]
  }

  /** The table holds every address of the list once, in order, the broadcast address left out. */
  ghost predicate Lists(table: seq<Addr>, size: nat, addrs: seq<Addr>) {
    && (forall a :: a in table <==> a in addrs && !Broadcast(a, size))
    && (forall i, j :: 0 <= i < j < |table| ==> table[i] != table[j])
    && InOrder(table, addrs)
  }

  lemma OrderGrows(table: seq<Addr>, addrs: seq<Addr>, a: Addr)
    requires InOrder(table, addrs) && (a in table ==> a in addrs)
    ensures InOrder(table, addrs + [a])
  {
    forall i, j, k | 0 <= i < j < |table| && 0 <= k <= |addrs| && (addrs + [a])[k] == table[j]
      ensures table[i] in (addrs + [a])[..k]
    {
      if k < |addrs| {
        assert (addrs + [a])[..k] == addrs[..k];
      } else {
        var m :| 0 <= m < |addrs| && addrs[m] == table[j];
        assert table[i] in addrs[..m];
        assert (addrs + [a])[..k] == addrs;
      }
    }
  }

  lemma OrderAppends(table: seq<Addr>, addrs: seq<Addr>, a: Addr)
    requires InOrder(table, addrs + [a]) && a !in addrs && forall x :: x in table ==> x in addrs
    ensures InOrder(table + [a], addrs + [a])
  {
    forall i, j, k | 0 <= i < j < |table + [a]| && 0 <= k <= |addrs| && (addrs + [a])[k] == (table + [a])[j]
      ensures (table + [a])[i] in (addrs + [a])[..k]
    {
      if j == |table| {
        assert (addrs + [a])[..k] == addrs && table[i] in addrs;
      }
    }
  }

  lemma ListsSkip(table: seq<Addr>, size: nat, addrs: seq<Addr>, a: Addr)
    requires Lists(table, size, addrs) && (a in table || Broadcast(a, size))
    ensures Lists(table, size, addrs + [a])
  {
    OrderGrows(table, addrs, a);
  }

  lemma ListsAdd(table: seq<Addr>, size: nat, addrs: seq<Addr>, a: Addr)
    requires Lists(table, size, addrs) && a !in table && !Broadcast(a, size)
    ensures Lists(table + [a], size, addrs + [a])
  {
    OrderGrows(table, addrs, a);
    OrderAppends(table, addrs, a);
  }

  /**
   * A frame the receive loop hands over. A frame of a station is fixed or variable; its function code may be one
   * the program does not know, and the ASDU of a variable one may not decode.
   */
  datatype Received =
    | SingleChar
    | FromPrimary
    | FromStation(variable: bool, fun: Option<SecFc>, addr: Addr, acd: bool, dfc: bool, asdu: Option<Bytes>)

  /** The response a frame of a station counts as: what fits neither kind of frame completes nothing. */
  function CountsAs(f: Received): Response
    requires f.FromStation?
  {
    var fun :=
      if f.fun == None then ConfNack
      else if f.variable then
        match f.fun.value
        case UserData | RespStatus => if f.asdu.Some? then UserData else NoData
        case NoData => NoData
        case _ => ConfNack
      else if f.fun.value == UserData then ConfNack else f.fun.value;
    Response(f.addr, fun, f.acd, f.dfc, if f.asdu.Some? then f.asdu.value else [])
  }

  /** handleIncomingFrame: E5 carries no address, and a frame of a primary means nothing in unbalanced mode. */
  function OnFrame(p: Prim, f: Received): PrimDone {
    match f
    case SingleChar => PrimDone(Link101.ConfirmPositive(p, None), [], [])
    case FromPrimary => PrimDone(p, [], [])
    case FromStation(_, _, _, _, _, _) => OnResponse(p, CountsAs(f))
  }

  /** An access demand asks for a class 1 poll, at once if the line is free. */
  function Demanded(p: Prim, a: Addr): PrimDone
    requires a in p.secs
  {
    var t := SetStation(p, a, p.secs[a].(wantClass1 := true));
    if t.lastSent == None && t.secs[a].phase == PhaseActive then SendConfirmed(t, a, ReqData1, true, [])
    else PrimDone(t, [], [])
  }

  /** What a station of this library sends counts as itself. */
  lemma SentCountsAsItself(r: Response)
    requires r.fun != UserData ==> r.asdu == []
    ensures CountsAs(FromStation(r.fun == UserData, Some(r.fun), r.addr, r.acd, r.dfc, Some(r.asdu))) == r
  {
  }

  /** E5 completes whatever is outstanding, as the confirm of the station that was asked would. */
  lemma SingleCharConfirms(p: Prim)
    requires p.lastSent.Some?
    ensures
      var a := p.lastSent.value.addr;
      && OnFrame(p, SingleChar) == PrimDone(Link101.ConfirmPositive(p, Some(a)), [], [])
      && (a in p.secs ==> OnFrame(p, SingleChar) == OnResponse(p, Response(a, ConfAck, false, p.secs[a].dfc, [])))
  {
    var a := p.lastSent.value.addr;
    if a in p.secs {
      assert p.secs[a := p.secs[a].(dfc := p.secs[a].dfc)] == p.secs;
    }
  }

  class Client {
    const linkAddrSize: nat
    const maxSendQueueSize: nat
    var secs: map<Addr, Station>
    var secOrder: seq<Addr>
    var pollIdx: nat
    var lastSent: Option<Request>
    var retryCount: nat
    var sendQueue: seq<Outgoing>
    var sendFrame: seq<Request>
    var rcvASDU: seq<Bytes>

    ghost function St(): Prim
      reads this
    {
      Prim(secs, secOrder, pollIdx, lastSent, retryCount, sendQueue)
    }

    twostate predicate Did(d: PrimDone)
      reads this
    {
      St() == d.p && sendFrame == old(sendFrame) + d.out && rcvASDU == old(rcvASDU) + d.dispatched
    }

    /** initSecondaries: every configured station once, in order, the broadcast address left out. */
    constructor (linkAddrSize: nat, maxSendQueueSize: nat, addrs: seq<Addr>)
      ensures this.linkAddrSize == linkAddrSize && this.maxSendQueueSize == maxSendQueueSize
      ensures Known(St()) && lastSent == None && sendQueue == [] && sendFrame == [] && rcvASDU == []
      ensures forall a :: a in secs <==> a in secOrder
      ensures forall a :: a in secs ==> secs[a] == STATION_START
      ensures Lists(secOrder, linkAddrSize, addrs)
    {
      this.linkAddrSize := linkAddrSize;
      this.maxSendQueueSize := maxSendQueueSize;
      secs, secOrder, pollIdx := map[], [], 0;
      lastSent, retryCount, sendQueue, sendFrame, rcvASDU := None, 0, [], [], [];
      new;
      for i := 0 to |addrs|
        invariant lastSent == None && sendQueue == [] && sendFrame == [] && rcvASDU == [] && pollIdx == 0
        invariant forall a :: a in secs ==> secs[a] == STATION_START
        invariant forall a :: a in secs <==> a in secOrder
        invariant Lists(secOrder, linkAddrSize, addrs[..i])
      {
        var a := addrs[i];
        assert addrs[..i + 1] == addrs[..i] + [a];
        if a in secs || Broadcast(a, linkAddrSize) {
          ListsSkip(secOrder, linkAddrSize, addrs[..i], a);
          continue;
        }
        ListsAdd(secOrder, linkAddrSize, addrs[..i], a);
        secs := secs[a := STATION_START];
        secOrder := secOrder + [a];
      }
      assert addrs[..|addrs|] == addrs;
    }

    method SendTo(asdu: Bytes, addr: Addr) returns (ok: bool)
      modifies this`sendQueue
      ensures ok == (|old(sendQueue)| < maxSendQueueSize)
      ensures sendQueue == old(sendQueue) + (if ok then [Outgoing(asdu, addr)] else [])
    {
      ok := |sendQueue| < maxSendQueueSize;
      if ok {
        sendQueue := sendQueue + [Outgoing(asdu, addr)];
      }
    }

    method SendPrimConfirmed(a: Addr, fun: PrimFc, fcv: bool, asdu: Bytes)
      requires a in secs
      modifies this`lastSent, this`retryCount, this`sendFrame
      ensures Did(SendConfirmed(old(St()), a, fun, fcv, asdu))
    {
      var req := Request(a, fun, fcv, fcv && secs[a].fcb, asdu);
      sendFrame := sendFrame + [req];
      lastSent, retryCount := Some(req), 0;
    }

    /** The scan of trySendNextFromQueue: entries are deleted from the queue while it is walked. */
    method TakeNext() returns (next: Option<Outgoing>)
      modifies this`sendQueue
      ensures (next, sendQueue) == ScanQueue(secs, linkAddrSize, old(sendQueue))
    {
      next := None;
      var i := 0;
      ghost var whole := ScanQueue(secs, linkAddrSize, sendQueue);
      assert sendQueue[0..] == sendQueue;
      while i < |sendQueue|
        invariant 0 <= i <= |sendQueue|
        invariant whole.0 == ScanQueue(secs, linkAddrSize, sendQueue[i..]).0
        invariant whole.1 == sendQueue[..i] + ScanQueue(secs, linkAddrSize, sendQueue[i..]).1
        decreases |sendQueue| - i
      {
        var e := sendQueue[i];
        ghost var head, tail := sendQueue[..i], sendQueue[i..];
        if Broadcast(e.addr, linkAddrSize) {
          sendQueue := sendQueue[..i] + sendQueue[i + 1..];
          assert sendQueue == head + tail[1..];
          return Some(e);
        }
        if e.addr !in secs {
          sendQueue := sendQueue[..i] + sendQueue[i + 1..];
          assert sendQueue[..i] == head && sendQueue[i..] == tail[1..];
          continue;
        }
        if secs[e.addr].phase == PhaseActive && !secs[e.addr].dfc {
          sendQueue := sendQueue[..i] + sendQueue[i + 1..];
          assert sendQueue == head + tail[1..];
          return Some(e);
        }
        i := i + 1;
        assert sendQueue[..i] == head + [e] && sendQueue[i..] == tail[1..];
      }
      assert sendQueue[..i] == sendQueue && sendQueue[i..] == [] && sendQueue + [] == sendQueue;
    }

    method TrySendNextFromQueue() returns (sent: bool)
      modifies this
      ensures Did(TrySend(old(St()), linkAddrSize))
      ensures sent == (TrySend(old(St()), linkAddrSize).out != [])
    {
      if lastSent.Some? {
        return false;
      }
      var next := TakeNext();
      match next {
        case None => return false;
        case Some(e) =>
          if Broadcast(e.addr, linkAddrSize) {
            sendFrame := sendFrame + [Request(e.addr, UserDataNoConf, false, false, e.asdu)];
            return true;
          }
          if e.addr !in secs {
            return false;
          }
          SendPrimConfirmed(e.addr, UserDataConf, true, e.asdu);
          return true;
      }
    }

    method ResetLinkOf(a: Addr)
      requires a in secs
      modifies this`secs, this`lastSent, this`retryCount, this`sendFrame
      ensures Did(SendResetLink(old(St()), a))
    {
      secs := secs[a := secs[a].(phase := PhaseReset)];
      SendPrimConfirmed(a, ResetLink, false, []);
    }

    method Tick()
      requires Known(St())
      modifies this
      ensures Did(Link101.Tick(old(St()), linkAddrSize))
    {
      if lastSent.Some? {
        return;
      }
      var sent := TrySendNextFromQueue();
      if sent || secOrder == [] {
        return;
      }
      var a := secOrder[pollIdx];
      pollIdx := (pollIdx + 1) % |secOrder|;
      match secs[a].phase {
        case PhaseStatus => SendPrimConfirmed(a, ReqStatus, false, []);
        case PhaseReset => ResetLinkOf(a);
        case PhaseActive =>
          if secs[a].wantClass1 {
            SendPrimConfirmed(a, ReqData1, true, []);
          } else {
            SendPrimConfirmed(a, ReqData2, true, []);
          }
      }
    }

    method ConfirmPositive(from: Option<Addr>)
      modifies this`secs, this`lastSent, this`retryCount
      ensures St() == Link101.ConfirmPositive(old(St()), from)
    {
      if lastSent == None {
        return;
      }
      var p := lastSent.value;
      if from.Some? && from.value != p.addr {
        return;
      }
      if p.addr in secs {
        var sec := secs[p.addr];
        if p.fcv {
          sec := sec.(fcb := !p.fcb);
        }
        match p.fun {
          case ResetLink => sec := sec.(phase := PhaseActive, fcb := true);
          case ReqStatus =>
            if sec.phase == PhaseStatus {
              sec := sec.(phase := PhaseReset);
            }
          case ReqData1 => sec := sec.(wantClass1 := false);
          case _ =>
        }
        secs := secs[p.addr := sec];
      }
      lastSent, retryCount := None, 0;
    }

    method FailTransaction(a: Addr)
      modifies this`secs, this`lastSent, this`retryCount
      ensures St() == Link101.FailTransaction(old(St()), a)
    {
      if lastSent == None || lastSent.value.addr != a {
        return;
      }
      if a in secs {
        secs := secs[a := secs[a].(phase := PhaseStatus, wantClass1 := false)];
      }
      lastSent, retryCount := None, 0;
    }

    method HandleFixed(f: Received)
      requires f.FromStation? && !f.variable
      modifies this`secs, this`lastSent, this`retryCount
      ensures St() == Answered(old(St()), CountsAs(f)).0
      ensures Answered(old(St()), CountsAs(f)).1 == []
    {
      match f.fun {
        case Some(ConfAck) | Some(NoData) | Some(RespStatus) => ConfirmPositive(Some(f.addr));
        case Some(LinkNF) | Some(LinkNI) => FailTransaction(f.addr);
        case _ =>
      }
    }

    method HandleVariable(f: Received)
      requires f.FromStation? && f.variable
      modifies this`secs, this`lastSent, this`retryCount, this`rcvASDU
      ensures St() == Answered(old(St()), CountsAs(f)).0
      ensures rcvASDU == old(rcvASDU) + Answered(old(St()), CountsAs(f)).1
    {
      match f.fun {
        case Some(UserData) | Some(RespStatus) =>
          ConfirmPositive(Some(f.addr));
          if f.asdu.Some? {
            rcvASDU := rcvASDU + [f.asdu.value];
          }
        case Some(NoData) => ConfirmPositive(Some(f.addr));
        case _ =>
      }
    }

    /** Access demand: the station has class 1 data waiting. */
    method HandleAccessDemand(a: Addr)
      requires a in secs
      modifies this`secs, this`lastSent, this`retryCount, this`sendFrame
      ensures Did(Demanded(old(St()), a))
    {
      secs := secs[a := secs[a].(wantClass1 := true)];
      if lastSent == None && secs[a].phase == PhaseActive {
        SendPrimConfirmed(a, ReqData1, true, []);
      }
    }

    method HandleIncomingFrame(f: Received)
      modifies this
      ensures Did(OnFrame(old(St()), f))
    {
      match f {
        case SingleChar => ConfirmPositive(None);
        case FromPrimary =>
        case FromStation(_, _, addr, _, _, _) =>
          if addr !in secs {
            return;
          }
          secs := secs[addr := secs[addr].(dfc := f.dfc)];
          if f.variable {
            HandleVariable(f);
          } else {
            HandleFixed(f);
          }
          if f.acd && addr in secs {
            HandleAccessDemand(addr);
          }
      }
    }

    /** The T1 branch of runProtocol. */
    method HandleT1() returns (connectionLost: bool)
      modifies this
      ensures lastSent == old(lastSent) || lastSent == None
      ensures old(lastSent) == None ==> St() == old(St()) && sendFrame == old(sendFrame) && !connectionLost
      ensures old(lastSent).Some? ==>
                match OnT1(old(St()))
                case Again(p, req) => St() == p && sendFrame == old(sendFrame) + [req] && !connectionLost
                case GivenUp(p, lost) => St() == p && sendFrame == old(sendFrame) && connectionLost == lost
      ensures rcvASDU == old(rcvASDU)
    {
      if lastSent == None {
        return false;
      }
      if retryCount < 1 {
        retryCount := retryCount + 1;
        sendFrame := sendFrame + [lastSent.value];
        return false;
      }
      FailTransaction(lastSent.value.addr);
      return |secOrder| == 1;
    }
  }
}
