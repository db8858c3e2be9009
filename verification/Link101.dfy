/**
 * The FT1.2 link layer of IEC 60870-5-101 in unbalanced mode, as functions of the state:
 * a primary that polls its stations one confirmed frame at a time, and a secondary that answers.
 */
module Link101 {
  import opened Octets

  type Addr = nat

  datatype PrimFc =
    | ResetLink | ResetUser | TestLink | UserDataConf | UserDataNoConf
    | ReqAccess | ReqStatus | ReqData1 | ReqData2 | OtherFc

  datatype SecFc = ConfAck | ConfNack | UserData | NoData | RespStatus | LinkNF | LinkNI

  /** A frame with PRM = 1; fcb is meaningful when fcv is set. */
  datatype Request = Request(addr: Addr, fun: PrimFc, fcv: bool, fcb: bool, asdu: Bytes)

  /** A frame with PRM = 0. */
  datatype Response = Response(addr: Addr, fun: SecFc, acd: bool, dfc: bool, asdu: Bytes)

  /** IsBroadcastAddr: all ones in the configured width. */
  predicate Broadcast(addr: Addr, linkAddrSize: nat) {
    (linkAddrSize == 1 && addr == 0xFF) || (linkAddrSize == 2 && addr == 0xFFFF)
  }

  // ---- secondary station ----

  datatype Sec = Sec(
    fcbExpected: bool,
    lastResp: Option<Response>,
    active: bool,
    class1: seq<Bytes>,
    class2: seq<Bytes>)

  const SEC_START := Sec(true, None, false, [], [])

  /** A buffered ASDU taken out to answer a poll, and the class it came from. */
  datatype Pop = Pop(class1: bool, asdu: Bytes)

  datatype SecDone = SecDone(st: Sec, resp: Option<Response>, handed: seq<Bytes>, popped: seq<Pop>)

  /** sendResp: the response is remembered for a repetition. */
  function Respond(s: Sec, r: Response, handed: seq<Bytes>, popped: seq<Pop>): SecDone {
    SecDone(s.(lastResp := Some(r)), Some(r), handed, popped)
  }

  function LinkAck(own: Addr, s: Sec): Response {
    Response(own, ConfAck, s.class1 != [], false, [])
  }

  /** popClassData: the requested class first, the other when it is empty. */
  function PopClassData(s: Sec, wantClass1: bool): (Sec, Option<Pop>) {
    if s.class1 != [] && (wantClass1 || s.class2 == []) then
      (s.(class1 := s.class1[1..]), Some(Pop(true, s.class1[0])))
    else if s.class2 != [] then
      (s.(class2 := s.class2[1..]), Some(Pop(false, s.class2[0])))
    else (s, None)
  }

  function RespondClassData(own: Addr, s: Sec, wantClass1: bool): SecDone {
    var (t, pop) := PopClassData(s, wantClass1);
    match pop
    case None => Respond(t, Response(own, NoData, false, false, []), [], [])
    case Some(p) => Respond(t, Response(own, UserData, t.class1 != [], false, p.asdu), [], [p])
  }

  /** A request that is not a repetition. */
  function SecServe(own: Addr, s: Sec, req: Request): SecDone {
    match req.fun
    case ResetLink =>
      var t := s.(active := true, fcbExpected := true);
      Respond(t, LinkAck(own, t), [], [])
    case ResetUser | TestLink => Respond(s, LinkAck(own, s), [], [])
    case UserDataConf =>
      if !req.fcv then SecDone(s, None, [], []) else Respond(s, LinkAck(own, s), [req.asdu], [])
    case UserDataNoConf => SecDone(s, None, [req.asdu], [])
    case ReqAccess | ReqStatus => Respond(s, Response(own, RespStatus, s.class1 != [], false, []), [], [])
    case ReqData1 => RespondClassData(own, s, true)
    case ReqData2 => RespondClassData(own, s, false)
    case OtherFc => Respond(s, Response(own, LinkNI, false, false, []), [], [])
  }

  /** The FCB alternates over all frames with FCV = 1; an unexpected one marks a repetition. */
  function SecOnRequest(own: Addr, s: Sec, req: Request): SecDone {
    if req.fcv && req.fcb != s.fcbExpected then
      if s.lastResp.Some? then SecDone(s, s.lastResp, [], []) else Respond(s, LinkAck(own, s), [], [])
    else SecServe(own, if req.fcv then s.(fcbExpected := !s.fcbExpected) else s, req)
  }

  /** Frames for other stations are ignored; a broadcast is only ever unconfirmed user data. */
  function SecReceive(own: Addr, linkAddrSize: nat, s: Sec, req: Request): SecDone {
    if linkAddrSize > 0 && Broadcast(req.addr, linkAddrSize) then
      SecDone(s, None, if req.fun == UserDataNoConf then [req.asdu] else [], [])
    else if linkAddrSize > 0 && req.addr != own then SecDone(s, None, [], [])
    else SecOnRequest(own, s, req)
  }

  // ---- primary station ----

  datatype Phase = PhaseStatus | PhaseReset | PhaseActive

  datatype Station = Station(phase: Phase, fcb: bool, wantClass1: bool, dfc: bool)

  const STATION_START := Station(PhaseStatus, false, false, false)

  datatype Outgoing = Outgoing(asdu: Bytes, addr: Addr)

  datatype Prim = Prim(
    secs: map<Addr, Station>,
    secOrder: seq<Addr>,
    pollIdx: nat,
    lastSent: Option<Request>,
    retryCount: nat,
    sendQueue: seq<Outgoing>)

  datatype PrimDone = PrimDone(p: Prim, out: seq<Request>, dispatched: seq<Bytes>)

  ghost predicate Known(p: Prim) {
    && (forall i :: 0 <= i < |p.secOrder| ==> p.secOrder[i] in p.secs)
    && (p.secOrder != [] ==> p.pollIdx < |p.secOrder|)
  }

  function SetStation(p: Prim, a: Addr, s: Station): Prim {
    p.(secs := p.secs[a := s])
  }

  /** A confirmed frame goes out and is outstanding until it is answered or given up. */
  function SendConfirmed(p: Prim, a: Addr, fun: PrimFc, fcv: bool, asdu: Bytes): PrimDone
    requires a in p.secs
  {
    var req := Request(a, fun, fcv, fcv && p.secs[a].fcb, asdu);
    PrimDone(p.(lastSent := Some(req), retryCount := 0), [req], [])
  }

  function SendResetLink(p: Prim, a: Addr): PrimDone
    requires a in p.secs
  {
    SendConfirmed(SetStation(p, a, p.secs[a].(phase := PhaseReset)), a, ResetLink, false, [])
  }

  /** User data may go to a station whose link is active and whose buffer is not full. */
  predicate Eligible(secs: map<Addr, Station>, linkAddrSize: nat, e: Outgoing) {
    Broadcast(e.addr, linkAddrSize) || (e.addr in secs && secs[e.addr].phase == PhaseActive && !secs[e.addr].dfc)
  }

  predicate Unknown(secs: map<Addr, Station>, linkAddrSize: nat, e: Outgoing) {
    !Broadcast(e.addr, linkAddrSize) && e.addr !in secs
  }

  /** The entry to send next, if any, and the queue without it and without the unknown stations passed on the way. */
  function ScanQueue(secs: map<Addr, Station>, linkAddrSize: nat, q: seq<Outgoing>): (Option<Outgoing>, seq<Outgoing>) {
    if q == [] then (None, [])
    else if Eligible(secs, linkAddrSize, q[0]) then (Some(q[0]), q[1..])
    else
      var (next, rest) := ScanQueue(secs, linkAddrSize, q[1..]);
      (next, if Unknown(secs, linkAddrSize, q[0]) then rest else [q[0]] + rest)
  }

  /** trySendNextFromQueue and _sendASDU: a broadcast goes out unconfirmed. */
  function TrySend(p: Prim, linkAddrSize: nat): PrimDone {
    if p.lastSent.Some? then PrimDone(p, [], [])
    else
      var (next, rest) := ScanQueue(p.secs, linkAddrSize, p.sendQueue);
      var q := p.(sendQueue := rest);
      match next
      case None => PrimDone(q, [], [])
      case Some(e) =>
        if Broadcast(e.addr, linkAddrSize) then PrimDone(q, [Request(e.addr, UserDataNoConf, false, false, e.asdu)], [])
        else if e.addr in q.secs then SendConfirmed(q, e.addr, UserDataConf, true, e.asdu)
        else PrimDone(q, [], [])
  }

  /** Link initialisation and class polling, one station a tick. */
  function Poll(p: Prim): PrimDone
    requires Known(p)
  {
    if p.secOrder == [] then PrimDone(p, [], [])
    else
      var a := p.secOrder[p.pollIdx];
      var q := p.(pollIdx := (p.pollIdx + 1) % |p.secOrder|);
      match p.secs[a].phase
      case PhaseStatus => SendConfirmed(q, a, ReqStatus, false, [])
      case PhaseReset => SendResetLink(q, a)
      case PhaseActive => SendConfirmed(q, a, if p.secs[a].wantClass1 then ReqData1 else ReqData2, true, [])
  }

  /** tick: nothing while a confirmed frame is outstanding; queued data first, then a poll. */
  function Tick(p: Prim, linkAddrSize: nat): PrimDone
    requires Known(p)
  {
    if p.lastSent.Some? then PrimDone(p, [], [])
    else
      var t := TrySend(p, linkAddrSize);
      if t.out != [] then t else Poll(t.p)
  }

  /** The station's state after its outstanding frame was confirmed. */
  function Confirmed(s: Station, req: Request): Station {
    var t := if req.fcv then s.(fcb := !req.fcb) else s;
    match req.fun
    case ResetLink => t.(phase := PhaseActive, fcb := true)
    case ReqStatus => if t.phase == PhaseStatus then t.(phase := PhaseReset) else t
    case ReqData1 => t.(wantClass1 := false)
    case _ => t
  }

  /** confirmPositive; a single character E5 carries no address. */
  function ConfirmPositive(p: Prim, from: Option<Addr>): Prim {
    if p.lastSent == None then p
    else
      var req := p.lastSent.value;
      if from.Some? && from.value != req.addr then p
      else
        var q := if req.addr in p.secs then SetStation(p, req.addr, Confirmed(p.secs[req.addr], req)) else p;
        q.(lastSent := None, retryCount := 0)
  }

  function Downgraded(s: Station): Station {
    s.(phase := PhaseStatus, wantClass1 := false)
  }

  /** failTransaction */
  function FailTransaction(p: Prim, a: Addr): Prim {
    if p.lastSent == None || p.lastSent.value.addr != a then p
    else
      var q := if a in p.secs then SetStation(p, a, Downgraded(p.secs[a])) else p;
      q.(lastSent := None, retryCount := 0)
  }

  /** handleIncomingFrame for PRM = 0, without the access demand at its end. */
  function Answered(p: Prim, r: Response): (Prim, seq<Bytes>) {
    match r.fun
    case ConfAck | NoData | RespStatus => (ConfirmPositive(p, Some(r.addr)), [])
    case UserData => (ConfirmPositive(p, Some(r.addr)), [r.asdu])
    case LinkNF | LinkNI => (FailTransaction(p, r.addr), [])
    case ConfNack => (p, [])
  }

  function OnResponse(p: Prim, r: Response): PrimDone {
    if r.addr !in p.secs then PrimDone(p, [], [])
    else
      var (q, dispatched) := Answered(SetStation(p, r.addr, p.secs[r.addr].(dfc := r.dfc)), r);
      if r.acd && r.addr in q.secs then
        var t := SetStation(q, r.addr, q.secs[r.addr].(wantClass1 := true));
        if t.lastSent == None && t.secs[r.addr].phase == PhaseActive
        then SendConfirmed(t, r.addr, ReqData1, true, []).(dispatched := dispatched)
        else PrimDone(t, [], dispatched)
      else PrimDone(q, [], dispatched)
  }

  /** T1: the same frame once more, then the station is given up; a lone station ends the connection. */
  datatype T1Outcome = Again(p: Prim, req: Request) | GivenUp(p: Prim, connectionLost: bool)

  function OnT1(p: Prim): T1Outcome
    requires p.lastSent.Some?
  {
    if p.retryCount < 1 then Again(p.(retryCount := p.retryCount + 1), p.lastSent.value)
    else GivenUp(FailTransaction(p, p.lastSent.value.addr), |p.secOrder| == 1)
  }

  /** T3: a test of the first active station when the line is free. */
  function FirstActive(p: Prim, from: nat): Option<Addr>
    requires Known(p) && from <= |p.secOrder|
    decreases |p.secOrder| - from
  {
    if from == |p.secOrder| then None
    else if p.secs[p.secOrder[from]].phase == PhaseActive then Some(p.secOrder[from])
    else FirstActive(p, from + 1)
  }

  function OnT3(p: Prim): PrimDone
    requires Known(p)
  {
    if p.lastSent.Some? then PrimDone(p, [], [])
    else
      match FirstActive(p, 0)
      case None => PrimDone(p, [], [])
      case Some(a) => if a in p.secs then SendConfirmed(p, a, TestLink, true, []) else PrimDone(p, [], [])
  }

  /** A manual request from the user: link reset, link status or a class 2 poll of one station. */
  function OnManual(p: Prim, a: Addr, fun: PrimFc): PrimDone {
    if p.lastSent.Some? || a !in p.secs then PrimDone(p, [], [])
    else if fun == ResetLink then SendResetLink(p, a)
    else if fun == ReqStatus then SendConfirmed(p, a, ReqStatus, false, [])
    else if fun == ReqData2 && p.secs[a].phase == PhaseActive then SendConfirmed(p, a, ReqData2, true, [])
    else PrimDone(p, [], [])
  }
}
