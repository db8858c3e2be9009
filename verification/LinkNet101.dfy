/**
 * A primary and its stations on one line that may lose any frame. A frame is never doubled and
 * never arrives after T1 has fired for it: T1 fires only when the request or its answer was lost.
 */
module LinkNet101 {
  import opened Octets
  import opened Link101
  import opened SendQueue101

  datatype Line = Quiet | Down(req: Request) | Up(resp: Response)

  /** The elements whose mark is set, in order. */
  function Pick<T>(xs: seq<T>, marks: seq<bool>): seq<T>
    requires |xs| == |marks|
  {
    if xs == [] then []
    else
      var n := |xs| - 1;
      Pick(xs[..n], marks[..n]) + (if marks[n] then [xs[n]] else [])
  }

  function CountUnmarked(marks: seq<bool>): nat {
    if marks == [] then 0 else CountUnmarked(marks[..|marks| - 1]) + (if marks[|marks| - 1] then 0 else 1)
  }

  function PoppedOf(class1: bool, ps: seq<Pop>): seq<Bytes> {
    if ps == [] then []
    else PoppedOf(class1, ps[..|ps| - 1]) + (if ps[|ps| - 1].class1 == class1 then [ps[|ps| - 1].asdu] else [])
  }

  function AsdusOf(ps: seq<Pop>): (r: seq<Bytes>)
    ensures |r| == |ps| && forall i :: 0 <= i < |ps| ==> r[i] == ps[i].asdu
  {
    seq(|ps|, i requires 0 <= i < |ps| => ps[i].asdu)
  }

  /** History of one station; every list is in the order things happened. */
  datatype Hist = Hist(
    accepted: seq<Bytes>,   // accepted by SendTo and not cleared by a reconnection
    tx: seq<Bytes>,         // user data put on the line for the first time
    got: seq<bool>,         // per tx: the station took it
    conf: seq<bool>,        // per tx: the primary saw a positive confirm
    handed: seq<Bytes>,     // what the station handed to its application
    in1: seq<Bytes>,        // accepted by Send as class 1
    in2: seq<Bytes>,        // accepted by Send as class 2
    popped: seq<Pop>,       // taken from the buffers to answer a poll
    taken: seq<bool>,       // per popped: the primary dispatched it
    dispatched: seq<Bytes>, // what the primary handed to its application
    unconfirmed: nat,       // user data transactions given up
    pollsLost: nat)         // polls given up after the station had taken an ASDU out for them

  const NO_HIST := Hist([], [], [], [], [], [], [], [], [], [], 0, 0)

  datatype Net = Net(prim: Prim, sts: map<Addr, Sec>, line: Line, hist: map<Addr, Hist>)

  datatype Event =
    | Reach                                               // the request reaches its station
    | Return                                              // the answer reaches the primary
    | Lose                                                // what is on the line is lost
    | T1Fires
    | TickFires
    | T3Fires
    | Manual(a: Addr, fun: PrimFc)
    | UserSend(a: Addr, asdu: Bytes)                      // SendTo at the primary
    | StationSend(a: Addr, asdu: Bytes, periodic: bool)   // Send at a station

  function SetLast(marks: seq<bool>): seq<bool> {
    if marks == [] then marks else marks[|marks| - 1 := true]
  }

  /** History of a first transmission. */
  function Transmitted(h: Hist, req: Request): Hist {
    if req.fun == UserDataConf then h.(tx := h.tx + [req.asdu], got := h.got + [false], conf := h.conf + [false]) else h
  }

  function Served(h: Hist, d: SecDone): Hist {
    h.(handed := h.handed + d.handed,
       got := if d.handed != [] then SetLast(h.got) else h.got,
       popped := h.popped + d.popped,
       taken := h.taken + seq(|d.popped|, i => false))
  }

  predicate Positive(fun: SecFc) {
    fun == ConfAck || fun == NoData || fun == RespStatus || fun == UserData
  }

  function Settled(h: Hist, req: Request, r: Response, dispatched: seq<Bytes>): Hist {
    h.(conf := if req.fun == UserDataConf && Positive(r.fun) then SetLast(h.conf) else h.conf,
       taken := if dispatched != [] then SetLast(h.taken) else h.taken,
       dispatched := h.dispatched + dispatched)
  }

  /** The primary sends what an operation produced; at most one confirmed frame. */
  function PrimDid(s: Net, d: PrimDone): Net {
    if d.out == [] then s.(prim := d.p)
    else
      var req := d.out[0];
      s.(prim := d.p, line := Down(req),
         hist := if req.addr in s.hist then s.hist[req.addr := Transmitted(s.hist[req.addr], req)] else s.hist)
  }

  /** A lost lone station: the connection is closed and opened again, with a fresh station table and an empty queue. */
  function Reconnect(s: Net): Net {
    s.(prim := Prim(map a | a in s.prim.secs :: STATION_START, s.prim.secOrder, 0, None, 0, []),
       hist := map a | a in s.hist :: s.hist[a].(accepted := s.hist[a].tx))
  }

  function GiveUp(s: Net, p: Prim, a: Addr, connectionLost: bool): Net {
    var known := a in s.prim.secs && a in s.sts && a in s.hist;
    var t := s.(prim := p, hist := if known then s.hist[a := AfterGivingUp(SideOf(s, a))] else s.hist);
    if connectionLost then Reconnect(t) else t
  }

  function Step(size: nat, s: Net, e: Event): Net
    requires Known(s.prim)
  {
    match e
    case Reach =>
      if s.line.Down? && s.line.req.addr in s.sts && s.line.req.addr in s.hist then
        var a := s.line.req.addr;
        var d := SecReceive(a, size, s.sts[a], s.line.req);
        s.(sts := s.sts[a := d.st], line := if d.resp.Some? then Up(d.resp.value) else Quiet,
           hist := s.hist[a := Served(s.hist[a], d)])
      else s
    case Return =>
      if s.line.Up? && s.prim.lastSent.Some? && s.line.resp.addr in s.hist then
        var r := s.line.resp;
        var d := OnResponse(s.prim, r);
        PrimDid(s.(line := Quiet, hist := s.hist[r.addr := Settled(s.hist[r.addr], s.prim.lastSent.value, r,
            d.dispatched)]), d)
      else s
    case Lose => s.(line := Quiet)
    case T1Fires =>
      if s.line.Quiet? && s.prim.lastSent.Some? then
        match OnT1(s.prim)
        case Again(p, req) => s.(prim := p, line := Down(req))
        case GivenUp(p, lost) => GiveUp(s, p, s.prim.lastSent.value.addr, lost)
      else s
    case TickFires => PrimDid(s, Tick(s.prim, size))
    case T3Fires => PrimDid(s, OnT3(s.prim))
    case Manual(a, fun) => PrimDid(s, OnManual(s.prim, a, fun))
    case UserSend(a, asdu) =>
      if Broadcast(a, size) then s
      else s.(prim := s.prim.(sendQueue := s.prim.sendQueue + [Outgoing(asdu, a)]),
              hist := if a in s.hist then s.hist[a := s.hist[a].(accepted := s.hist[a].accepted + [asdu])] else s.hist)
    case StationSend(a, asdu, periodic) =>
      if a in s.sts && a in s.hist then
        if periodic then s.(sts := s.sts[a := s.sts[a].(class2 := s.sts[a].class2 + [asdu])],
                            hist := s.hist[a := s.hist[a].(in2 := s.hist[a].in2 + [asdu])])
        else s.(sts := s.sts[a := s.sts[a].(class1 := s.sts[a].class1 + [asdu])],
                hist := s.hist[a := s.hist[a].(in1 := s.hist[a].in1 + [asdu])])
      else s
  }

  // ---- one station's part of the system ----

  /**
   * What concerns one station: the primary's record of it, its own state, the outstanding frame and the line if
   * they are its.
   */
  datatype Side = Side(v: Station, st: Sec, out: Option<Request>, line: Line, queued: seq<Bytes>, h: Hist)

  function SideOf(s: Net, a: Addr): Side
    requires a in s.prim.secs && a in s.sts && a in s.hist
  {
    var mine := s.prim.lastSent.Some? && s.prim.lastSent.value.addr == a;
    Side(s.prim.secs[a], s.sts[a], if mine then s.prim.lastSent else None, if mine then s.line else Quiet,
         ForStation(a, s.prim.sendQueue), s.hist[a])
  }

  predicate Counted(fun: PrimFc) {
    fun == TestLink || fun == UserDataConf || fun == ReqData1 || fun == ReqData2
  }

  predicate Polls(fun: PrimFc) {
    fun == ReqData1 || fun == ReqData2
  }

  /** The station has taken the outstanding frame: its expected FCB has moved on. */
  predicate Processed(x: Side) {
    x.out.Some? && x.out.value.fcv && x.st.fcbExpected != x.out.value.fcb
  }

  predicate LastPop(h: Hist, asdu: Bytes) {
    |h.popped| == |h.taken| > 0 && h.popped[|h.popped| - 1].asdu == asdu && !h.taken[|h.taken| - 1]
  }

  /** A popped ASDU waits in lastResp, not yet dispatched. */
  predicate PopPending(x: Side) {
    Processed(x) && Polls(x.out.value.fun) && x.st.lastResp.Some? && x.st.lastResp.value.fun == UserData
  }

  /** The answer the station keeps fits the outstanding frame it has processed. */
  predicate AnswerFits(x: Side, r: Response)
    requires x.out.Some?
  {
    && r.addr == x.out.value.addr
    && match x.out.value.fun
       case UserDataConf | TestLink | ResetLink => r.fun == ConfAck
       case ReqStatus => r.fun == RespStatus
       case ReqData1 | ReqData2 => r.fun == NoData || (r.fun == UserData && LastPop(x.h, r.asdu))
       case _ => false
  }

  predicate Outstanding(x: Side)
    requires x.out.Some?
  {
    var req := x.out.value;
    && (Counted(req.fun) || req.fun == ResetLink || req.fun == ReqStatus)
    && req.fcv == Counted(req.fun)
    && (req.fcv ==> x.v.phase == PhaseActive && req.fcb == x.v.fcb)
    && (req.fun == ResetLink ==> x.v.phase == PhaseReset)
    && (req.fun == ReqStatus && x.v.phase == PhaseActive ==> x.v.fcb == x.st.fcbExpected)
    && (req.fun == UserDataConf ==>
          && x.h.tx != [] && req.asdu == x.h.tx[|x.h.tx| - 1]
          && |x.h.got| == |x.h.tx| && x.h.got[|x.h.tx| - 1] == Processed(x)
          && |x.h.conf| == |x.h.tx| && !x.h.conf[|x.h.tx| - 1])
    && (Processed(x) ==> x.st.lastResp.Some? && AnswerFits(x, x.st.lastResp.value))
    && (x.line.Down? ==> x.line.req == req)
    && (x.line.Up? ==> AnswerFits(x, x.line.resp) && (req.fcv ==> Processed(x) && x.st.lastResp == Some(x.line.resp)) &&
                       (req.fun == ResetLink ==> x.st.fcbExpected))
  }

  function One(b: bool): nat {
    if b then 1 else 0
  }

  /** What giving up the outstanding frame costs. */
  function AfterGivingUp(x: Side): Hist {
    x.h.(unconfirmed := x.h.unconfirmed + One(x.out.Some? && x.out.value.fun == UserDataConf),
         pollsLost := x.h.pollsLost + One(PopPending(x)))
  }

  /** The marks agree with the logs, and the books balance. */
  ghost predicate Books(h: Hist, st: Sec, queued: seq<Bytes>) {
    && |h.got| == |h.conf| == |h.tx| && (forall i :: 0 <= i < |h.tx| && h.conf[i] ==> h.got[i])
    && h.handed == Pick(h.tx, h.got)
    && |h.taken| == |h.popped| && h.dispatched == Pick(AsdusOf(h.popped), h.taken)
    && h.in1 == PoppedOf(true, h.popped) + st.class1
    && h.in2 == PoppedOf(false, h.popped) + st.class2
    && h.accepted == h.tx + queued
  }

  ghost predicate Sound(x: Side) {
    && Books(x.h, x.st, x.queued)
    && CountUnmarked(x.h.conf) == x.h.unconfirmed + One(x.out.Some? && x.out.value.fun == UserDataConf)
    && CountUnmarked(x.h.taken) == x.h.pollsLost + One(PopPending(x))
    && (if x.out.Some? then Outstanding(x)
        else x.line.Quiet? && (x.v.phase == PhaseActive ==> x.v.fcb == x.st.fcbExpected))
  }

  ghost predicate Wired(size: nat, s: Net) {
    && Known(s.prim)
    && s.sts.Keys == s.prim.secs.Keys && s.hist.Keys == s.prim.secs.Keys
    && (forall a :: a in s.prim.secs ==> !Broadcast(a, size))
    && (forall e :: e in s.prim.sendQueue ==> !Broadcast(e.addr, size))
    && (s.prim.lastSent == None ==> s.line.Quiet?)
    && (s.prim.lastSent.Some? ==> s.prim.lastSent.value.addr in s.prim.secs)
    && (s.line.Down? ==> s.prim.lastSent == Some(s.line.req))
    && (s.line.Up? ==> s.prim.lastSent.Some? && s.line.resp.addr == s.prim.lastSent.value.addr)
  }

  ghost predicate Inv(size: nat, s: Net) {
    Wired(size, s) && forall a :: a in s.prim.secs ==> Sound(SideOf(s, a))
  }
}
