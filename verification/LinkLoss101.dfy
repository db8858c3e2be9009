/** A polled ASDU that is lost: the poll is served, both answers are lost, and the station is given up. */
module LinkLoss101 {
  import opened Octets
  import opened Link101
  import opened LinkNet101
  import opened LinkProof101
  import opened LinkTheorems101

  /** The line with one station, number 1, and no user data queued at the primary. */
  function Lone(v: Station, last: Option<Request>, retries: nat, st: Sec, line: Line, h: Hist): Net {
    Net(Prim(map[1 := v], [1], 0, last, retries, []), map[1 := st], line, map[1 := h])
  }

  const ASK_STATUS := Request(1, ReqStatus, false, false, [])
  const RESET := Request(1, ResetLink, false, false, [])
  const POLL := Request(1, ReqData2, true, true, [])
  const STATUS := Response(1, RespStatus, false, false, [])
  const ACK := Response(1, ConfAck, false, false, [])
  const WAITING := Station(PhaseReset, false, false, false)
  const LINKED := Station(PhaseActive, true, false, false)

  function Data(x: Bytes): Response {
    Response(1, UserData, false, false, x)
  }

  /** After Send at the station. */
  function Offered(x: Bytes): Hist {
    NO_HIST.(in2 := [x])
  }

  /** After the poll was served. */
  function Served1(x: Bytes): Hist {
    Offered(x).(popped := [Pop(false, x)], taken := [false])
  }

  lemma StartIsLone()
    ensures Start([1]) == Lone(STATION_START, None, 0, SEC_START, Quiet, NO_HIST)
  {
    assert (map a | a in [1] :: STATION_START) == map[1 := STATION_START];
    assert (map a | a in [1] :: SEC_START) == map[1 := SEC_START];
    assert (map a | a in [1] :: NO_HIST) == map[1 := NO_HIST];
  }

  /** A tick on the free line sends what the station's phase calls for. */
  lemma TickSends(v: Station, st: Sec, h: Hist, req: Request)
    requires (v == STATION_START && req == ASK_STATUS) || (v == WAITING && req == RESET) || (v == LINKED && req == POLL)
    ensures Step(1, Lone(v, None, 0, st, Quiet, h), TickFires) == Lone(v, Some(req), 0, st, Down(req), h)
  {
    var s := Lone(v, None, 0, st, Quiet, h);
    assert TrySend(s.prim, 1).p == s.prim;
    assert s.prim.secs[1 := v] == s.prim.secs && s.hist[1 := h] == s.hist;
  }

  /** A request that reaches the station. */
  lemma Reaches(v: Station, n: nat, st: Sec, req: Request, h: Hist, d: SecDone)
    requires req.addr == 1 && d == SecOnRequest(1, st, req) && d.resp.Some?
    ensures Step(1, Lone(v, Some(req), n, st, Down(req), h), Reach)
            == Lone(v, Some(req), n, d.st, Up(d.resp.value), Served(h, d))
  {
    var s := Lone(v, Some(req), n, st, Down(req), h);
    assert SecReceive(1, 1, st, req) == d;
    assert s.sts[1 := d.st] == map[1 := d.st] && s.hist[1 := Served(h, d)] == map[1 := Served(h, d)];
  }

  /** An answer to a request without data, without access demand. */
  lemma Returns(v: Station, st: Sec, req: Request, r: Response, h: Hist)
    requires req.addr == 1 && ((req == ASK_STATUS && r == STATUS) || (req == RESET && r == ACK)) && !v.dfc
    ensures Step(1, Lone(v, Some(req), 0, st, Up(r), h), Return) == Lone(Confirmed(v, req), None, 0, st, Quiet, h)
  {
    var s := Lone(v, Some(req), 0, st, Up(r), h);
    assert v.(dfc := r.dfc) == v;
    assert s.prim.secs[1 := v][1 := Confirmed(v, req)] == map[1 := Confirmed(v, req)];
    assert Settled(h, req, r, []) == h && s.hist[1 := h] == s.hist;
  }

  lemma Sends(v: Station, st: Sec, h: Hist, x: Bytes)
    ensures Step(1, Lone(v, None, 0, st, Quiet, h), StationSend(1, x, true))
            == Lone(v, None, 0, st.(class2 := st.class2 + [x]), Quiet, h.(in2 := h.in2 + [x]))
  {
    var s := Lone(v, None, 0, st, Quiet, h);
    assert s.sts[1 := st.(class2 := st.class2 + [x])] == map[1 := st.(class2 := st.class2 + [x])];
    assert s.hist[1 := h.(in2 := h.in2 + [x])] == map[1 := h.(in2 := h.in2 + [x])];
  }

  lemma Repeats(v: Station, st: Sec, req: Request, h: Hist)
    ensures Step(1, Lone(v, Some(req), 0, st, Quiet, h), T1Fires) == Lone(v, Some(req), 1, st, Down(req), h)
  {
  }

  lemma GivesUp(st: Sec, h: Hist)
    requires PopPending(Side(LINKED, st, Some(POLL), Quiet, [], h))
    ensures Step(1, Lone(LINKED, Some(POLL), 1, st, Quiet, h), T1Fires)
            == Lone(STATION_START, None, 0, st, Quiet, h.(pollsLost := h.pollsLost + 1, accepted := h.tx))
  {
    var s := Lone(LINKED, Some(POLL), 1, st, Quiet, h);
    T1IsGiveUp(1, s);
    assert SideOf(s, 1) == Side(LINKED, st, Some(POLL), Quiet, [], h);
    var lost := h.(pollsLost := h.pollsLost + 1);
    assert AfterGivingUp(SideOf(s, 1)) == lost;
    var t := GiveUp(s, FailTransaction(s.prim, 1), 1, false);
    assert t.hist == map[1 := lost];
    assert (map a | a in t.prim.secs :: STATION_START) == map[1 := STATION_START];
    assert (map a | a in t.hist :: t.hist[a].(accepted := t.hist[a].tx)) == map[1 := lost.(accepted := h.tx)];
  }

  /** The link of station 1 comes up. */
  function LinkUp(): seq<Event> {
    [] + [TickFires] + [Reach] + [Return] + [TickFires] + [Reach] + [Return]
  }

  /** One ASDU is offered, polled, and both answers are lost. */
  function Losing(x: Bytes): seq<Event> {
    LinkUp() + [StationSend(1, x, true)] + [TickFires] + [Reach] + [Lose] + [T1Fires] + [Reach] + [Lose] + [T1Fires]
  }

  /** A relation between event lists and states that every event extends. */
  ghost predicate Extends(r: (seq<Event>, Net) -> bool) {
    forall es, s, e :: r(es, s) && Known(s.prim) ==> r(es + [e], Step(1, s, e))
  }

  lemma ThenTick(r: (seq<Event>, Net) -> bool, es: seq<Event>, v: Station, st: Sec, h: Hist, req: Request)
    requires Extends(r) && r(es, Lone(v, None, 0, st, Quiet, h))
    requires (v == STATION_START && req == ASK_STATUS) || (v == WAITING && req == RESET) || (v == LINKED && req == POLL)
    ensures r(es + [TickFires], Lone(v, Some(req), 0, st, Down(req), h))
  {
    TickSends(v, st, h, req);
  }

  lemma ThenReach(r: (seq<Event>, Net) -> bool, es: seq<Event>, v: Station, n: nat, st: Sec, req: Request, h: Hist,
                  d: SecDone)
    requires Extends(r) && r(es, Lone(v, Some(req), n, st, Down(req), h))
    requires req.addr == 1 && d == SecOnRequest(1, st, req) && d.resp.Some?
    ensures r(es + [Reach], Lone(v, Some(req), n, d.st, Up(d.resp.value), Served(h, d)))
  {
    Reaches(v, n, st, req, h, d);
  }

  lemma ThenReturn(r: (seq<Event>, Net) -> bool, es: seq<Event>, v: Station, st: Sec, req: Request, a: Response, h: Hist)
    requires Extends(r) && r(es, Lone(v, Some(req), 0, st, Up(a), h))
    requires req.addr == 1 && ((req == ASK_STATUS && a == STATUS) || (req == RESET && a == ACK)) && !v.dfc
    ensures r(es + [Return], Lone(Confirmed(v, req), None, 0, st, Quiet, h))
  {
    Returns(v, st, req, a, h);
  }

  lemma ThenSend(r: (seq<Event>, Net) -> bool, es: seq<Event>, v: Station, st: Sec, h: Hist, x: Bytes)
    requires Extends(r) && r(es, Lone(v, None, 0, st, Quiet, h))
    ensures r(es + [StationSend(1, x, true)],
              Lone(v, None, 0, st.(class2 := st.class2 + [x]), Quiet, h.(in2 := h.in2 + [x])))
  {
    Sends(v, st, h, x);
  }

  lemma ThenLose(r: (seq<Event>, Net) -> bool, es: seq<Event>, v: Station, n: nat, st: Sec, req: Request,
                 line: Line, h: Hist)
    requires Extends(r) && r(es, Lone(v, Some(req), n, st, line, h))
    ensures r(es + [Lose], Lone(v, Some(req), n, st, Quiet, h))
  {
    assert Step(1, Lone(v, Some(req), n, st, line, h), Lose) == Lone(v, Some(req), n, st, Quiet, h);
  }

  lemma ThenRepeat(r: (seq<Event>, Net) -> bool, es: seq<Event>, v: Station, st: Sec, req: Request, h: Hist)
    requires Extends(r) && r(es, Lone(v, Some(req), 0, st, Quiet, h))
    ensures r(es + [T1Fires], Lone(v, Some(req), 1, st, Down(req), h))
  {
    Repeats(v, st, req, h);
  }

  lemma ThenGiveUp(r: (seq<Event>, Net) -> bool, es: seq<Event>, st: Sec, h: Hist)
    requires Extends(r) && r(es, Lone(LINKED, Some(POLL), 1, st, Quiet, h))
    requires PopPending(Side(LINKED, st, Some(POLL), Quiet, [], h))
    ensures r(es + [T1Fires],
              Lone(STATION_START, None, 0, st, Quiet, h.(pollsLost := h.pollsLost + 1, accepted := h.tx)))
  {
    GivesUp(st, h);
  }

  /** A request without data is answered, and the answer returns. */
  lemma Exchange(r: (seq<Event>, Net) -> bool, es: seq<Event>, v: Station, st: Sec, req: Request, a: Response, st': Sec)
    requires Extends(r) && r(es, Lone(v, None, 0, st, Quiet, NO_HIST)) && !v.dfc
    requires (v == STATION_START && req == ASK_STATUS && a == STATUS) || (v == WAITING && req == RESET && a == ACK)
    requires SecOnRequest(1, st, req) == SecDone(st', Some(a), [], [])
    ensures r(es + [TickFires] + [Reach] + [Return], Lone(Confirmed(v, req), None, 0, st', Quiet, NO_HIST))
  {
    var d := SecDone(st', Some(a), [], []);
    ThenTick(r, es, v, st, NO_HIST, req);
    NothingServed(NO_HIST, d);
    ThenReach(r, es + [TickFires], v, 0, st, req, NO_HIST, d);
    ThenReturn(r, es + [TickFires] + [Reach], v, st', req, a, NO_HIST);
  }

  lemma LinkComesUp(r: (seq<Event>, Net) -> bool)
    requires Extends(r) && r([], Start([1]))
    ensures r(LinkUp(), Lone(LINKED, None, 0, Sec(true, Some(ACK), true, [], []), Quiet, NO_HIST))
  {
    StartIsLone();
    var st, st' := Sec(true, Some(STATUS), false, [], []), Sec(true, Some(ACK), true, [], []);
    Exchange(r, [], STATION_START, SEC_START, ASK_STATUS, STATUS, st);
    Exchange(r, [] + [TickFires] + [Reach] + [Return], WAITING, st, RESET, ACK, st');
  }

  /** The ASDU is offered, polled and taken out of the buffer. */
  lemma PollServed(r: (seq<Event>, Net) -> bool, es: seq<Event>, x: Bytes)
    requires Extends(r) && r(es, Lone(LINKED, None, 0, Sec(true, Some(ACK), true, [], []), Quiet, NO_HIST))
    ensures r(es + [StationSend(1, x, true)] + [TickFires] + [Reach],
              Lone(LINKED, Some(POLL), 0, Sec(false, Some(Data(x)), true, [], []), Up(Data(x)), Served1(x)))
  {
    var st := Sec(true, Some(ACK), true, [], [x]);
    ThenSend(r, es, LINKED, Sec(true, Some(ACK), true, [], []), NO_HIST, x);
    assert [] + [x] == [x];
    ThenTick(r, es + [StationSend(1, x, true)], LINKED, st, Offered(x), POLL);
    var d := SecDone(Sec(false, Some(Data(x)), true, [], []), Some(Data(x)), [], [Pop(false, x)]);
    PollAnswer(x, d);
    ThenReach(r, es + [StationSend(1, x, true)] + [TickFires], LINKED, 0, st, POLL, Offered(x), d);
  }

  lemma PollAnswer(x: Bytes, d: SecDone)
    requires d == SecDone(Sec(false, Some(Data(x)), true, [], []), Some(Data(x)), [], [Pop(false, x)])
    ensures SecOnRequest(1, Sec(true, Some(ACK), true, [], [x]), POLL) == d && Served(Offered(x), d) == Served1(x)
  {
  }

  /** Both answers are lost, and the station is given up. */
  lemma PollLost(r: (seq<Event>, Net) -> bool, es: seq<Event>, st: Sec, x: Bytes)
    requires Extends(r) && st == Sec(false, Some(Data(x)), true, [], [])
    requires r(es, Lone(LINKED, Some(POLL), 0, st, Up(Data(x)), Served1(x)))
    ensures r(es + [Lose] + [T1Fires] + [Reach] + [Lose] + [T1Fires],
              Lone(STATION_START, None, 0, st, Quiet, Served1(x).(pollsLost := 1)))
  {
    var h := Served1(x);
    ThenLose(r, es, LINKED, 0, st, POLL, Up(Data(x)), h);
    ThenRepeat(r, es + [Lose], LINKED, st, POLL, h);
    var d := SecDone(st, Some(Data(x)), [], []);
    NothingServed(h, d);
    ThenReach(r, es + [Lose] + [T1Fires], LINKED, 1, st, POLL, h, d);
    ThenLose(r, es + [Lose] + [T1Fires] + [Reach], LINKED, 1, st, POLL, Up(Data(x)), h);
    ThenGiveUp(r, es + [Lose] + [T1Fires] + [Reach] + [Lose], st, h);
  }

  lemma LosingRun(r: (seq<Event>, Net) -> bool, x: Bytes)
    requires Extends(r) && r([], Start([1]))
    ensures r(Losing(x), Lone(STATION_START, None, 0, Sec(false, Some(Data(x)), true, [], []), Quiet,
                              Served1(x).(pollsLost := 1)))
  {
    LinkComesUp(r);
    PollServed(r, LinkUp(), x);
    PollLost(r, LinkUp() + [StationSend(1, x, true)] + [TickFires] + [Reach], Sec(false, Some(Data(x)), true, [], []), x);
  }

  /** The state that a list of events leads to. */
  ghost function Reached(): (seq<Event>, Net) -> bool {
    (es, s) => Play(1, [1], es) == s
  }

  lemma PlayExtends()
    ensures Extends(Reached()) && Reached()([], Start([1]))
  {
    assert Play(1, [1], []) == Start([1]);
    forall es: seq<Event>, e: Event
      ensures Play(1, [1], es + [e]) == Step(1, Play(1, [1], es), e)
    {
      assert (es + [e])[..|es|] == es;
    }
  }

  /**
   * The concrete run: one ASDU was taken out of the station's buffer, nothing is outstanding any more,
   * and it was not dispatched.
   */
  lemma GivenUpPollLosesAsdu(x: Bytes)
    ensures
      var s := Play(1, [1], Losing(x));
      && s.prim.lastSent == None && 1 in s.hist && s.hist[1].popped == [Pop(false, x)] && s.hist[1].dispatched == []
      && s.hist[1].pollsLost == 1
  {
    PlayExtends();
    LosingRun(Reached(), x);
  }
}
