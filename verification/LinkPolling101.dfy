/** Whom the ticks of a primary address, over whole runs, and what a station answers to which poll. */
module LinkPolling101 {
  import opened Octets
  import opened Link101
  import opened SendQueue101
  import opened LinkNet101
  import opened LinkProof101
  import opened LinkTheorems101

  /** No user data: initialisation of a link, or a poll. */
  predicate IsPoll(req: Request) {
    req.fun != UserDataConf && req.fun != UserDataNoConf
  }

  /** The polls that the ticks of a run have sent, in order. */
  function Polls(size: nat, order: seq<Addr>, es: seq<Event>): seq<Request>
    requires forall a :: a in order ==> !Broadcast(a, size)
    decreases |es|
  {
    if es == [] then []
    else
      var front := es[..|es| - 1];
      Polls(size, order, front)
      + (if es[|es| - 1].TickFires? then Polled(Tick(Play(size, order, front).prim, size).out) else [])
  }

  function Polled(out: seq<Request>): seq<Request> {
    if out != [] && IsPoll(out[0]) then [out[0]] else []
  }

  /** The place in a round of m that the i-th poll has. */
  function Place(i: nat, m: nat): (r: nat)
    requires m > 0
    ensures r < m
  {
    if i < m then i else Place(i - m, m)
  }

  /** Where the round stands: the next station is the one after as many polls as were sent. */
  ghost predicate Round(order: seq<Addr>, polls: seq<Request>, p: Prim) {
    && p.secOrder == order
    && (if order == [] then polls == [] else p.pollIdx == Place(|polls|, |order|))
    && (forall i :: 0 <= i < |polls| ==> order != [] && polls[i].addr == order[Place(i, |order|)])
  }

  lemma {:induction false} NextPlace(i: nat, m: nat)
    requires m > 0
    ensures Place(i + 1, m) == if Place(i, m) + 1 == m then 0 else Place(i, m) + 1
    decreases i
  {
    if i >= m {
      NextPlace(i - m, m);
    }
  }

  lemma Wraps(r: nat, m: nat)
    requires r < m
    ensures (r + 1) % m == if r + 1 == m then 0 else r + 1
  {
  }

  /** What a poll asks for: the state of the link first, then its reset, then data, of class 1 on demand. */
  predicate Asks(v: Station, req: Request) {
    match v.phase
    case PhaseStatus => req.fun == ReqStatus && !req.fcv
    case PhaseReset => req.fun == ResetLink && !req.fcv
    case PhaseActive => req.fun == (if v.wantClass1 then ReqData1 else ReqData2) && req.fcv && req.fcb == v.fcb
  }

  /** Some entry of the queue may be sent now. */
  ghost predicate SomeEligible(p: Prim, size: nat) {
    exists e :: e in p.sendQueue && Eligible(p.secs, size, e)
  }

  /**
   * A tick does nothing while an answer is waited for; otherwise it sends the first queued data that may be sent, and
   * without any it polls the station whose turn it is, which it then passes on.
   */
  lemma TickIs(p: Prim, size: nat)
    requires Known(p)
    ensures
      var d := Tick(p, size);
      && d.p.secOrder == p.secOrder && d.dispatched == []
      && if p.lastSent.Some? then d.out == [] && d.p == p
         else if SomeEligible(p, size) then
           && |d.out| == 1 && !IsPoll(d.out[0]) && d.p.pollIdx == p.pollIdx
           && Outgoing(d.out[0].asdu, d.out[0].addr) in p.sendQueue
         else if p.secOrder == [] then d.out == []
         else
           var a := p.secOrder[p.pollIdx];
           && |d.out| == 1 && IsPoll(d.out[0]) && d.out[0].addr == a && Asks(p.secs[a], d.out[0])
           && d.out[0].asdu == [] && d.p.lastSent == Some(d.out[0])
           && d.p.pollIdx == (p.pollIdx + 1) % |p.secOrder|
  {
    var j := ScanExact(p.secs, size, p.sendQueue);
    if j < |p.sendQueue| {
      var e := p.sendQueue[j];
      assert SomeEligible(p, size);
      assert e == Outgoing(e.asdu, e.addr);
      assert ScanQueue(p.secs, size, p.sendQueue).0 == Some(e);
    } else {
      assert forall e :: e in p.sendQueue ==> !Eligible(p.secs, size, e);
      assert ScanQueue(p.secs, size, p.sendQueue).0 == None;
    }
  }

  /** A tick polls the next station or nobody. */
  lemma TickRounds(size: nat, order: seq<Addr>, polls: seq<Request>, p: Prim)
    requires Known(p) && Round(order, polls, p)
    ensures Round(order, polls + Polled(Tick(p, size).out), Tick(p, size).p)
  {
    hide Tick;
    TickIs(p, size);
    if order != [] {
      NextPlace(|polls|, |order|);
      Wraps(p.pollIdx, |order|);
    }
    assert polls + [] == polls;
  }

  /** No other event moves the round; with a single station there is only one place for it. */
  lemma OthersKeepRound(size: nat, order: seq<Addr>, polls: seq<Request>, s: Net, e: Event)
    requires Known(s.prim) && Round(order, polls, s.prim) && !e.TickFires?
    ensures Round(order, polls, Step(size, s, e).prim)
  {
    match e {
      case Return => if s.line.Up? { AnswerKeepsRound(s.prim, s.line.resp); }
      case T1Fires =>
      case T3Fires =>
      case Manual(a, fun) =>
      case _ =>
    }
  }

  lemma AnswerKeepsRound(p: Prim, r: Response)
    ensures OnResponse(p, r).p.secOrder == p.secOrder && OnResponse(p, r).p.pollIdx == p.pollIdx
  {
  }

  /** The ticks of any run poll the stations in turn, from the first in the order: the i-th poll goes to order[i % n]. */
  lemma {:induction false} PollsGoRound(size: nat, order: seq<Addr>, es: seq<Event>)
    requires forall a :: a in order ==> !Broadcast(a, size)
    ensures Round(order, Polls(size, order, es), Play(size, order, es).prim)
    decreases |es|
  {
    hide Tick, Step, Round, Inv, Polled;
    if es == [] {
      StartOfRound(order);
    } else {
      var front, e := es[..|es| - 1], es[|es| - 1];
      var s := Play(size, order, front);
      PollsGoRound(size, order, front);
      assert Known(s.prim) by { InvKnows(size, s); }
      if e.TickFires? {
        TickRounds(size, order, Polls(size, order, front), s.prim);
        TickStep(size, s);
      } else {
        OthersKeepRound(size, order, Polls(size, order, front), s, e);
        assert Polls(size, order, front) + [] == Polls(size, order, front);
      }
    }
  }

  lemma StartOfRound(order: seq<Addr>)
    ensures Round(order, [], Start(order).prim)
  {
  }

  lemma InvKnows(size: nat, s: Net)
    requires Inv(size, s)
    ensures Known(s.prim)
  {
  }

  lemma TickStep(size: nat, s: Net)
    requires Known(s.prim)
    ensures Step(size, s, TickFires).prim == Tick(s.prim, size).p
  {
  }

  /** Of as many successive polls as there are stations, each station gets one, and only one if it is listed once. */
  lemma EveryStationPolled(size: nat, order: seq<Addr>, es: seq<Event>, j: nat, k: nat) returns (i: nat)
    requires (forall a :: a in order ==> !Broadcast(a, size)) && k < |order|
    requires j + |order| <= |Polls(size, order, es)|
    ensures j <= i < j + |order| && Polls(size, order, es)[i].addr == order[k]
    ensures (forall x, y :: 0 <= x < y < |order| ==> order[x] != order[y])
            ==> forall m :: j <= m < j + |order| && Polls(size, order, es)[m].addr == order[k] ==> m == i
  {
    hide Polls, Play, Place;
    var polls := Polls(size, order, es);
    PollsGoRound(size, order, es);
    i := Reaches(j, k, |order|);
    forall m | j <= m < j + |order| && Place(m, |order|) == k
      ensures m == i
    {
      if m < i { Apart(m, i, |order|); } else { Apart(i, m, |order|); }
    }
    assert forall m :: 0 <= m < |polls| ==> polls[m].addr == order[Place(m, |order|)];
  }

  /** Every place comes up within one round. */
  lemma {:induction false} Reaches(j: nat, k: nat, m: nat) returns (i: nat)
    requires k < m
    ensures j <= i < j + m && Place(i, m) == k
    decreases j
  {
    if j == 0 {
      i := k;
    } else {
      i := Reaches(j - 1, k, m);
      if i == j - 1 {
        i := i + m;
      }
    }
  }

  /** And not twice. */
  lemma {:induction false} Apart(x: nat, y: nat, m: nat)
    requires m > 0 && x <= y < x + m && Place(x, m) == Place(y, m)
    ensures x == y
    decreases y
  {
    if x >= m {
      Apart(x - m, y - m, m);
    }
  }

  // ---- access demand ----

  /** Whether a station has shown ACD since it last answered a class 1 poll, and was not given up or down since. */
  function Demand(size: nat, order: seq<Addr>, es: seq<Event>, a: Addr): bool
    requires forall b :: b in order ==> !Broadcast(b, size)
    decreases |es|
  {
    if es == [] then false
    else
      var front, e := es[..|es| - 1], es[|es| - 1];
      var s, before := Play(size, order, front), Demand(size, order, front, a);
      if s.prim.lastSent == None || s.prim.lastSent.value.addr != a then before
      else if e.Return? && s.line.Up? then Shown(s.prim.lastSent.value, s.line.resp, before)
      else if e.T1Fires? && s.line.Quiet? then before && s.prim.retryCount == 0
      else before
  }

  function Shown(req: Request, r: Response, before: bool): bool {
    r.acd || (before && r.fun != LinkNF && r.fun != LinkNI && !(req.fun == ReqData1 && Positive(r.fun)))
  }

  ghost predicate Wants(p: Prim, a: Addr, demand: bool) {
    a in p.secs && p.secs[a].wantClass1 == demand
  }

  lemma AnswerShows(p: Prim, r: Response)
    requires p.lastSent.Some? && r.addr == p.lastSent.value.addr && r.addr in p.secs
    ensures var q := OnResponse(p, r).p;
            Wants(q, r.addr, Shown(p.lastSent.value, r, p.secs[r.addr].wantClass1))
            && forall b :: b in p.secs && b != r.addr ==> b in q.secs && q.secs[b] == p.secs[b]
  {
    var a, v := r.addr, p.secs[r.addr].(dfc := r.dfc);
    var q := SetStation(p, a, v);
    assert Answered(q, r).0.secs == q.secs[a := Settling(v, p.lastSent.value, r)];
  }

  /** The primary's record of a station after its answer. */
  function Settling(v: Station, req: Request, r: Response): Station {
    if r.fun == LinkNF || r.fun == LinkNI then Downgraded(v) else if Positive(r.fun) then Confirmed(v, req) else v
  }

  lemma GivenUpDemand(size: nat, s: Net, a: Addr)
    requires Known(s.prim) && s.line.Quiet? && s.prim.lastSent.Some? && a in s.prim.secs
    requires s.prim.lastSent.value.addr in s.prim.secs
    requires |s.prim.secOrder| == 1 ==> s.prim.secs.Keys == {s.prim.secOrder[0]}
    ensures Wants(Step(size, s, T1Fires).prim, a,
                  s.prim.secs[a].wantClass1 && (s.prim.lastSent.value.addr != a || s.prim.retryCount == 0))
  {
    if s.prim.retryCount > 0 && |s.prim.secOrder| == 1 {
      assert a in s.prim.secs.Keys && s.prim.lastSent.value.addr in s.prim.secs.Keys;
    }
  }

  lemma TickKeepsDemand(p: Prim, size: nat, a: Addr)
    requires Known(p) && a in p.secs
    ensures Wants(Tick(p, size).p, a, p.secs[a].wantClass1)
  {
  }

  lemma OtherKeepsDemand(size: nat, s: Net, e: Event, a: Addr)
    requires Known(s.prim) && a in s.prim.secs && !e.Return? && !e.T1Fires?
    ensures Wants(Step(size, s, e).prim, a, s.prim.secs[a].wantClass1)
  {
    if e.TickFires? {
      TickKeepsDemand(s.prim, size, a);
    }
  }

  lemma ReturnShows(size: nat, s: Net, a: Addr)
    requires Wired(size, s) && a in s.prim.secs && s.line.Up?
    ensures
      var req, r := s.prim.lastSent.value, s.line.resp;
      Wants(Step(size, s, Return).prim, a,
            if req.addr == a then Shown(req, r, s.prim.secs[a].wantClass1) else s.prim.secs[a].wantClass1)
  {
    AnswerShows(s.prim, s.line.resp);
  }

  /** The round of a lone station holds the only station there is. */
  lemma {:induction false} OnlyOne(size: nat, order: seq<Addr>, es: seq<Event>)
    requires forall a :: a in order ==> !Broadcast(a, size)
    ensures var p := Play(size, order, es).prim; p.secOrder == order && p.secs.Keys == set a | a in order
  {
    PollsGoRound(size, order, es);
    assert Play(size, order, es).prim.secOrder == order;
  }

  /**
   * A station's class 1 is polled next exactly when it has shown access demand since it last answered a class 1 poll,
   * and has not been given up since.
   */
  lemma {:induction false} PolledOnDemand(size: nat, order: seq<Addr>, es: seq<Event>, a: Addr)
    requires (forall b :: b in order ==> !Broadcast(b, size)) && a in order
    ensures Wants(Play(size, order, es).prim, a, Demand(size, order, es, a))
    decreases |es|
  {
    hide Step, Shown, Inv;
    if es == [] {
    } else {
      var front, e := es[..|es| - 1], es[|es| - 1];
      var s := Play(size, order, front);
      PolledOnDemand(size, order, front, a);
      OnlyOne(size, order, front);
      assert Wired(size, s) by { InvWires(size, s); }
      if e.Return? {
        if s.line.Up? {
          ReturnShows(size, s, a);
        } else {
          Nothing(size, s, Return);
        }
      } else if e.T1Fires? {
        if s.line.Quiet? && s.prim.lastSent.Some? {
          Lone(order);
          GivenUpDemand(size, s, a);
        } else {
          Nothing(size, s, T1Fires);
        }
      } else {
        OtherKeepsDemand(size, s, e, a);
      }
    }
  }

  lemma Lone(order: seq<Addr>)
    ensures |order| == 1 ==> (set a | a in order) == {order[0]}
  {
  }

  lemma InvWires(size: nat, s: Net)
    requires Inv(size, s)
    ensures Wired(size, s)
  {
  }

  lemma Nothing(size: nat, s: Net, e: Event)
    requires Known(s.prim)
    requires (e.Return? && !s.line.Up?) || (e.T1Fires? && (!s.line.Quiet? || s.prim.lastSent == None))
    ensures Step(size, s, e) == s
  {
  }

  lemma AnswerPolls(p: Prim, r: Response)
    requires p.lastSent.Some? && r.addr == p.lastSent.value.addr && r.addr in p.secs
    requires r.acd && Positive(r.fun) && p.secs[r.addr].phase == PhaseActive
    ensures
      var d := OnResponse(p, r);
      |d.out| == 1 && d.out[0].addr == r.addr && d.out[0].fun == ReqData1 && d.p.lastSent == Some(d.out[0])
  {
    var v := p.secs[r.addr].(dfc := r.dfc);
    assert SetStation(p, r.addr, v).secs[r.addr] == v && Confirmed(v, p.lastSent.value).phase == PhaseActive;
  }

  lemma ReturnIs(size: nat, s: Net)
    requires Known(s.prim) && s.line.Up? && s.prim.lastSent.Some? && s.line.resp.addr in s.hist
    requires OnResponse(s.prim, s.line.resp).out != []
    ensures
      var t, d := Step(size, s, Return), OnResponse(s.prim, s.line.resp);
      t.line == Down(d.out[0]) && t.prim == d.p
  {
    hide OnResponse;
  }

  /** A positive answer with ACD on an active link is followed by a class 1 poll of the same station at once. */
  lemma DemandPolledAtOnce(size: nat, s: Net)
    requires Wired(size, s) && s.line.Up? && s.line.resp.acd && Positive(s.line.resp.fun)
    requires s.line.resp.addr in s.prim.secs && s.prim.secs[s.line.resp.addr].phase == PhaseActive
    ensures
      var t := Step(size, s, Return);
      && t.line.Down? && t.line.req.addr == s.line.resp.addr && t.line.req.fun == ReqData1
      && t.prim.lastSent == Some(t.line.req)
  {
    hide OnResponse, Step;
    assert s.line.resp.addr in s.hist.Keys;
    AnswerPolls(s.prim, s.line.resp);
    ReturnIs(size, s);
  }

  // ---- the other timers, and the user ----

  /** The second time T1 finds no answer, the station is given up and asked for its state next; others are left alone. */
  lemma T1Is(size: nat, s: Net, a: Addr)
    requires Wired(size, s) && s.line.Quiet? && s.prim.lastSent.Some? && a == s.prim.lastSent.value.addr
    ensures
      var t := Step(size, s, T1Fires);
      if s.prim.retryCount == 0 then
        t == s.(prim := s.prim.(retryCount := 1), line := Down(s.prim.lastSent.value))
      else
        && t.prim.lastSent == None && t.prim.retryCount == 0 && t.line == Quiet && a in t.prim.secs
        && t.prim.secs[a].phase == PhaseStatus && !t.prim.secs[a].wantClass1
        && t.prim.secOrder == s.prim.secOrder
        && (|s.prim.secOrder| != 1 ==>
              && t.prim.sendQueue == s.prim.sendQueue && t.prim.pollIdx == s.prim.pollIdx
              && forall b :: b in s.prim.secs && b != a ==> b in t.prim.secs && t.prim.secs[b] == s.prim.secs[b])
        && (|s.prim.secOrder| == 1 ==> t.prim.sendQueue == [] && t.prim.secs[a] == STATION_START)
  {
  }

  /** T3 tests the first station of the order whose link is active, if the line is free and there is one. */
  lemma T3Is(p: Prim)
    requires Known(p)
    ensures
      var d := OnT3(p);
      if p.lastSent.Some? || forall a :: a in p.secOrder ==> p.secs[a].phase != PhaseActive then
        d == PrimDone(p, [], [])
      else
        && |d.out| == 1 && d.out[0].fun == TestLink && d.out[0].fcv && d.out[0].addr in p.secs
        && d.p == p.(lastSent := Some(d.out[0]), retryCount := 0)
        && d.out[0].fcb == p.secs[d.out[0].addr].fcb
        && exists i :: 0 <= i < |p.secOrder| && p.secOrder[i] == d.out[0].addr
                       && p.secs[p.secOrder[i]].phase == PhaseActive
                       && forall j :: 0 <= j < i ==> p.secs[p.secOrder[j]].phase != PhaseActive
  {
    FirstIs(p, 0);
  }

  lemma {:induction false} FirstIs(p: Prim, from: nat)
    requires Known(p) && from <= |p.secOrder|
    ensures FirstActive(p, from) == None
            <==> forall i :: from <= i < |p.secOrder| ==> p.secs[p.secOrder[i]].phase != PhaseActive
    ensures FirstActive(p, from).Some?
            ==> exists i :: from <= i < |p.secOrder| && p.secOrder[i] == FirstActive(p, from).value
                            && p.secs[p.secOrder[i]].phase == PhaseActive
                            && forall j :: from <= j < i ==> p.secs[p.secOrder[j]].phase != PhaseActive
    decreases |p.secOrder| - from
  {
    if from < |p.secOrder| {
      FirstIs(p, from + 1);
    }
  }

  /** A request of the user goes out at once on a free line, to a known station; a poll only on an active link. */
  lemma ManualIs(p: Prim, a: Addr, fun: PrimFc)
    requires fun == ResetLink || fun == ReqStatus || fun == ReqData2
    ensures
      var d := OnManual(p, a, fun);
      if p.lastSent.Some? || a !in p.secs || (fun == ReqData2 && p.secs[a].phase != PhaseActive) then
        d == PrimDone(p, [], [])
      else
        && d.out == [Request(a, fun, fun == ReqData2, fun == ReqData2 && p.secs[a].fcb, [])]
        && d.dispatched == []
        && d.p == p.(lastSent := Some(d.out[0]), retryCount := 0,
                     secs := p.secs[a := if fun == ResetLink then p.secs[a].(phase := PhaseReset) else p.secs[a]])
  {
    if a in p.secs {
      assert p.secs[a := p.secs[a]] == p.secs;
    }
  }

  // ---- what an answer does to the record of a station ----

  /**
   * The link of a station advances only by positive answers, step by step: its state is known, then its reset is
   * confirmed; a refusal takes it back to the beginning, and a busy answer changes nothing but the flow control bit.
   */
  lemma AnswerRecords(p: Prim, r: Response)
    requires p.lastSent.Some? && r.addr == p.lastSent.value.addr && r.addr in p.secs
    ensures
      var req, v, q := p.lastSent.value, p.secs[r.addr], OnResponse(p, r).p;
      && r.addr in q.secs
      && var w := q.secs[r.addr];
         && w.dfc == r.dfc
         && w.phase == (if r.fun == LinkNF || r.fun == LinkNI then PhaseStatus
                        else if !Positive(r.fun) then v.phase
                        else if req.fun == ResetLink then PhaseActive
                        else if req.fun == ReqStatus && v.phase == PhaseStatus then PhaseReset
                        else v.phase)
         && w.fcb == (if !Positive(r.fun) then v.fcb
                      else if req.fun == ResetLink then true
                      else if req.fcv then !req.fcb else v.fcb)
         && (r.fun == ConfNack && !r.acd ==> q.lastSent == p.lastSent && q.retryCount == p.retryCount)
  {
    var a, v := r.addr, p.secs[r.addr].(dfc := r.dfc);
    var q := SetStation(p, a, v);
    assert Answered(q, r).0.secs == q.secs[a := Settling(v, p.lastSent.value, r)];
  }

  /** Only user data is handed to the application, and all of it. */
  lemma AnswerDispatches(p: Prim, r: Response)
    ensures OnResponse(p, r).dispatched == if r.addr in p.secs && r.fun == UserData then [r.asdu] else []
  {
  }

  /** An answer of a station that was not asked is noted in its record, and changes nothing else. */
  lemma StrayAnswer(p: Prim, r: Response)
    requires p.lastSent.Some? && r.addr != p.lastSent.value.addr && r.addr in p.secs
    ensures
      var d, v := OnResponse(p, r), p.secs[r.addr];
      d.out == [] && d.p == p.(secs := p.secs[r.addr := v.(dfc := r.dfc, wantClass1 := v.wantClass1 || r.acd)])
  {
    var v := p.secs[r.addr];
    assert p.secs[r.addr := v.(dfc := r.dfc)][r.addr := v.(dfc := r.dfc, wantClass1 := true)]
        == p.secs[r.addr := v.(dfc := r.dfc, wantClass1 := true)];
  }
}
