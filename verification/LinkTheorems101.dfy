/** What every run of a primary and its stations over the lossy line guarantees. */
module LinkTheorems101 {
  import opened Octets
  import opened Link101
  import opened SendQueue101
  import opened LinkNet101
  import opened LinkProof101

  /** Just connected: no link established, no history. */
  function Start(order: seq<Addr>): Net {
    Net(Prim(map a | a in order :: STATION_START, order, 0, None, 0, []),
        map a | a in order :: SEC_START, Quiet, map a | a in order :: NO_HIST)
  }

  /** The state after a list of events, each an arbitrary choice of the environment. */
  function Play(size: nat, order: seq<Addr>, es: seq<Event>): Net
    requires forall a :: a in order ==> !Broadcast(a, size)
    ensures Inv(size, Play(size, order, es))
    ensures Play(size, order, es).prim.secs.Keys == set a | a in order
    decreases |es|
  {
    if es == [] then
      StartHolds(size, order);
      Start(order)
    else
      var s := Play(size, order, es[..|es| - 1]);
      StepKeeps(size, s, es[|es| - 1]);
      StepKeepsStations(size, s, es[|es| - 1]);
      Step(size, s, es[|es| - 1])
  }

  lemma StartHolds(size: nat, order: seq<Addr>)
    requires forall a :: a in order ==> !Broadcast(a, size)
    ensures Inv(size, Start(order))
  {
    var s := Start(order);
    forall a | a in s.prim.secs
      ensures Sound(SideOf(s, a))
    {
      assert SideOf(s, a) == Side(STATION_START, SEC_START, None, Quiet, [], NO_HIST);
    }
  }

  lemma SettlingKeepsStations(p: Prim, r: Response)
    ensures Answered(p, r).0.secs.Keys == p.secs.Keys
  {
  }

  lemma AnswerKeepsStations(p: Prim, r: Response)
    ensures OnResponse(p, r).p.secs.Keys == p.secs.Keys
  {
    if r.addr in p.secs {
      SettlingKeepsStations(SetStation(p, r.addr, p.secs[r.addr].(dfc := r.dfc)), r);
    }
  }

  lemma T1KeepsStations(p: Prim, a: Addr)
    ensures FailTransaction(p, a).secs.Keys == p.secs.Keys
  {
  }

  lemma TimerKeepsStations(size: nat, p: Prim, e: Event)
    requires Known(p) && NoBroadcast(size, p.sendQueue)
    ensures Tick(p, size).p.secs.Keys == OnT3(p).p.secs.Keys == p.secs.Keys
    ensures e.Manual? ==> OnManual(p, e.a, e.fun).p.secs.Keys == p.secs.Keys
  {
    if p.lastSent == None {
      TickLaunches(p, size);
      T3Launches(p);
      if e.Manual? {
        ManualLaunches(p, e.a, e.fun);
      }
    }
  }

  lemma StepKeepsStations(size: nat, s: Net, e: Event)
    requires Known(s.prim) && NoBroadcast(size, s.prim.sendQueue)
    ensures Step(size, s, e).prim.secs.Keys == s.prim.secs.Keys
  {
    match e {
      case Return =>
        if s.line.Up? { AnswerKeepsStations(s.prim, s.line.resp); }
      case T1Fires =>
        if s.prim.lastSent.Some? { T1KeepsStations(s.prim, s.prim.lastSent.value.addr); }
      case TickFires => TimerKeepsStations(size, s.prim, e);
      case T3Fires => TimerKeepsStations(size, s.prim, e);
      case Manual(_, _) => TimerKeepsStations(size, s.prim, e);
      case _ =>
    }
  }

  lemma SoundAt(size: nat, order: seq<Addr>, es: seq<Event>, a: Addr)
    requires (forall b :: b in order ==> !Broadcast(b, size)) && a in order
    ensures var s := Play(size, order, es); a in s.prim.secs && a in s.sts && a in s.hist && Sound(SideOf(s, a))
  {
    var s := Play(size, order, es);
    assert a in s.prim.secs.Keys;
  }

  /**
   * User data is handed to the station's application at most once and in the order it was first
   * sent, and a positive confirm means it was handed over; what waits follows in order.
   */
  lemma UserDataOnceInOrder(size: nat, order: seq<Addr>, es: seq<Event>, a: Addr)
    requires (forall b :: b in order ==> !Broadcast(b, size)) && a in order
    ensures var s := Play(size, order, es);
            var h := s.hist[a];
            && |h.got| == |h.conf| == |h.tx|
            && h.handed == Pick(h.tx, h.got)
            && (forall i :: 0 <= i < |h.tx| && h.conf[i] ==> h.got[i])
            && h.accepted == h.tx + ForStation(a, s.prim.sendQueue)
  {
    SoundAt(size, order, es, a);
  }

  /**
   * Polled data is dispatched at most once and in the order it left the station, each class keeps
   * its order, and every ASDU the station accepted is still buffered or was put on the line.
   */
  lemma PolledDataOnceInOrder(size: nat, order: seq<Addr>, es: seq<Event>, a: Addr)
    requires (forall b :: b in order ==> !Broadcast(b, size)) && a in order
    ensures var s := Play(size, order, es);
            var h := s.hist[a];
            && |h.taken| == |h.popped|
            && h.dispatched == Pick(AsdusOf(h.popped), h.taken)
            && h.in1 == PoppedOf(true, h.popped) + s.sts[a].class1
            && h.in2 == PoppedOf(false, h.popped) + s.sts[a].class2
  {
    SoundAt(size, order, es, a);
  }

  /** An active link with nothing outstanding: both ends expect the same FCB next. */
  lemma FcbsAgree(size: nat, order: seq<Addr>, es: seq<Event>, a: Addr)
    requires (forall b :: b in order ==> !Broadcast(b, size)) && a in order
    ensures var s := Play(size, order, es);
            s.prim.secs[a].phase == PhaseActive && (s.prim.lastSent == None || s.prim.lastSent.value.addr != a)
            ==> s.prim.secs[a].fcb == s.sts[a].fcbExpected
  {
    SoundAt(size, order, es, a);
  }

  lemma {:induction false} AllMarked<T>(xs: seq<T>, marks: seq<bool>)
    requires |xs| == |marks| && CountUnmarked(marks) == 0
    ensures Pick(xs, marks) == xs
  {
    if xs != [] {
      var n := |xs| - 1;
      AllMarked(xs[..n], marks[..n]);
      assert xs == xs[..n] + [xs[n]];
    }
  }

  lemma {:induction false} PickLength<T>(xs: seq<T>, marks: seq<bool>)
    requires |xs| == |marks|
    ensures |Pick(xs, marks)| == |xs| - CountUnmarked(marks)
  {
    if xs != [] {
      var n := |xs| - 1;
      PickLength(xs[..n], marks[..n]);
    }
  }

  /**
   * Nothing disappears: what was polled out of a station's buffers was dispatched, or is on its way,
   * or its poll was given up; user data is unconfirmed only if its transaction was given up or is open.
   */
  lemma EveryLossIsAGiveUp(size: nat, order: seq<Addr>, es: seq<Event>, a: Addr)
    requires (forall b :: b in order ==> !Broadcast(b, size)) && a in order
    ensures var s := Play(size, order, es);
            var h := s.hist[a];
            && |h.popped| == |h.dispatched| + h.pollsLost + One(PopPending(SideOf(s, a)))
            && |h.tx| - |h.handed| <= CountUnmarked(h.conf)
            && CountUnmarked(h.conf)
               == h.unconfirmed + One(s.prim.lastSent.Some? && s.prim.lastSent.value.addr == a
                                      && s.prim.lastSent.value.fun == UserDataConf)
  {
    SoundAt(size, order, es, a);
    var h := Play(size, order, es).hist[a];
    PickLength(h.tx, h.got);
    PickLength(AsdusOf(h.popped), h.taken);
    ConfirmedHanded(h.tx, h.got, h.conf);
  }

  /**
   * With nothing outstanding, the dispatched ASDUs are all the polled ones exactly when no poll was given up too
   * late.
   */
  lemma PolledAllDispatchedExactlyWhen(size: nat, order: seq<Addr>, es: seq<Event>, a: Addr)
    requires (forall b :: b in order ==> !Broadcast(b, size)) && a in order
    ensures var s := Play(size, order, es);
            var h := s.hist[a];
            s.prim.lastSent == None || s.prim.lastSent.value.addr != a
            ==> (h.dispatched == AsdusOf(h.popped) <==> h.pollsLost == 0)
                && (h.unconfirmed == 0 ==> h.handed == h.tx)
  {
    SoundAt(size, order, es, a);
    var s := Play(size, order, es);
    var h := s.hist[a];
    PickLength(AsdusOf(h.popped), h.taken);
    if h.pollsLost == 0 && CountUnmarked(h.taken) == 0 {
      AllMarked(AsdusOf(h.popped), h.taken);
    }
    ConfirmedHanded(h.tx, h.got, h.conf);
  }

  lemma {:induction false} ConfirmedHanded<T>(xs: seq<T>, got: seq<bool>, conf: seq<bool>)
    requires |xs| == |got| == |conf| && forall i :: 0 <= i < |xs| && conf[i] ==> got[i]
    ensures CountUnmarked(got) <= CountUnmarked(conf)
    ensures CountUnmarked(conf) == 0 ==> Pick(xs, got) == xs
  {
    if xs != [] {
      var n := |xs| - 1;
      ConfirmedHanded(xs[..n], got[..n], conf[..n]);
      assert xs == xs[..n] + [xs[n]];
    }
  }

  /** What Reach does when the station's part of it is known. */
  lemma ReachIs(size: nat, s: Net, a: Addr, d: SecDone)
    requires Wired(size, s) && s.line.Down? && a == s.line.req.addr && d == SecOnRequest(a, s.sts[a], s.line.req)
    ensures Step(size, s, Reach)
            == s.(sts := s.sts[a := d.st], line := if d.resp.Some? then Up(d.resp.value) else Quiet,
                  hist := s.hist[a := Served(s.hist[a], d)])
  {
    assert SecReceive(a, size, s.sts[a], s.line.req) == d;
  }

  lemma NothingServed(h: Hist, d: SecDone)
    requires d.handed == [] && d.popped == []
    ensures Served(h, d) == h
  {
  }

  lemma RepetitionIs(size: nat, s: Net, a: Addr)
    requires Wired(size, s) && s.line.Down? && a == s.line.req.addr && Sound(SideOf(s, a))
    requires s.line.req.fcv && s.line.req.fcb != s.sts[a].fcbExpected
    ensures s.sts[a].lastResp.Some? && Step(size, s, Reach) == s.(line := Up(s.sts[a].lastResp.value))
  {
    var d := SecDone(s.sts[a], s.sts[a].lastResp, [], []);
    assert s.sts[a].lastResp.Some? by { ReachRepeated(a, SideOf(s, a)); }
    ReachIs(size, s, a, d);
    NothingServed(s.hist[a], d);
    assert s.hist[a := s.hist[a]] == s.hist && s.sts[a := s.sts[a]] == s.sts;
  }

  /**
   * A repetition of a frame the station has taken already: the kept answer goes out again, and the
   * station changes nothing, hands nothing over and takes nothing out of its buffers.
   */
  lemma RepetitionRepeatsAnswer(size: nat, order: seq<Addr>, es: seq<Event>, s: Net, a: Addr)
    requires forall b :: b in order ==> !Broadcast(b, size)
    requires s == Play(size, order, es) && s.line.Down? && a == s.line.req.addr && a in s.sts
    requires s.line.req.fcv && s.line.req.fcb != s.sts[a].fcbExpected
    ensures s.sts[a].lastResp.Some? && Step(size, s, Reach) == s.(line := Up(s.sts[a].lastResp.value))
  {
    RepetitionIs(size, s, a);
  }

  /** An outstanding user data frame that reaches its station is handed over exactly once and acknowledged. */
  lemma HandsOver(own: Addr, x: Side)
    requires Sound(x) && x.line.Down? && x.out == Some(x.line.req) && x.line.req.fun == UserDataConf
        && x.line.req.addr == own
    ensures var d := SecOnRequest(own, x.st, x.line.req);
            && d.resp.Some? && d.resp.value.fun == ConfAck && d.resp.value.addr == own
            && Served(x.h, d) == x.h.(got := SetLast(x.h.got), handed := Pick(x.h.tx, SetLast(x.h.got)))
  {
    var d := SecOnRequest(own, x.st, x.line.req);
    if Processed(x) {
      ReachRepeated(own, x);
      NothingServed(x.h, d);
      assert SetLast(x.h.got) == x.h.got;
    } else {
      PickSetLast(x.h.tx, x.h.got);
      assert Served(x.h, d) == x.h.(got := SetLast(x.h.got), handed := x.h.handed + [x.line.req.asdu]);
    }
  }

  lemma ReachHandsOver(size: nat, s: Net, a: Addr)
    requires Wired(size, s) && s.line.Down? && a == s.line.req.addr && Sound(SideOf(s, a))
    requires s.line.req.fun == UserDataConf
    ensures var t := Step(size, s, Reach);
            var h := s.hist[a];
            && t.prim == s.prim && t.line.Up? && t.line.resp.addr == a && t.line.resp.fun == ConfAck
            && t.hist == s.hist[a := h.(got := SetLast(h.got), handed := Pick(h.tx, SetLast(h.got)))]
  {
    HandsOver(a, SideOf(s, a));
    ReachIs(size, s, a, SecOnRequest(a, s.sts[a], s.line.req));
  }

  lemma ReturnConfirms(size: nat, s: Net, a: Addr)
    requires Wired(size, s) && s.line.Up? && s.line.resp.addr == a && s.line.resp.fun == ConfAck
    requires s.prim.lastSent.Some? && s.prim.lastSent.value.fun == UserDataConf
    ensures a in s.hist && a in Step(size, s, Return).hist
    ensures Step(size, s, Return).hist[a] == s.hist[a].(conf := SetLast(s.hist[a].conf))
  {
    OnResponseSplits(s, s.line.resp);
    var h := s.hist[a];
    assert Settled(h, s.prim.lastSent.value, s.line.resp, []) == h.(conf := SetLast(h.conf));
  }

  lemma AgainIs(size: nat, s: Net)
    requires Known(s.prim) && s.line.Quiet? && s.prim.lastSent.Some? && s.prim.retryCount == 0
    ensures Step(size, s, T1Fires) == s.(prim := s.prim.(retryCount := 1), line := Down(s.prim.lastSent.value))
  {
  }

  /**
   * The retry repairs one loss, wherever it happened: with a confirmed user data frame outstanding
   * and the line dead, T1 and an undisturbed exchange hand the data over once and confirm it.
   */
  lemma RetryRepairsLoss(size: nat, s: Net, a: Addr)
    requires Inv(size, s) && s.line.Quiet? && s.prim.retryCount == 0
    requires s.prim.lastSent.Some? && s.prim.lastSent.value.fun == UserDataConf && a == s.prim.lastSent.value.addr
    ensures var s1 := Step(size, s, T1Fires);
            && Inv(size, s1) && Inv(size, Step(size, s1, Reach))
            && var t := Step(size, Step(size, s1, Reach), Return);
            && a in s.hist && a in t.hist
            && var h := s.hist[a];
            t.hist[a] == h.(conf := SetLast(h.conf), got := SetLast(h.got), handed := Pick(h.tx, SetLast(h.got)))
  {
    var s1 := Step(size, s, T1Fires);
    StepKeeps(size, s, T1Fires);
    StepKeeps(size, s1, Reach);
    AgainIs(size, s);
    ReachHandsOver(size, s1, a);
    ReturnConfirms(size, Step(size, s1, Reach), a);
  }
}
