/** Every event on the line keeps every station's books and the agreement of the two FCBs. */
module LinkProof101 {
  import opened Octets
  import opened Link101
  import opened SendQueue101
  import opened LinkNet101

  // ---- marks and logs ----

  lemma PickSnoc<T>(xs: seq<T>, marks: seq<bool>, x: T, b: bool)
    requires |xs| == |marks|
    ensures Pick(xs + [x], marks + [b]) == Pick(xs, marks) + (if b then [x] else [])
  {
    assert (xs + [x])[..|xs|] == xs && (marks + [b])[..|xs|] == marks;
  }

  lemma PickSetLast<T>(xs: seq<T>, marks: seq<bool>)
    requires |xs| == |marks| > 0 && !marks[|xs| - 1]
    ensures Pick(xs, SetLast(marks)) == Pick(xs, marks) + [xs[|xs| - 1]]
  {
    var n := |xs| - 1;
    assert SetLast(marks)[..n] == marks[..n];
    assert Pick(xs, marks) == Pick(xs[..n], marks[..n]);
  }

  lemma CountSnoc(marks: seq<bool>, b: bool)
    ensures CountUnmarked(marks + [b]) == CountUnmarked(marks) + (if b then 0 else 1)
  {
    assert (marks + [b])[..|marks|] == marks;
  }

  lemma CountSetLast(marks: seq<bool>)
    requires marks != [] && !marks[|marks| - 1]
    ensures CountUnmarked(SetLast(marks)) == CountUnmarked(marks) - 1
  {
    assert SetLast(marks)[..|marks| - 1] == marks[..|marks| - 1];
  }

  lemma PoppedSnoc(class1: bool, ps: seq<Pop>, p: Pop)
    ensures PoppedOf(class1, ps + [p]) == PoppedOf(class1, ps) + (if p.class1 == class1 then [p.asdu] else [])
  {
    assert (ps + [p])[..|ps|] == ps;
  }

  lemma AsdusSnoc(ps: seq<Pop>, p: Pop)
    ensures AsdusOf(ps + [p]) == AsdusOf(ps) + [p.asdu]
  {
  }

  // ---- one station's part ----

  /** One more user data frame on the line, not taken and not confirmed yet. */
  lemma TransmitBooks(h: Hist, st: Sec, queued: seq<Bytes>, asdu: Bytes)
    requires Books(h, st, [asdu] + queued)
    ensures Books(h.(tx := h.tx + [asdu], got := h.got + [false], conf := h.conf + [false]), st, queued)
    ensures CountUnmarked(h.conf + [false]) == CountUnmarked(h.conf) + 1
  {
    PickSnoc(h.tx, h.got, asdu, false);
    CountSnoc(h.conf, false);
    assert h.tx + ([asdu] + queued) == (h.tx + [asdu]) + queued;
  }

  /** A first transmission to a station with nothing outstanding. */
  lemma SendSound(x: Side, v: Station, req: Request, queued: seq<Bytes>)
    requires Sound(x) && x.out == None
    requires req.fun == ResetLink || req.fun == ReqStatus || Counted(req.fun)
    requires req.fcv == Counted(req.fun)
    requires req.fun == ResetLink ==> v.phase == PhaseReset
    requires req.fun != ResetLink ==> v.phase == x.v.phase && v.fcb == x.v.fcb
    requires req.fcv ==> v.phase == PhaseActive && req.fcb == v.fcb
    requires x.queued == (if req.fun == UserDataConf then [req.asdu] else []) + queued
    ensures Sound(Side(v, x.st, Some(req), Down(req), queued, Transmitted(x.h, req)))
  {
    var y := Side(v, x.st, Some(req), Down(req), queued, Transmitted(x.h, req));
    if req.fun == UserDataConf {
      TransmitBooks(x.h, x.st, queued, req.asdu);
    } else {
      assert x.queued == queued && y.h == x.h;
    }
    assert !Processed(y);
  }

  /** One more entry in the log of popped ASDUs, not dispatched yet. */
  lemma LogPop(popped: seq<Pop>, taken: seq<bool>, p: Pop)
    requires |popped| == |taken|
    ensures Pick(AsdusOf(popped + [p]), taken + [false]) == Pick(AsdusOf(popped), taken)
    ensures PoppedOf(true, popped + [p]) == PoppedOf(true, popped) + (if p.class1 then [p.asdu] else [])
    ensures PoppedOf(false, popped + [p]) == PoppedOf(false, popped) + (if p.class1 then [] else [p.asdu])
    ensures CountUnmarked(taken + [false]) == CountUnmarked(taken) + 1
  {
    PoppedSnoc(true, popped, p);
    PoppedSnoc(false, popped, p);
    AsdusSnoc(popped, p);
    PickSnoc(AsdusOf(popped), taken, p.asdu, false);
    CountSnoc(taken, false);
  }

  lemma HeadMoves<T>(front: seq<T>, q: seq<T>)
    requires q != []
    ensures (front + [q[0]]) + q[1..] == front + q
  {
  }

  /** What a class lost at its head is what the log of its pops gained at its end. */
  lemma PopConserves(s: Sec, wantClass1: bool, popped: seq<Pop>)
    ensures var (t, pop) := Link101.PopClassData(s, wantClass1);
            && t == s.(class1 := t.class1, class2 := t.class2)
            && (pop == None ==> t == s)
            && (pop.Some? ==>
                  && PoppedOf(true, popped + [pop.value]) + t.class1 == PoppedOf(true, popped) + s.class1
                  && PoppedOf(false, popped + [pop.value]) + t.class2 == PoppedOf(false, popped) + s.class2)
  {
    var front1, front2 := PoppedOf(true, popped), PoppedOf(false, popped);
    if s.class1 != [] && (wantClass1 || s.class2 == []) {
      var p := Pop(true, s.class1[0]);
      PoppedSnoc(true, popped, p);
      PoppedSnoc(false, popped, p);
      HeadMoves(front1, s.class1);
      assert front2 + [] == front2;
    } else if s.class2 != [] {
      var p := Pop(false, s.class2[0]);
      PoppedSnoc(true, popped, p);
      PoppedSnoc(false, popped, p);
      HeadMoves(front2, s.class2);
      assert front1 + [] == front1;
    }
  }

  /** The station answers a poll it has not seen before. */
  lemma PopKeepsBooks(own: Addr, h: Hist, st: Sec, queued: seq<Bytes>, wantClass1: bool)
    requires Books(h, st, queued)
    ensures var d := RespondClassData(own, st, wantClass1);
            && Books(Served(h, d), d.st, queued)
            && d.st.fcbExpected == st.fcbExpected && d.st.lastResp == d.resp && d.resp.Some? && d.handed == []
            && d.resp.value.addr == own
            && (if d.popped == [] then d.resp.value.fun == NoData && Served(h, d) == h
                else d.resp.value.fun == UserData && LastPop(Served(h, d), d.resp.value.asdu)
                     && CountUnmarked(Served(h, d).taken) == CountUnmarked(h.taken) + 1)
  {
    var d := RespondClassData(own, st, wantClass1);
    PopConserves(st, wantClass1, h.popped);
    if d.popped != [] {
      var p := d.popped[0];
      assert d.popped == [p];
      assert Served(h, d) == h.(popped := h.popped + [p], taken := h.taken + [false]);
      LogPop(h.popped, h.taken, p);
    } else {
      assert Served(h, d) == h;
    }
  }

  /** Side of a station after the request on the line has reached it. */
  function ReachSide(own: Addr, x: Side, d: SecDone): Side {
    x.(st := d.st, line := if d.resp.Some? then Up(d.resp.value) else Quiet, h := Served(x.h, d))
  }

  /** A repetition: the kept answer again, and nothing else happens. */
  lemma ReachRepeated(own: Addr, x: Side)
    requires Sound(x) && x.line.Down? && x.out == Some(x.line.req) && Processed(x)
    ensures var d := SecOnRequest(own, x.st, x.line.req);
            d == SecDone(x.st, x.st.lastResp, [], []) && d.resp.Some? && Sound(ReachSide(own, x, d))
  {
    var d := SecOnRequest(own, x.st, x.line.req);
    assert Served(x.h, d) == x.h;
  }

  lemma HandBooks(h: Hist, st: Sec, queued: seq<Bytes>)
    requires Books(h, st, queued) && h.tx != [] && !h.got[|h.tx| - 1] && !h.conf[|h.tx| - 1]
    ensures Books(h.(got := SetLast(h.got), handed := h.handed + [h.tx[|h.tx| - 1]]), st, queued)
  {
    PickSetLast(h.tx, h.got);
  }

  lemma ReachUserData(own: Addr, x: Side)
    requires Sound(x) && x.line.Down? && x.out == Some(x.line.req) && !Processed(x)
    requires x.line.req.fun == UserDataConf && x.line.req.addr == own
    ensures Sound(ReachSide(own, x, SecOnRequest(own, x.st, x.line.req)))
  {
    var d := SecOnRequest(own, x.st, x.line.req);
    HandBooks(x.h, x.st, x.queued);
    assert Served(x.h, d) == x.h.(got := SetLast(x.h.got), handed := x.h.handed + [x.line.req.asdu]);
  }

  lemma ReachPoll(own: Addr, x: Side)
    requires Sound(x) && x.line.Down? && x.out == Some(x.line.req) && !Processed(x)
    requires Polls(x.line.req.fun) && x.line.req.addr == own
    ensures Sound(ReachSide(own, x, SecOnRequest(own, x.st, x.line.req)))
  {
    var st := x.st.(fcbExpected := !x.st.fcbExpected);
    var d := RespondClassData(own, st, x.line.req.fun == ReqData1);
    assert SecOnRequest(own, x.st, x.line.req) == d;
    assert Books(x.h, st, x.queued);
    PopKeepsBooks(own, x.h, st, x.queued, x.line.req.fun == ReqData1);
    assert Served(x.h, d).conf == x.h.conf && Served(x.h, d).unconfirmed == x.h.unconfirmed
        && Served(x.h, d).pollsLost == x.h.pollsLost;
  }

  lemma ReachOther(own: Addr, x: Side)
    requires Sound(x) && x.line.Down? && x.out == Some(x.line.req) && !Processed(x)
    requires !Polls(x.line.req.fun) && x.line.req.fun != UserDataConf && x.line.req.addr == own
    ensures Sound(ReachSide(own, x, SecOnRequest(own, x.st, x.line.req)))
  {
    var d := SecOnRequest(own, x.st, x.line.req);
    assert Served(x.h, d) == x.h;
  }

  lemma ReachSound(own: Addr, x: Side)
    requires Sound(x) && x.line.Down? && x.out.Some? && x.line.req.addr == own
    ensures var d := SecOnRequest(own, x.st, x.line.req);
            Sound(ReachSide(own, x, d)) && (d.resp.Some? ==> d.resp.value.addr == own)
  {
    if Processed(x) {
      ReachRepeated(own, x);
    } else if x.line.req.fun == UserDataConf {
      ReachUserData(own, x);
    } else if Polls(x.line.req.fun) {
      ReachPoll(own, x);
    } else {
      ReachOther(own, x);
    }
  }

  /** The answer reaches the primary: the transaction is settled, the line is free. */
  function SettledSide(x: Side, r: Response): Side
    requires x.out.Some?
  {
    x.(v := Confirmed(x.v.(dfc := r.dfc), x.out.value), out := None, line := Quiet,
       h := Settled(x.h, x.out.value, r, if r.fun == UserData then [r.asdu] else []))
  }

  lemma ConfirmBooks(h: Hist, st: Sec, queued: seq<Bytes>)
    requires Books(h, st, queued) && h.tx != [] && h.got[|h.tx| - 1] && !h.conf[|h.tx| - 1]
    ensures Books(h.(conf := SetLast(h.conf)), st, queued)
    ensures CountUnmarked(SetLast(h.conf)) == CountUnmarked(h.conf) - 1
  {
    CountSetLast(h.conf);
  }

  lemma SettleUserData(x: Side, r: Response)
    requires Sound(x) && x.line == Up(r) && x.out.Some? && x.out.value.fun == UserDataConf
    ensures Sound(SettledSide(x, r))
  {
    ConfirmBooks(x.h, x.st, x.queued);
    assert SettledSide(x, r).h == x.h.(conf := SetLast(x.h.conf));
  }

  lemma DispatchBooks(h: Hist, st: Sec, queued: seq<Bytes>, asdu: Bytes)
    requires Books(h, st, queued) && LastPop(h, asdu)
    ensures Books(h.(taken := SetLast(h.taken), dispatched := h.dispatched + [asdu]), st, queued)
    ensures CountUnmarked(SetLast(h.taken)) == CountUnmarked(h.taken) - 1
  {
    CountSetLast(h.taken);
    PickSetLast(AsdusOf(h.popped), h.taken);
  }

  lemma SettlePoll(x: Side, r: Response)
    requires Sound(x) && x.line == Up(r) && x.out.Some? && Polls(x.out.value.fun)
    ensures Sound(SettledSide(x, r))
  {
    if r.fun == UserData {
      assert PopPending(x);
      DispatchBooks(x.h, x.st, x.queued, r.asdu);
      assert SettledSide(x, r).h == x.h.(taken := SetLast(x.h.taken), dispatched := x.h.dispatched + [r.asdu]);
    } else {
      assert SettledSide(x, r).h == x.h;
    }
  }

  lemma SettleOther(x: Side, r: Response)
    requires Sound(x) && x.line == Up(r) && x.out.Some?
    requires !Polls(x.out.value.fun) && x.out.value.fun != UserDataConf
    ensures Sound(SettledSide(x, r))
  {
    assert SettledSide(x, r).h == x.h;
  }

  lemma SettleSound(x: Side, r: Response)
    requires Sound(x) && x.line == Up(r) && x.out.Some?
    ensures Sound(SettledSide(x, r)) && Positive(r.fun) && r.addr == x.out.value.addr
  {
    if x.out.value.fun == UserDataConf {
      SettleUserData(x, r);
    } else if Polls(x.out.value.fun) {
      SettlePoll(x, r);
    } else {
      SettleOther(x, r);
    }
  }

  lemma LineSound(x: Side)
    requires Sound(x)
    ensures Sound(x.(line := Quiet))
    ensures x.out.Some? ==> Sound(x.(line := Down(x.out.value)))
  {
  }

  lemma GiveUpSound(x: Side)
    requires Sound(x) && x.out.Some?
    ensures Sound(x.(v := Downgraded(x.v), out := None, line := Quiet, h := AfterGivingUp(x)))
  {
  }

  lemma FreshSound(x: Side)
    requires Sound(x) && x.out == None
    ensures Sound(x.(v := STATION_START, queued := [], h := x.h.(accepted := x.h.tx)))
  {
  }

  lemma UserSendSound(x: Side, asdu: Bytes)
    requires Sound(x)
    ensures Sound(x.(queued := x.queued + [asdu], h := x.h.(accepted := x.h.accepted + [asdu])))
  {
  }

  lemma Class1SendSound(x: Side, asdu: Bytes)
    requires Sound(x)
    ensures Sound(x.(st := x.st.(class1 := x.st.class1 + [asdu]), h := x.h.(in1 := x.h.in1 + [asdu])))
  {
  }

  lemma Class2SendSound(x: Side, asdu: Bytes)
    requires Sound(x)
    ensures Sound(x.(st := x.st.(class2 := x.st.class2 + [asdu]), h := x.h.(in2 := x.h.in2 + [asdu])))
  {
  }

  // ---- the whole line ----

  /** What the primary may do on a free line: nothing, or one first transmission of a confirmed frame. */
  ghost predicate Launch(p: Prim, d: PrimDone) {
    && p.lastSent == None && d.p.secOrder == p.secOrder && d.p.secs.Keys == p.secs.Keys && Known(d.p)
    && (forall e :: e in d.p.sendQueue ==> e in p.sendQueue)
    && (if d.out == [] then
          d.p.lastSent == None && d.p.secs == p.secs
          && forall a :: a in p.secs ==> ForStation(a, d.p.sendQueue) == ForStation(a, p.sendQueue)
        else
          && |d.out| == 1 && d.out[0].addr in p.secs && d.p.lastSent == Some(d.out[0])
          && LaunchTo(p, d.p, d.out[0]))
  }

  ghost predicate LaunchTo(p: Prim, q: Prim, req: Request)
    requires req.addr in p.secs && q.secs.Keys == p.secs.Keys
  {
    var v, w := q.secs[req.addr], p.secs[req.addr];
    && (req.fun == ResetLink || req.fun == ReqStatus || Counted(req.fun))
    && req.fcv == Counted(req.fun)
    && (req.fun == ResetLink ==> v.phase == PhaseReset)
    && (req.fun != ResetLink ==> v.phase == w.phase && v.fcb == w.fcb)
    && (req.fcv ==> v.phase == PhaseActive && req.fcb == v.fcb)
    && (forall a :: a in p.secs && a != req.addr ==> q.secs[a] == p.secs[a])
    && (forall a :: a in p.secs ==>
          ForStation(a, p.sendQueue)
          == (if req.fun == UserDataConf && a == req.addr then [req.asdu] else []) + ForStation(a, q.sendQueue))
  }

  /** The side of a station after a launch. */
  function LaunchedSide(x: Side, q: Prim, a: Addr, req: Request): Side
    requires a in q.secs
  {
    Side(q.secs[a], x.st, Some(req), Down(req), ForStation(a, q.sendQueue), Transmitted(x.h, req))
  }

  lemma LaunchedSideOf(size: nat, s: Net, d: PrimDone, a: Addr)
    requires Wired(size, s) && Launch(s.prim, d) && a in s.prim.secs
    ensures Wired(size, PrimDid(s, d))
    ensures SideOf(PrimDid(s, d), a)
            == if d.out != [] && d.out[0].addr == a then LaunchedSide(SideOf(s, a), d.p, a, d.out[0]) else SideOf(s, a)
  {
  }

  lemma LaunchedSound(x: Side, p: Prim, q: Prim, a: Addr, req: Request)
    requires Sound(x) && x.out == None && a in p.secs && q.secs.Keys == p.secs.Keys && req.addr == a
    requires LaunchTo(p, q, req) && x.v == p.secs[a] && x.queued == ForStation(a, p.sendQueue)
    ensures Sound(LaunchedSide(x, q, a, req))
  {
    SendSound(x, q.secs[a], req, ForStation(a, q.sendQueue));
  }

  lemma LaunchKeepsWired(size: nat, s: Net, d: PrimDone)
    requires Wired(size, s) && Launch(s.prim, d)
    ensures Wired(size, PrimDid(s, d))
  {
  }

  lemma LaunchKeeps(size: nat, s: Net, d: PrimDone)
    requires Inv(size, s) && Launch(s.prim, d)
    ensures Inv(size, PrimDid(s, d))
  {
    LaunchKeepsWired(size, s, d);
    forall a | a in s.prim.secs
      ensures Sound(SideOf(PrimDid(s, d), a))
    {
      LaunchedSideOf(size, s, d, a);
      if d.out != [] && d.out[0].addr == a {
        LaunchedSound(SideOf(s, a), s.prim, d.p, a, d.out[0]);
      }
    }
  }

  lemma SendConfirmedLaunches(p: Prim, a: Addr, fun: PrimFc)
    requires Known(p) && p.lastSent == None && a in p.secs
    requires fun == ReqStatus || (Counted(fun) && fun != UserDataConf && p.secs[a].phase == PhaseActive)
    ensures Launch(p, SendConfirmed(p, a, fun, Counted(fun), []))
    ensures Launch(p, SendResetLink(p, a))
  {
  }

  lemma {:induction false} ScanSubset(secs: map<Addr, Station>, size: nat, q: seq<Outgoing>)
    ensures var (next, rest) := ScanQueue(secs, size, q);
            (forall e :: e in rest ==> e in q) && (next.Some? ==> next.value in q && Eligible(secs, size, next.value))
  {
    if q != [] && !Eligible(secs, size, q[0]) {
      ScanSubset(secs, size, q[1..]);
    }
  }

  ghost predicate NoBroadcast(size: nat, q: seq<Outgoing>) {
    forall e :: e in q ==> !Broadcast(e.addr, size)
  }

  /** What a tick does with a broadcast: the oldest one goes out once, unconfirmed, and the line stays free. */
  ghost predicate Announces(size: nat, p: Prim, d: PrimDone) {
    && p.lastSent == None && |d.out| == 1 && d.dispatched == [] && d.p == p.(sendQueue := d.p.sendQueue)
    && var req := d.out[0];
       && Broadcast(req.addr, size) && req == Request(req.addr, UserDataNoConf, false, false, req.asdu)
       && (forall e :: e in d.p.sendQueue ==> e in p.sendQueue)
       && (forall a :: a in p.secs || Broadcast(a, size) ==>
             ForStation(a, p.sendQueue)
             == (if a == req.addr then [req.asdu] else []) + ForStation(a, d.p.sendQueue))
  }

  lemma ScanSplits(p: Prim, size: nat)
    ensures
      var (next, rest) := ScanQueue(p.secs, size, p.sendQueue);
      forall a :: a in p.secs || Broadcast(a, size) ==>
          ForStation(a, p.sendQueue)
          == (if next.Some? && next.value.addr == a then [next.value.asdu] else []) + ForStation(a, rest)
  {
    forall a | a in p.secs || Broadcast(a, size)
      ensures
        var (next, rest) := ScanQueue(p.secs, size, p.sendQueue);
        ForStation(a, p.sendQueue)
        == (if next.Some? && next.value.addr == a then [next.value.asdu] else []) + ForStation(a, rest)
    {
      ScanKeepsStationOrder(p.secs, size, p.sendQueue, a);
    }
  }

  /** Queued user data goes first; entries of unknown stations may be dropped on the way. */
  lemma TrySendLaunches(p: Prim, size: nat)
    requires Known(p) && p.lastSent == None
    requires var next := ScanQueue(p.secs, size, p.sendQueue).0; next.Some? ==> !Broadcast(next.value.addr, size)
    ensures Launch(p, TrySend(p, size))
  {
    ScanSubset(p.secs, size, p.sendQueue);
    ScanSplits(p, size);
  }

  lemma TrySendAnnounces(p: Prim, size: nat)
    requires Known(p) && p.lastSent == None
    requires var next := ScanQueue(p.secs, size, p.sendQueue).0; next.Some? && Broadcast(next.value.addr, size)
    ensures Announces(size, p, TrySend(p, size))
  {
    ScanSubset(p.secs, size, p.sendQueue);
    ScanSplits(p, size);
  }

  lemma PollLaunches(p: Prim)
    requires Known(p) && p.lastSent == None
    ensures Launch(p, Poll(p))
  {
    if p.secOrder != [] {
      var a := p.secOrder[p.pollIdx];
      var q := p.(pollIdx := (p.pollIdx + 1) % |p.secOrder|);
      SendConfirmedLaunches(q, a, if p.secs[a].phase != PhaseActive then ReqStatus
                                  else if p.secs[a].wantClass1 then ReqData1 else ReqData2);
    }
  }

  /** Doing nothing but dropping unknown entries, then launching, is launching. */
  lemma LaunchAfter(p: Prim, q: Prim, d: PrimDone)
    requires Launch(p, PrimDone(q, [], [])) && Launch(q, d)
    ensures Launch(p, d)
  {
  }

  /** A tick on a free line starts at most one confirmed transaction, or sends one broadcast. */
  lemma TickLaunches(p: Prim, size: nat)
    requires Known(p) && p.lastSent == None
    ensures Launch(p, Tick(p, size)) || Announces(size, p, Tick(p, size))
    ensures NoBroadcast(size, p.sendQueue) ==> Launch(p, Tick(p, size))
  {
    ScanSubset(p.secs, size, p.sendQueue);
    var next, t := ScanQueue(p.secs, size, p.sendQueue).0, TrySend(p, size);
    if next.Some? && Broadcast(next.value.addr, size) {
      TrySendAnnounces(p, size);
    } else {
      TrySendLaunches(p, size);
      if t.out == [] {
        assert t == PrimDone(t.p, [], []);
        PollLaunches(t.p);
        LaunchAfter(p, t.p, Poll(t.p));
      }
    }
  }

  lemma {:induction false} FirstActiveIs(p: Prim, from: nat)
    requires Known(p) && from <= |p.secOrder|
    ensures FirstActive(p, from).Some? ==>
              FirstActive(p, from).value in p.secs && p.secs[FirstActive(p, from).value].phase == PhaseActive
    decreases |p.secOrder| - from
  {
    if from < |p.secOrder| {
      FirstActiveIs(p, from + 1);
    }
  }

  lemma T3Launches(p: Prim)
    requires Known(p) && p.lastSent == None
    ensures Launch(p, OnT3(p))
  {
    FirstActiveIs(p, 0);
    if FirstActive(p, 0).Some? {
      SendConfirmedLaunches(p, FirstActive(p, 0).value, TestLink);
    }
  }

  lemma ManualLaunches(p: Prim, a: Addr, fun: PrimFc)
    requires Known(p) && p.lastSent == None
    ensures Launch(p, OnManual(p, a, fun))
  {
    if a in p.secs {
      SendConfirmedLaunches(p, a, if fun == ReqData2 && p.secs[a].phase == PhaseActive then ReqData2 else ReqStatus);
    }
  }

  // ---- each event ----

  lemma TimerKeeps(size: nat, s: Net, e: Event)
    requires Inv(size, s) && (e.TickFires? || e.T3Fires? || e.Manual?)
    ensures Inv(size, Step(size, s, e))
  {
    hide Sound, Launch, SideOf;
    if s.prim.lastSent == None {
      match e {
        case TickFires =>
          TickLaunches(s.prim, size);
          LaunchKeeps(size, s, Tick(s.prim, size));
        case T3Fires =>
          T3Launches(s.prim);
          LaunchKeeps(size, s, OnT3(s.prim));
        case Manual(a, fun) =>
          ManualLaunches(s.prim, a, fun);
          LaunchKeeps(size, s, OnManual(s.prim, a, fun));
      }
    } else {
      assert Step(size, s, e) == s;
    }
  }

  ghost predicate OnlyAt(s: Net, t: Net, a: Addr)
    requires s.sts.Keys == s.prim.secs.Keys && s.hist.Keys == s.prim.secs.Keys
  {
    && t.prim.secs.Keys == s.prim.secs.Keys && t.sts.Keys == s.prim.secs.Keys && t.hist.Keys == s.prim.secs.Keys
    && forall b :: b in s.prim.secs && b != a ==> SideOf(t, b) == SideOf(s, b)
  }

  /** A step that concerns one station leaves the others alone. */
  lemma OneSideKeeps(size: nat, s: Net, t: Net, a: Addr)
    requires Inv(size, s) && Wired(size, t) && OnlyAt(s, t, a)
    requires a in s.prim.secs ==> Sound(SideOf(t, a))
    ensures Inv(size, t)
  {
    forall b | b in t.prim.secs
      ensures Sound(SideOf(t, b))
    {
      if b != a {
        assert SideOf(t, b) == SideOf(s, b);
      }
    }
  }

  lemma ReachOnlyAt(size: nat, s: Net, a: Addr)
    requires Wired(size, s) && s.line.Down? && a == s.line.req.addr
    requires var d := SecOnRequest(a, s.sts[a], s.line.req); d.resp.Some? ==> d.resp.value.addr == a
    ensures var t := Step(size, s, Reach);
            && Wired(size, t) && OnlyAt(s, t, a)
            && SideOf(t, a) == ReachSide(a, SideOf(s, a), SecOnRequest(a, s.sts[a], s.line.req))
  {
    assert SecReceive(a, size, s.sts[a], s.line.req) == SecOnRequest(a, s.sts[a], s.line.req);
  }

  lemma ReachKeeps(size: nat, s: Net)
    requires Inv(size, s)
    ensures Inv(size, Step(size, s, Reach))
  {
    if s.line.Down? {
      var a := s.line.req.addr;
      ReachSound(a, SideOf(s, a));
      ReachOnlyAt(size, s, a);
      OneSideKeeps(size, s, Step(size, s, Reach), a);
    }
  }

  lemma LoseKeeps(size: nat, s: Net)
    requires Inv(size, s)
    ensures Inv(size, Step(size, s, Lose))
  {
    forall a | a in s.prim.secs
      ensures Sound(SideOf(Step(size, s, Lose), a))
    {
      LineSound(SideOf(s, a));
      assert SideOf(Step(size, s, Lose), a) == SideOf(s, a).(line := Quiet);
    }
  }

  lemma QueueGrows(a: Addr, q: seq<Outgoing>, e: Outgoing)
    ensures ForStation(a, q + [e]) == ForStation(a, q) + (if e.addr == a then [e.asdu] else [])
  {
    ForStationAppend(a, q, [e]);
    assert [e][1..] == [];
  }

  function UserSentSide(x: Side, asdu: Bytes): Side {
    x.(queued := x.queued + [asdu], h := x.h.(accepted := x.h.accepted + [asdu]))
  }

  lemma UserSendWired(size: nat, s: Net, a: Addr, asdu: Bytes)
    requires Wired(size, s) && !Broadcast(a, size)
    ensures Wired(size, Step(size, s, UserSend(a, asdu)))
  {
  }

  lemma UserSendSide(size: nat, s: Net, a: Addr, asdu: Bytes, b: Addr)
    requires Wired(size, s) && !Broadcast(a, size) && b in s.prim.secs
    ensures SideOf(Step(size, s, UserSend(a, asdu)), b)
            == if a == b then UserSentSide(SideOf(s, b), asdu) else SideOf(s, b)
  {
    QueueGrows(b, s.prim.sendQueue, Outgoing(asdu, a));
  }

  lemma UserSendOnlyAt(size: nat, s: Net, a: Addr, asdu: Bytes)
    requires Wired(size, s) && !Broadcast(a, size)
    ensures var t := Step(size, s, UserSend(a, asdu));
            && Wired(size, t) && OnlyAt(s, t, a)
            && (a in s.prim.secs ==> SideOf(t, a) == UserSentSide(SideOf(s, a), asdu))
  {
    UserSendWired(size, s, a, asdu);
    forall b | b in s.prim.secs
      ensures SideOf(Step(size, s, UserSend(a, asdu)), b)
              == if a == b then UserSentSide(SideOf(s, b), asdu) else SideOf(s, b)
    {
      UserSendSide(size, s, a, asdu, b);
    }
  }

  lemma UserSendKeeps(size: nat, s: Net, a: Addr, asdu: Bytes)
    requires Inv(size, s)
    ensures Inv(size, Step(size, s, UserSend(a, asdu)))
  {
    if !Broadcast(a, size) {
      UserSendOnlyAt(size, s, a, asdu);
      if a in s.prim.secs {
        UserSendSound(SideOf(s, a), asdu);
      }
      OneSideKeeps(size, s, Step(size, s, UserSend(a, asdu)), a);
    }
  }

  function StationSentSide(x: Side, asdu: Bytes, periodic: bool): Side {
    if periodic then x.(st := x.st.(class2 := x.st.class2 + [asdu]), h := x.h.(in2 := x.h.in2 + [asdu]))
    else x.(st := x.st.(class1 := x.st.class1 + [asdu]), h := x.h.(in1 := x.h.in1 + [asdu]))
  }

  lemma StationSendSide(s: Net, size: nat, a: Addr, asdu: Bytes, periodic: bool, b: Addr)
    requires Wired(size, s) && a in s.sts && b in s.prim.secs
    ensures var t := Step(size, s, StationSend(a, asdu, periodic));
            && t.prim == s.prim && t.line == s.line && t.sts.Keys == s.sts.Keys && t.hist.Keys == s.hist.Keys
            && SideOf(t, b) == if a == b then StationSentSide(SideOf(s, a), asdu, periodic) else SideOf(s, b)
  {
  }

  lemma StationSendOnlyAt(size: nat, s: Net, a: Addr, asdu: Bytes, periodic: bool)
    requires Wired(size, s) && a in s.sts
    ensures var t := Step(size, s, StationSend(a, asdu, periodic));
            Wired(size, t) && OnlyAt(s, t, a) && SideOf(t, a) == StationSentSide(SideOf(s, a), asdu, periodic)
  {
    var t := Step(size, s, StationSend(a, asdu, periodic));
    assert a in s.prim.secs;
    forall b | b in s.prim.secs
      ensures SideOf(t, b) == if a == b then StationSentSide(SideOf(s, a), asdu, periodic) else SideOf(s, b)
    {
      StationSendSide(s, size, a, asdu, periodic, b);
    }
    StationSendSide(s, size, a, asdu, periodic, a);
  }

  lemma StationSendKeeps(size: nat, s: Net, a: Addr, asdu: Bytes, periodic: bool)
    requires Inv(size, s)
    ensures Inv(size, Step(size, s, StationSend(a, asdu, periodic)))
  {
    if a in s.sts {
      Class1SendSound(SideOf(s, a), asdu);
      Class2SendSound(SideOf(s, a), asdu);
      StationSendOnlyAt(size, s, a, asdu, periodic);
      OneSideKeeps(size, s, Step(size, s, StationSend(a, asdu, periodic)), a);
    }
  }

  // ---- the answer ----

  /** The net after the answer was taken in, before the primary reacts to an access demand. */
  function AfterAnswer(s: Net, r: Response): Net
    requires s.prim.lastSent.Some? && r.addr in s.prim.secs && r.addr in s.hist
  {
    var req := s.prim.lastSent.value;
    var v := Confirmed(s.prim.secs[r.addr].(dfc := r.dfc), req);
    Net(s.prim.(secs := s.prim.secs[r.addr := if r.acd then v.(wantClass1 := true)
        else v], lastSent := None, retryCount := 0),
        s.sts, Quiet,
        s.hist[r.addr := Settled(s.hist[r.addr], req, r, if r.fun == UserData then [r.asdu] else [])])
  }

  /** OnResponse settles the transaction and then, on an access demand, may launch a class 1 poll. */
  lemma OnResponseSplits(s: Net, r: Response)
    requires s.prim.lastSent.Some? && r.addr in s.prim.secs && r.addr in s.hist
    requires r.addr == s.prim.lastSent.value.addr && Positive(r.fun)
    ensures var p := AfterAnswer(s, r).prim;
            var d := OnResponse(s.prim, r);
            d.dispatched == (if r.fun == UserData then [r.asdu] else []) &&
            d == (if r.acd && p.secs[r.addr].phase == PhaseActive then SendConfirmed(p, r.addr, ReqData1, true, [])
                  else PrimDone(p, [], [])).(dispatched := d.dispatched)
  {
    var q := SetStation(s.prim, r.addr, s.prim.secs[r.addr].(dfc := r.dfc));
    assert Answered(q, r).0.secs[r.addr] == Confirmed(s.prim.secs[r.addr].(dfc := r.dfc), s.prim.lastSent.value);
    assert s.prim.secs[r.addr := s.prim.secs[r.addr].(dfc := r.dfc)][r.addr := Answered(q, r).0.secs[r.addr]]
           == s.prim.secs[r.addr := Answered(q, r).0.secs[r.addr]];
  }

  lemma AfterAnswerOnlyAt(size: nat, s: Net, r: Response)
    requires Wired(size, s) && s.line == Up(r) && s.prim.lastSent.Some?
    ensures var t := AfterAnswer(s, r);
            && Wired(size, t) && OnlyAt(s, t, r.addr) && t.prim.secOrder == s.prim.secOrder
            && SideOf(t, r.addr)
               == var y := SettledSide(SideOf(s, r.addr), r);
                  if r.acd then y.(v := y.v.(wantClass1 := true)) else y
  {
  }

  lemma AfterAnswerSound(x: Side, r: Response)
    requires Sound(x) && x.line == Up(r) && x.out.Some?
    ensures var y := SettledSide(x, r); Sound(if r.acd then y.(v := y.v.(wantClass1 := true)) else y)
  {
    SettleSound(x, r);
    WantSound(SettledSide(x, r));
  }

  lemma WantSound(y: Side)
    requires Sound(y) && y.out == None
    ensures Sound(y.(v := y.v.(wantClass1 := true)))
  {
  }

  lemma AfterAnswerKeeps(size: nat, s: Net, r: Response)
    requires Inv(size, s) && s.line == Up(r)
    ensures r.addr in s.prim.secs && r.addr in s.hist && s.prim.lastSent.Some?
    ensures Positive(r.fun) && r.addr == s.prim.lastSent.value.addr
    ensures Inv(size, AfterAnswer(s, r))
  {
    assert Positive(r.fun) by { SettleSound(SideOf(s, r.addr), r); }
    AfterAnswerSound(SideOf(s, r.addr), r);
    AfterAnswerOnlyAt(size, s, r);
    OneSideKeeps(size, s, AfterAnswer(s, r), r.addr);
  }

  lemma AnswerLaunches(p: Prim, a: Addr, acd: bool, dispatched: seq<Bytes>)
    requires Known(p) && p.lastSent == None && a in p.secs
    ensures Launch(p, (if acd && p.secs[a].phase == PhaseActive then SendConfirmed(p, a, ReqData1, true, [])
                       else PrimDone(p, [], [])).(dispatched := dispatched))
  {
    SendConfirmedLaunches(p, a, if p.secs[a].phase == PhaseActive then ReqData1 else ReqStatus);
  }

  lemma ReturnIs(size: nat, s: Net)
    requires Wired(size, s) && s.line.Up? && s.prim.lastSent.Some? && Positive(s.line.resp.fun)
    ensures Step(size, s, Return) == PrimDid(AfterAnswer(s, s.line.resp), OnResponse(s.prim, s.line.resp))
  {
    OnResponseSplits(s, s.line.resp);
  }

  lemma ReturnKeeps(size: nat, s: Net)
    requires Inv(size, s)
    ensures Inv(size, Step(size, s, Return))
  {
    if s.line.Up? {
      var r := s.line.resp;
      AfterAnswerKeeps(size, s, r);
      ReturnIs(size, s);
      OnResponseSplits(s, r);
      var t := AfterAnswer(s, r);
      AnswerLaunches(t.prim, r.addr, r.acd, OnResponse(s.prim, r).dispatched);
      LaunchKeeps(size, t, OnResponse(s.prim, r));
    }
  }

  // ---- T1 ----

  lemma AgainKeeps(size: nat, s: Net)
    requires Inv(size, s) && s.line.Quiet? && s.prim.lastSent.Some? && s.prim.retryCount < 1
    ensures Inv(size, Step(size, s, T1Fires))
  {
    var a := s.prim.lastSent.value.addr;
    LineSound(SideOf(s, a));
    OneSideKeeps(size, s, Step(size, s, T1Fires), a);
  }

  function GivenUpSide(x: Side): Side {
    x.(v := Downgraded(x.v), out := None, line := Quiet, h := AfterGivingUp(x))
  }

  lemma GiveUpOnlyAt(size: nat, s: Net, a: Addr)
    requires Wired(size, s) && s.line.Quiet? && s.prim.lastSent.Some? && a == s.prim.lastSent.value.addr
    ensures var t := GiveUp(s, FailTransaction(s.prim, a), a, false);
            && Wired(size, t) && OnlyAt(s, t, a) && SideOf(t, a) == GivenUpSide(SideOf(s, a))
            && t.prim.lastSent == None && t.prim.secOrder == s.prim.secOrder
  {
  }

  lemma ReconnectKeeps(size: nat, s: Net)
    requires Inv(size, s) && s.prim.lastSent == None
    ensures Inv(size, Reconnect(s))
  {
    forall a | a in s.prim.secs
      ensures Sound(SideOf(Reconnect(s), a))
    {
      var x := SideOf(s, a);
      FreshSound(x);
      assert SideOf(Reconnect(s), a) == x.(v := STATION_START, queued := [], h := x.h.(accepted := x.h.tx));
    }
  }

  lemma GiveUpKeeps(size: nat, s: Net, a: Addr)
    requires Inv(size, s) && s.line.Quiet? && s.prim.lastSent.Some? && a == s.prim.lastSent.value.addr
    ensures Inv(size, GiveUp(s, FailTransaction(s.prim, a), a, false))
  {
    GiveUpOnlyAt(size, s, a);
    GiveUpSound(SideOf(s, a));
    OneSideKeeps(size, s, GiveUp(s, FailTransaction(s.prim, a), a, false), a);
  }

  /** T1 the second time: the station is given up, and a lone one takes the connection with it. */
  lemma T1IsGiveUp(size: nat, s: Net)
    requires Known(s.prim) && s.line.Quiet? && s.prim.lastSent.Some? && s.prim.retryCount >= 1
    ensures var a := s.prim.lastSent.value.addr;
            var t := GiveUp(s, FailTransaction(s.prim, a), a, false);
            t.prim.lastSent == None
            && Step(size, s, T1Fires) == if |s.prim.secOrder| == 1 then Reconnect(t) else t
  {
  }

  lemma SecondT1Keeps(size: nat, s: Net)
    requires Inv(size, s) && s.line.Quiet? && s.prim.lastSent.Some? && s.prim.retryCount >= 1
    ensures Inv(size, Step(size, s, T1Fires))
  {
    var a := s.prim.lastSent.value.addr;
    var t := GiveUp(s, FailTransaction(s.prim, a), a, false);
    assert Inv(size, t) by { GiveUpKeeps(size, s, a); }
    T1IsGiveUp(size, s);
    if |s.prim.secOrder| == 1 {
      ReconnectKeeps(size, t);
    }
  }

  lemma T1Idle(size: nat, s: Net)
    requires Known(s.prim) && !(s.line.Quiet? && s.prim.lastSent.Some?)
    ensures Step(size, s, T1Fires) == s
  {
  }

  lemma T1Keeps(size: nat, s: Net)
    requires Inv(size, s)
    ensures Inv(size, Step(size, s, T1Fires))
  {
    if !s.line.Quiet? || s.prim.lastSent == None {
      T1Idle(size, s);
    } else if s.prim.retryCount < 1 {
      AgainKeeps(size, s);
    } else {
      SecondT1Keeps(size, s);
    }
  }

  /** Whatever happens, the invariant survives. */
  lemma StepKeeps(size: nat, s: Net, e: Event)
    requires Inv(size, s)
    ensures Inv(size, Step(size, s, e))
  {
    match e {
      case Reach => ReachKeeps(size, s);
      case Return => ReturnKeeps(size, s);
      case Lose => LoseKeeps(size, s);
      case T1Fires => T1Keeps(size, s);
      case UserSend(a, asdu) => UserSendKeeps(size, s, a, asdu);
      case StationSend(a, asdu, periodic) => StationSendKeeps(size, s, a, asdu, periodic);
      case _ => TimerKeeps(size, s, e);
    }
  }
}
