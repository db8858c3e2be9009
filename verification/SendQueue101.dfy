/** What the scan of the send queue guarantees. */
module SendQueue101 {
  import opened Octets
  import opened Link101

  /** The entries for one station, in order. */
  function ForStation(a: Addr, q: seq<Outgoing>): seq<Bytes> {
    if q == [] then []
    else (if q[0].addr == a then [q[0].asdu] else []) + ForStation(a, q[1..])
  }

  lemma {:induction false} ForStationAppend(a: Addr, p: seq<Outgoing>, q: seq<Outgoing>)
    ensures ForStation(a, p + q) == ForStation(a, p) + ForStation(a, q)
  {
    if p == [] {
      assert p + q == q;
    } else {
      ForStationAppend(a, p[1..], q);
      assert (p + q)[0] == p[0] && (p + q)[1..] == p[1..] + q;
      Assoc(if p[0].addr == a then [p[0].asdu] else [], ForStation(a, p[1..]), ForStation(a, q));
    }
  }

  /** The queue with the entries of unknown stations taken out. */
  function Reachable(secs: map<Addr, Station>, size: nat, q: seq<Outgoing>): seq<Outgoing> {
    if q == [] then []
    else (if Unknown(secs, size, q[0]) then [] else [q[0]]) + Reachable(secs, size, q[1..])
  }

  /**
   * The scan takes the first eligible entry, at some place j, and removes besides it exactly the
   * entries of unknown stations before j; without an eligible entry it only removes all of those.
   */
  lemma {:induction false} ScanExact(secs: map<Addr, Station>, size: nat, q: seq<Outgoing>) returns (j: nat)
    ensures j <= |q|
    ensures forall i :: 0 <= i < j ==> !Eligible(secs, size, q[i])
    ensures j < |q| ==> Eligible(secs, size, q[j])
    ensures ScanQueue(secs, size, q).0 == (if j < |q| then Some(q[j]) else None)
    ensures ScanQueue(secs, size, q).1 == Reachable(secs, size, q[..j]) + (if j < |q| then q[j + 1..] else [])
  {
    if q == [] || Eligible(secs, size, q[0]) {
      j := 0;
      assert q[..0] == [];
    } else {
      var i := ScanExact(secs, size, q[1..]);
      j := i + 1;
      var tail := if j < |q| then q[j + 1..] else [];
      assert tail == if i < |q[1..]| then q[1..][i + 1..] else [];
      assert q[..j][1..] == q[1..][..i];
      var head := if Unknown(secs, size, q[0]) then [] else [q[0]];
      var kept := Reachable(secs, size, q[1..][..i]);
      assert Reachable(secs, size, q[..j]) == head + kept;
      assert ScanQueue(secs, size, q).1 == head + (kept + tail);
      Assoc(head, kept, tail);
    }
  }

  /** Nothing for a known station, and no broadcast, is lost, doubled or overtaken by another of its kind. */
  lemma {:induction false} ScanKeepsStationOrder(secs: map<Addr, Station>, size: nat, q: seq<Outgoing>, a: Addr)
    requires a in secs || Broadcast(a, size)
    ensures var (next, rest) := ScanQueue(secs, size, q);
            ForStation(a, q) == (if next.Some? && next.value.addr == a then [next.value.asdu]
                else []) + ForStation(a, rest)
  {
    if q != [] && !Eligible(secs, size, q[0]) {
      ScanKeepsStationOrder(secs, size, q[1..], a);
      var (next, rest) := ScanQueue(secs, size, q[1..]);
      if !Unknown(secs, size, q[0]) {
        assert ([q[0]] + rest)[1..] == rest;
      }
      if q[0].addr == a && next.Some? {
        SkippedStationNotTaken(secs, size, q[1..], a);
      }
    }
  }

  /** Of the entries for an unknown station, those passed on the way to place j, where the scan stops, are gone. */
  lemma UnknownPassedDropped(secs: map<Addr, Station>, size: nat, q: seq<Outgoing>, a: Addr) returns (j: nat)
    requires a !in secs && !Broadcast(a, size)
    ensures j <= |q| && ScanQueue(secs, size, q).0 == (if j < |q| then Some(q[j]) else None)
    ensures forall i :: 0 <= i < j ==> !Eligible(secs, size, q[i])
    ensures ForStation(a, ScanQueue(secs, size, q).1) == if j < |q| then ForStation(a, q[j + 1..]) else []
  {
    j := ScanExact(secs, size, q);
    ReachableOnly(secs, size, q[..j], a);
    ForStationAppend(a, Reachable(secs, size, q[..j]), if j < |q| then q[j + 1..] else []);
  }

  lemma {:induction false} ReachableOnly(secs: map<Addr, Station>, size: nat, q: seq<Outgoing>, a: Addr)
    requires a !in secs && !Broadcast(a, size)
    ensures ForStation(a, Reachable(secs, size, q)) == []
  {
    if q != [] {
      var head := if Unknown(secs, size, q[0]) then [] else [q[0]];
      ReachableOnly(secs, size, q[1..], a);
      ForStationAppend(a, head, Reachable(secs, size, q[1..]));
    }
  }

  /** An ineligible station stays ineligible throughout the scan. */
  lemma {:induction false} SkippedStationNotTaken(secs: map<Addr, Station>, size: nat, q: seq<Outgoing>, a: Addr)
    requires forall d :: !Eligible(secs, size, Outgoing(d, a))
    ensures var next := ScanQueue(secs, size, q).0; next.Some? ==> next.value.addr != a
  {
    if q != [] {
      assert q[0] == Outgoing(q[0].asdu, q[0].addr);
      SkippedStationNotTaken(secs, size, q[1..], a);
    }
  }

  /**
   * User data starts only on a free line, and only to a station with an active link that has not reported a full
   * buffer.
   */
  lemma UserDataOnlyWhenAllowed(p: Prim, size: nat, req: Request)
    requires Known(p) && req in Tick(p, size).out && req.fun == UserDataConf
    ensures p.lastSent == None && Tick(p, size).p.lastSent == Some(req)
    ensures req.addr in p.secs && p.secs[req.addr].phase == PhaseActive && !p.secs[req.addr].dfc
    ensures Outgoing(req.asdu, req.addr) in p.sendQueue && req.fcv && req.fcb == p.secs[req.addr].fcb
  {
    var j := ScanExact(p.secs, size, p.sendQueue);
    if j == |p.sendQueue| {
      assert TrySend(p, size).out == [];
    } else {
      assert p.sendQueue[j] == Outgoing(p.sendQueue[j].asdu, p.sendQueue[j].addr);
    }
  }
}
