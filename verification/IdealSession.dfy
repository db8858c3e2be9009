/**
 * The session protocol with unbounded counters: what the wrapping one is meant to do.
 * Peer keeps natural numbers, messages carry natural numbers, and an acknowledgement is good
 * when it lies between what was acknowledged and what was sent.
 */
module IdealSession {
  import opened Octets
  import opened Apci

  datatype Peer = Peer(
    sent: nat,      // I frames sent
    acked: nat,     // I frames the other side has acknowledged
    rcvd: nat,      // I frames accepted
    told: nat,      // the last acknowledgement transmitted
    active: bool,
    stopping: bool) // a STOPDT waits for its confirmation

  datatype Msg = Data(n: nat, ack: nat, asdu: Bytes) | Ack(ack: nat) | Ctl(f: UFunction)

  datatype Reply = Reply(alive: bool, p: Peer, out: seq<Msg>, rcv: seq<Bytes>)

  const NEW := Peer(0, 0, 0, 0, false, false)

  function Send(p: Peer, asdu: Bytes): Reply {
    Reply(true, p.(sent := p.sent + 1, told := p.rcvd), [Data(p.sent, p.rcvd, asdu)], [])
  }

  predicate Plausible(p: Peer, ack: nat) {
    p.acked <= ack <= p.sent
  }

  function AckIf(due: bool, p: Peer): (Peer, seq<Msg>) {
    if due then (p.(told := p.rcvd), [Ack(p.rcvd)]) else (p, [])
  }

  function Tick(p: Peer, ackDue: bool, testDue: bool): Reply {
    var (q, acks) := AckIf(ackDue, p);
    Reply(true, q, acks + (if testDue then [Ctl(TestFrActive)] else []), [])
  }

  function Accept(p: Peer, w: nat, ack: nat, asdu: Bytes): Reply {
    var q := p.(acked := ack, rcvd := p.rcvd + 1);
    var (r, out) := AckIf(q.rcvd >= q.told + w, q);
    Reply(true, r, out, [asdu])
  }

  function ConfirmStop(p: Peer): (Peer, seq<Msg>) {
    if p.stopping && p.acked == p.sent then (p.(stopping := false), [Ctl(StopDtConfirm)]) else (p, [])
  }

  function SrvHear(p: Peer, ack: nat): Reply {
    var (q, out) := ConfirmStop(p.(acked := ack));
    Reply(true, q, out, [])
  }

  function SrvCtl(p: Peer, f: UFunction): Reply {
    match f
    case StartDtActive => Reply(true, p.(active := true, stopping := false), [Ctl(StartDtConfirm)], [])
    case StopDtActive =>
      var (q, acks) := AckIf(p.told != p.rcvd, p);
      var r := q.(active := false, stopping := true);
      if r.acked == r.sent then Reply(true, r.(stopping := false), acks + [Ctl(StopDtConfirm)], [])
      else Reply(true, r, acks, [])
    case TestFrActive => Reply(true, p, [Ctl(TestFrConfirm)], [])
    case TestFrConfirm | StartDtConfirm | StopDtConfirm => Reply(true, p, [], [])
  }

  function SrvTake(p: Peer, w: nat, m: Msg): Reply {
    match m
    case Ack(ack) => if Plausible(p, ack) then SrvHear(p, ack) else Reply(false, p, [], [])
    case Data(n, ack, asdu) =>
      if !p.active then if Plausible(p, ack) then SrvHear(p, ack) else Reply(true, p, [], [])
      else if !Plausible(p, ack) || n != p.rcvd then Reply(false, p, [], [])
      else Accept(p, w, ack, asdu)
    case Ctl(f) => SrvCtl(p, f)
  }

  function CliCtl(p: Peer, f: UFunction): Reply {
    match f
    case StartDtConfirm => Reply(true, p.(active := true), [], [])
    case StopDtConfirm => Reply(true, p.(active := false), [], [])
    case TestFrActive => Reply(true, p, [Ctl(TestFrConfirm)], [])
    case TestFrConfirm | StartDtActive | StopDtActive => Reply(true, p, [], [])
  }

  function CliTake(p: Peer, w: nat, m: Msg): Reply {
    match m
    case Ack(ack) => Reply(Plausible(p, ack), p.(acked := ack), [], [])
    case Data(n, ack, asdu) =>
      if !p.active then Reply(true, p, [], [])
      else if !Plausible(p, ack) || n != p.rcvd then Reply(false, p, [], [])
      else Accept(p, w, ack, asdu)
    case Ctl(f) => CliCtl(p, f)
  }

  // ---- two peers joined by queues ----

  datatype Limits = Limits(kSrv: nat, wSrv: nat, kCli: nat, wCli: nat) {
    predicate InRange() {
      1 <= kSrv <= 32767 && 1 <= wSrv <= 32767 && 1 <= kCli <= 32767 && 1 <= wCli <= 32767
    }
  }

  /** The logs are history: ASDUs put on the wire, and ASDUs handed up, at each side. */
  datatype Ideal = Ideal(
    srv: Peer, cli: Peer, srvUp: bool, cliUp: bool,
    s2c: seq<Msg>, c2s: seq<Msg>,
    sent: seq<Bytes>, got: seq<Bytes>, cliSent: seq<Bytes>, srvGot: seq<Bytes>,
    want: bool, // the client's last request on the wire was STARTDT
    late: bool, // the client sent an I frame while it was STOPDT
    lost: nat)  // I frames the inactive server discarded

  const START := Ideal(NEW, NEW, true, true, [], [], [], [], [], [], false, false, 0)

  datatype Move =
    | SrvOffer(asdu: Bytes)
    | SrvTick(dead: bool, ackDue: bool, testDue: bool)
    | SrvReceive
    | CliOffer(asdu: Bytes)
    | CliTick(dead: bool, ackDue: bool, testDue: bool)
    | CliReceive
    | CliStart
    | CliStop

  function SrvDid(a: Ideal, r: Reply): Ideal {
    if r.alive then a.(srv := r.p, s2c := a.s2c + r.out, srvGot := a.srvGot + r.rcv) else a.(srvUp := false)
  }

  function CliDid(a: Ideal, r: Reply): Ideal {
    if r.alive then a.(cli := r.p, c2s := a.c2s + r.out, got := a.got + r.rcv) else a.(cliUp := false)
  }

  function INext(l: Limits, a: Ideal, m: Move): Ideal {
    match m
    case SrvOffer(asdu) =>
      if a.srvUp && a.srv.active && a.srv.sent < a.srv.acked + l.kSrv
      then SrvDid(a, Send(a.srv, asdu)).(sent := a.sent + [asdu]) else a
    case SrvTick(dead, ackDue, testDue) =>
      if !a.srvUp then a
      else if dead then a.(srvUp := false)
      else SrvDid(a, Tick(a.srv, ackDue, testDue))
    case SrvReceive =>
      if a.srvUp && a.c2s != [] then
        var b := SrvDid(a, SrvTake(a.srv, l.wSrv, a.c2s[0]));
        if b.srvUp then b.(c2s := a.c2s[1..], lost := if a.c2s[0].Data?
            && !a.srv.active then a.lost + 1 else a.lost) else b
      else a
    case CliOffer(asdu) =>
      if a.cliUp && a.cli.active && a.cli.sent < a.cli.acked + l.kCli
      then CliDid(a, Send(a.cli, asdu)).(cliSent := a.cliSent + [asdu], late := a.late || !a.want) else a
    case CliTick(dead, ackDue, testDue) =>
      if !a.cliUp then a
      else if dead then a.(cliUp := false)
      else CliDid(a, Tick(a.cli, ackDue, testDue))
    case CliReceive =>
      if a.cliUp && a.s2c != [] then
        var b := CliDid(a, CliTake(a.cli, l.wCli, a.s2c[0]));
        if b.cliUp then b.(s2c := a.s2c[1..]) else b
      else a
    case CliStart => if a.cliUp then a.(c2s := a.c2s + [Ctl(StartDtActive)], want := true) else a
    case CliStop => if a.cliUp then a.(c2s := a.c2s + [Ctl(StopDtActive)], want := false) else a
  }

  // ---- the invariant ----

  datatype Direction = ToClient | ToServer

  /** What the reader of a queue knows: the last acknowledgement, the next I frame, whether data flows. */
  datatype View = View(ack: nat, next: nat, active: bool, lost: nat)

  function See(d: Direction, v: View, m: Msg): View {
    match m
    case Data(_, ack, _) => View(ack, v.next + 1, v.active, if v.active then v.lost else v.lost + 1)
    case Ack(ack) => v.(ack := ack)
    case Ctl(f) =>
      if f == (if d.ToClient? then StartDtConfirm else StartDtActive) then v.(active := true)
      else if f == (if d.ToClient? then StopDtConfirm else StopDtActive) then v.(active := false)
      else v
  }

  function SeeAll(d: Direction, v: View, ms: seq<Msg>): View
    decreases |ms|
  {
    if ms == [] then v else SeeAll(d, See(d, v, ms[0]), ms[1..])
  }

  /** I frames come in order and carry what the log says; acknowledgements never go back. */
  predicate Good(v: View, m: Msg, log: seq<Bytes>) {
    match m
    case Data(n, ack, asdu) => n == v.next && v.ack <= ack && n < |log| && log[n] == asdu
    case Ack(ack) => v.ack <= ack
    case Ctl(_) => true
  }

  predicate AllGood(d: Direction, v: View, ms: seq<Msg>, log: seq<Bytes>)
    decreases |ms|
  {
    ms == [] || (Good(v, ms[0], log) && AllGood(d, See(d, v, ms[0]), ms[1..], log))
  }

  lemma {:induction false} ConcatGood(d: Direction, v: View, ms: seq<Msg>, out: seq<Msg>, log: seq<Bytes>)
    ensures SeeAll(d, v, ms + out) == SeeAll(d, SeeAll(d, v, ms), out)
    ensures AllGood(d, v, ms + out, log) == (AllGood(d, v, ms, log) && AllGood(d, SeeAll(d, v, ms), out, log))
    decreases |ms|
  {
    if ms == [] {
      assert ms + out == out;
    } else {
      assert (ms + out)[1..] == ms[1..] + out;
      ConcatGood(d, See(d, v, ms[0]), ms[1..], out, log);
    }
  }

  lemma OneGood(d: Direction, v: View, m: Msg, log: seq<Bytes>)
    ensures SeeAll(d, v, [m]) == See(d, v, m) && AllGood(d, v, [m], log) == Good(v, m, log)
  {
    assert [m][1..] == [];
  }

  lemma TwoGood(d: Direction, v: View, m: Msg, m': Msg, log: seq<Bytes>)
    ensures SeeAll(d, v, [m, m']) == See(d, See(d, v, m), m')
    ensures AllGood(d, v, [m, m'], log) == (Good(v, m, log) && Good(See(d, v, m), m', log))
  {
    assert [m, m'][1..] == [m'];
    OneGood(d, See(d, v, m), m', log);
  }

  /** Replies are at most two messages long, so their effect on a view is read off directly. */
  lemma ReplyGood(d: Direction, v: View, out: seq<Msg>, log: seq<Bytes>)
    requires |out| <= 2
    ensures SeeAll(d, v, out) ==
            (if |out| == 0 then v else if |out| == 1 then See(d, v, out[0]) else See(d, See(d, v, out[0]), out[1]))
    ensures AllGood(d, v, out, log) ==
            ((|out| > 0 ==> Good(v, out[0], log)) && (|out| > 1 ==> Good(See(d, v, out[0]), out[1], log)))
  {
    if |out| == 1 {
      OneGood(d, v, out[0], log);
      assert out == [out[0]];
    } else if |out| == 2 {
      TwoGood(d, v, out[0], out[1], log);
      assert out == [out[0], out[1]];
    }
  }

  lemma {:induction false} LogGrows(d: Direction, v: View, ms: seq<Msg>, log: seq<Bytes>, asdu: Bytes)
    requires AllGood(d, v, ms, log)
    ensures AllGood(d, v, ms, log + [asdu])
    decreases |ms|
  {
    if ms != [] {
      LogGrows(d, See(d, v, ms[0]), ms[1..], log, asdu);
    }
  }

  lemma {:induction false} ViewGrows(d: Direction, v: View, ms: seq<Msg>, log: seq<Bytes>)
    requires AllGood(d, v, ms, log)
    ensures v.ack <= SeeAll(d, v, ms).ack && v.next <= SeeAll(d, v, ms).next && v.lost <= SeeAll(d, v, ms).lost
    decreases |ms|
  {
    if ms != [] {
      ViewGrows(d, See(d, v, ms[0]), ms[1..], log);
    }
  }

  function CliView(a: Ideal): View {
    View(a.cli.acked, a.cli.rcvd, a.cli.active, 0)
  }

  function SrvView(a: Ideal): View {
    View(a.srv.acked, a.srv.rcvd + a.lost, a.srv.active, a.lost)
  }

  predicate Within(p: Peer, k: nat, w: nat) {
    p.told <= p.rcvd < p.told + w && p.sent <= p.acked + k
  }

  /** The queue to the client: ends where the server stands, and every I frame finds the client active. */
  ghost predicate ToClientOk(a: Ideal) {
    var v := SeeAll(ToClient, CliView(a), a.s2c);
    && AllGood(ToClient, CliView(a), a.s2c, a.sent)
    && v.ack == a.srv.told && v.next == a.srv.sent && v.lost == 0
    && (a.srv.active ==> v.active)
  }

  /** The queue to the server, while it is up: I frames are lost exactly when the client was late. */
  ghost predicate ToServerOk(a: Ideal) {
    var v := SeeAll(ToServer, SrvView(a), a.c2s);
    && AllGood(ToServer, SrvView(a), a.c2s, a.cliSent)
    && v.ack == a.cli.told && v.next == a.cli.sent && v.active == a.want
    && (v.lost > 0 <==> a.late)
  }

  ghost predicate LogsOk(a: Ideal) {
    && |a.sent| == a.srv.sent && |a.got| == a.cli.rcvd && a.got <= a.sent
    && |a.cliSent| == a.cli.sent && |a.srvGot| == a.srv.rcvd && a.srvGot <= a.cliSent
  }

  ghost predicate IInv(l: Limits, a: Ideal) {
    && Within(a.srv, l.kSrv, l.wSrv) && Within(a.cli, l.kCli, l.wCli)
    && (a.srv.stopping ==> !a.srv.active)
    && LogsOk(a) && ToClientOk(a) && (a.srvUp ==> ToServerOk(a))
  }

  /**
   * The chain that makes 15 bits enough: acknowledged <= announced <= accepted <= sent <=
   * acknowledged + k, at both ends.
   */
  lemma Chain(l: Limits, a: Ideal)
    requires IInv(l, a)
    ensures a.cli.acked <= a.srv.told <= a.srv.rcvd
    ensures a.cli.rcvd <= a.srv.sent <= a.srv.acked + l.kSrv
    ensures a.srvUp ==> a.srv.acked <= a.cli.told <= a.cli.rcvd
    ensures a.srvUp ==> a.srv.rcvd + a.lost <= a.cli.sent <= a.cli.acked + l.kCli
  {
    ViewGrows(ToClient, CliView(a), a.s2c, a.sent);
    if a.srvUp {
      ViewGrows(ToServer, SrvView(a), a.c2s, a.cliSent);
    }
  }
}
