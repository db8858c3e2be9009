/** Two endpoints of the program joined by FIFO channels, with the wrapping counters they really use. */
module SessionNet {
  import opened Octets
  import opened SeqNo
  import opened Apci
  import opened Config104
  import opened Session104
  import W = Window

  datatype Pair = Pair(srv: Config, cli: Config) {
    predicate InRange() {
      srv.InRange() && cli.InRange()
    }
  }

  /** srv, cli and the channels are the program's state; the rest is history. */
  datatype Net = Net(
    srv: SrvState, cli: CliState, srvUp: bool, cliUp: bool,
    s2c: seq<Frame>, c2s: seq<Frame>,
    sent: seq<Bytes>, got: seq<Bytes>, cliSent: seq<Bytes>, srvGot: seq<Bytes>,
    want: bool, late: bool, lost: nat)

  function Connect(now: W.Time): Net {
    Net(SrvStart(now), CliInit(now), true, true, [], [], [], [], [], [], false, false, 0)
  }

  /** What may happen next; the times are arbitrary. */
  datatype Event =
    | SrvOffer(asdu: Bytes, now: W.Time)
    | SrvTicks(now: W.Time)
    | SrvReceive(now: W.Time)
    | CliOffer(asdu: Bytes, now: W.Time)
    | CliTicks(now: W.Time)
    | CliReceive(now: W.Time)
    | CliStart(now: W.Time)
    | CliStop(now: W.Time)

  function SrvDid(n: Net, x: Effect<SrvState>): Net {
    if x.alive then n.(srv := x.st, s2c := n.s2c + x.out, srvGot := n.srvGot + x.rcv) else n.(srvUp := false)
  }

  function CliDid(n: Net, x: Effect<CliState>): Net {
    if x.alive then n.(cli := x.st, c2s := n.c2s + x.out, got := n.got + x.rcv) else n.(cliUp := false)
  }

  /** An event that is not enabled changes nothing. Only ASDUs that fit an I frame are ever queued. */
  function Step(cfg: Pair, n: Net, e: Event): Net {
    match e
    case SrvOffer(asdu, now) =>
      if n.srvUp && SrvMaySend(cfg.srv, n.srv) && Fits(asdu)
      then SrvDid(n, SrvSend(n.srv, asdu, now)).(sent := n.sent + [asdu]) else n
    case SrvTicks(now) => if n.srvUp then SrvDid(n, SrvTick(cfg.srv, n.srv, now)) else n
    case SrvReceive(now) =>
      if n.srvUp && n.c2s != [] then
        var m := SrvDid(n, SrvOnFrame(cfg.srv, n.srv, n.c2s[0], now));
        if m.srvUp then m.(c2s := n.c2s[1..], lost := if n.c2s[0].IFrame?
            && !n.srv.isActive then n.lost + 1 else n.lost) else m
      else n
    case CliOffer(asdu, now) =>
      if n.cliUp && CliMaySend(cfg.cli, n.cli) && Fits(asdu)
      then CliDid(n, CliSend(n.cli, asdu, now)).(cliSent := n.cliSent + [asdu], late := n.late || !n.want) else n
    case CliTicks(now) => if n.cliUp then CliDid(n, CliTick(cfg.cli, n.cli, now)) else n
    case CliReceive(now) =>
      if n.cliUp && n.s2c != [] then
        var m := CliDid(n, CliOnFrame(cfg.cli, n.cli, n.s2c[0], now));
        if m.cliUp then m.(s2c := n.s2c[1..]) else m
      else n
    case CliStart(now) => if n.cliUp then CliDid(n, CliStartDt(n.cli, now)).(want := true) else n
    case CliStop(now) => if n.cliUp then CliDid(n, CliStopDt(n.cli, now)).(want := false) else n
  }

  /** The state after a list of events. */
  function Play(cfg: Pair, now: W.Time, es: seq<Event>): Net {
    if es == [] then Connect(now) else Step(cfg, Play(cfg, now, es[..|es| - 1]), es[|es| - 1])
  }
}
