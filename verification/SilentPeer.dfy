/** Whether an idle session notices that its peer has fallen silent. */
module SilentPeer {
  import opened Octets
  import opened Window
  import opened Config104
  import opened Session104
  import opened SessionHistory
  import S = SrvRuns
  import Sh = SrvHistory
  import C = CliHistory

  /**
   * What is left of an idle session with everything acknowledged: how long nothing has happened, and whether a
   * TESTFR act went out at the beginning of that time.
   */
  datatype Idle = Gone | Waiting(since: nat, asked: bool)

  /** One more tick, a period later. */
  function Pulse(t1: nat, t3: nat, period: nat, q: Idle): Idle {
    if q.Gone? then Gone
    else
      var d := q.since + period;
      if q.asked && d >= t1 then Gone
      else if d >= t3 then Waiting(0, true)
      else Waiting(d, q.asked)
  }

  function Pulses(t1: nat, t3: nat, period: nat, q: Idle, n: nat): Idle
    decreases n
  {
    if n == 0 then q else Pulses(t1, t3, period, Pulse(t1, t3, period, q), n - 1)
  }

  lemma {:induction false} PulsesLast(t1: nat, t3: nat, period: nat, q: Idle, n: nat)
    ensures Pulses(t1, t3, period, q, n + 1) == Pulse(t1, t3, period, Pulses(t1, t3, period, q, n))
    decreases n
  {
    if n > 0 {
      PulsesLast(t1, t3, period, Pulse(t1, t3, period, q), n - 1);
    }
  }

  /** When the first of the ticks comes that are a period apart, not before t. */
  function FirstTick(t: nat, period: nat): (r: nat)
    requires period > 0
    ensures t <= r < t + period
  {
    if t == 0 then 0 else if t <= period then period else period + FirstTick(t - period, period)
  }

  /** A session that has asked, and has waited since, is gone by the time it would ask again - if that is t1 or more. */
  lemma {:induction false} GoneInTime(t1: nat, t3: nat, period: nat, since: nat) returns (n: nat)
    requires period > 0 && since < t3 && t1 <= since + FirstTick(t3 - since, period)
    ensures Pulses(t1, t3, period, Waiting(since, true), n).Gone?
    decreases t3 - since
  {
    var d := since + period;
    if d >= t1 {
      n := 1;
      assert Pulses(t1, t3, period, Gone, 0) == Gone;
    } else {
      var m := GoneInTime(t1, t3, period, d);
      n := m + 1;
    }
  }

  /** A session that has not asked does so. */
  lemma {:induction false} AsksInTime(t1: nat, t3: nat, period: nat, since: nat) returns (n: nat)
    requires period > 0 && since < t3
    ensures Pulses(t1, t3, period, Waiting(since, false), n) == Waiting(0, true)
    decreases t3 - since
  {
    if since + period >= t3 {
      n := 1;
      assert Pulses(t1, t3, period, Waiting(0, true), 0) == Waiting(0, true);
    } else {
      var m := AsksInTime(t1, t3, period, since + period);
      n := m + 1;
    }
  }

  lemma {:induction false} PulsesAdd(t1: nat, t3: nat, period: nat, q: Idle, n: nat, m: nat)
    ensures Pulses(t1, t3, period, q, n + m) == Pulses(t1, t3, period, Pulses(t1, t3, period, q, n), m)
    decreases n
  {
    if n > 0 {
      PulsesAdd(t1, t3, period, Pulse(t1, t3, period, q), n - 1, m);
    }
  }

  /** Asking again before t1 is over starts the wait anew, and that for ever. */
  ghost predicate Unending(t3: nat, period: nat, q: Idle)
    requires period > 0
  {
    q.Waiting? && q.since < t3 && q.since + FirstTick(t3 - q.since, period) == FirstTick(t3, period)
  }

  lemma {:induction false} NeverGone(t1: nat, t3: nat, period: nat, q: Idle, n: nat)
    requires period > 0 && FirstTick(t3, period) < t1 && Unending(t3, period, q)
    ensures Unending(t3, period, Pulses(t1, t3, period, q, n))
    decreases n
  {
    if n > 0 {
      NeverGone(t1, t3, period, Pulse(t1, t3, period, q), n - 1);
    }
  }

  /** The idle session notices exactly when t1 is over by the time it would ask again. */
  lemma NoticesExactlyWhen(t1: nat, t3: nat, period: nat)
    requires period > 0 && t3 > 0
    ensures (exists n: nat :: Pulses(t1, t3, period, Waiting(0, false), n).Gone?) <==> t1 <= FirstTick(t3, period)
  {
    if t1 <= FirstTick(t3, period) {
      var n := AsksInTime(t1, t3, period, 0);
      var m := GoneInTime(t1, t3, period, 0);
      PulsesAdd(t1, t3, period, Waiting(0, false), n, m);
      assert Pulses(t1, t3, period, Waiting(0, false), n + m).Gone?;
    } else {
      forall n: nat ensures !Pulses(t1, t3, period, Waiting(0, false), n).Gone? {
        NeverGone(t1, t3, period, Waiting(0, false), n);
      }
    }
  }

  lemma Notices(t1: nat, t3: nat, period: nat, alive: nat -> bool)
    requires period > 0 && t3 > 0
    requires forall n: nat :: alive(n) <==> !Pulses(t1, t3, period, Waiting(0, false), n).Gone?
    ensures (exists n: nat :: !alive(n)) <==> t1 <= FirstTick(t3, period)
  {
    NoticesExactlyWhen(t1, t3, period);
    if n: nat :| !alive(n) {
      assert Pulses(t1, t3, period, Waiting(0, false), n).Gone?;
    }
    if t1 <= FirstTick(t3, period) {
      var n: nat :| Pulses(t1, t3, period, Waiting(0, false), n).Gone?;
      assert !alive(n);
    }
  }

  // ---- the server ----

  /** n ticks, a period apart. */
  function SrvTicks(period: nat, n: nat): seq<S.Event> {
    if n == 0 then [] else SrvTicks(period, n - 1) + [S.Tick(period)]
  }

  /** The idle session that a run is. */
  ghost predicate SrvIs(r: S.Run, q: Idle) {
    if q.Gone? then !r.alive
    else
      && r.alive && r.st.win.ackNoSend == r.st.win.seqNoSend && r.clock == r.st.idleSince + q.since
      && r.st.testFrSince == if q.asked then Since(r.st.idleSince) else Never
  }

  lemma SrvPulse(cfg: Config, r: S.Run, q: Idle, period: nat)
    requires SrvIs(r, q)
    ensures SrvIs(S.Step(cfg, r, S.Tick(period)), Pulse(cfg.t1, cfg.t3, period, q))
  {
  }

  lemma SrvPlaysOn(cfg: Config, begin: Time, es: seq<S.Event>, e: S.Event)
    ensures S.Play(cfg, S.Begin(begin), es + [e]) == S.Step(cfg, S.Play(cfg, S.Begin(begin), es), e)
  {
    assert (es + [e])[..|es|] == es;
  }

  /** After the same events and one more tick. */
  lemma SrvOneMore(cfg: Config, begin: Time, es: seq<S.Event>, q: Idle, period: nat)
    requires SrvIs(S.Play(cfg, S.Begin(begin), es), q)
    ensures SrvIs(S.Play(cfg, S.Begin(begin), es + [S.Tick(period)]), Pulse(cfg.t1, cfg.t3, period, q))
  {
    SrvPlaysOn(cfg, begin, es, S.Tick(period));
    SrvPulse(cfg, S.Play(cfg, S.Begin(begin), es), q, period);
  }

  lemma {:induction false} SrvPulses(cfg: Config, begin: Time, es: seq<S.Event>, q: Idle, period: nat, n: nat)
    requires SrvIs(S.Play(cfg, S.Begin(begin), es), q)
    ensures SrvIs(S.Play(cfg, S.Begin(begin), es + SrvTicks(period, n)), Pulses(cfg.t1, cfg.t3, period, q, n))
  {
    if n == 0 {
      assert es + [] == es;
    } else {
      var m := n - 1;
      var ts := SrvTicks(period, m);
      SrvPulses(cfg, begin, es, q, period, m);
      PulsesLast(cfg.t1, cfg.t3, period, q, m);
      SrvOneMore(cfg, begin, es + ts, Pulses(cfg.t1, cfg.t3, period, q, m), period);
      Assoc(es, ts, [S.Tick(period)]);
    }
  }

  /** Everything is acknowledged, no con is waited for, and something has just happened. */
  ghost predicate SrvQuiet(cfg: Config, begin: Time, es: seq<S.Event>) {
    && S.Play(cfg, S.Begin(begin), es).alive
    &&
      var v := Sh.Seen(cfg, begin, es);
      && v.confirmed == |v.sent| && v.test == Never && v.idle == S.Play(cfg, S.Begin(begin), es).clock
  }

  lemma SrvQuietIs(cfg: Config, begin: Time, es: seq<S.Event>)
    requires cfg.InRange() && SrvQuiet(cfg, begin, es)
    ensures SrvIs(S.Play(cfg, S.Begin(begin), es), Waiting(0, false))
  {
    Sh.RunAgrees(cfg, begin, es);
  }

  lemma SrvAlive(cfg: Config, begin: Time, es: seq<S.Event>, period: nat, n: nat)
    requires SrvIs(S.Play(cfg, S.Begin(begin), es), Waiting(0, false))
    ensures S.Play(cfg, S.Begin(begin), es + SrvTicks(period, n)).alive
            <==> !Pulses(cfg.t1, cfg.t3, period, Waiting(0, false), n).Gone?
  {
    SrvPulses(cfg, begin, es, Waiting(0, false), period, n);
  }

  /**
   * A server session that has just heard its peer for the last time, with everything acknowledged and no TESTFR act
   * under way, ends sooner or later exactly when t1 is not above t3 rounded up to a tick.
   */
  lemma SilentClientNoticedExactlyWhen(cfg: Config, begin: Time, es: seq<S.Event>, period: nat)
    requires cfg.InRange() && period > 0 && SrvQuiet(cfg, begin, es)
    ensures (exists n: nat :: !S.Play(cfg, S.Begin(begin), es + SrvTicks(period, n)).alive)
            <==> cfg.t1 <= FirstTick(cfg.t3, period)
  {
    var alive := (n: nat) => S.Play(cfg, S.Begin(begin), es + SrvTicks(period, n)).alive;
    SrvQuietIs(cfg, begin, es);
    forall n: nat
      ensures alive(n) <==> !Pulses(cfg.t1, cfg.t3, period, Waiting(0, false), n).Gone?
    {
      SrvAlive(cfg, begin, es, period, n);
    }
    Notices(cfg.t1, cfg.t3, period, alive);
    if n: nat :| !S.Play(cfg, S.Begin(begin), es + SrvTicks(period, n)).alive {
      assert !alive(n);
    }
    if cfg.t1 <= FirstTick(cfg.t3, period) {
      var n: nat :| !alive(n);
      assert !S.Play(cfg, S.Begin(begin), es + SrvTicks(period, n)).alive;
    }
  }

  // ---- the client ----

  function CliTicks(period: nat, n: nat): seq<C.Event> {
    if n == 0 then [] else CliTicks(period, n - 1) + [C.Tick(period)]
  }

  ghost predicate CliIs(r: C.Run, q: Idle) {
    if q.Gone? then !r.alive
    else
      && r.alive && r.st.win.ackNoSend == r.st.win.seqNoSend && r.clock == r.st.idleSince + q.since
      && r.st.startDtSince == Never && r.st.stopDtSince == Never
      && r.st.testFrSince == if q.asked then Since(r.st.idleSince) else Never
  }

  lemma CliPulse(cfg: Config, r: C.Run, q: Idle, period: nat)
    requires CliIs(r, q)
    ensures CliIs(C.Step(cfg, r, C.Tick(period)), Pulse(cfg.t1, cfg.t3, period, q))
  {
  }

  lemma CliPlaysOn(cfg: Config, begin: Time, es: seq<C.Event>, e: C.Event)
    ensures C.Play(cfg, C.Begin(begin), es + [e]) == C.Step(cfg, C.Play(cfg, C.Begin(begin), es), e)
  {
    assert (es + [e])[..|es|] == es;
  }

  /** After the same events and one more tick. */
  lemma CliOneMore(cfg: Config, begin: Time, es: seq<C.Event>, q: Idle, period: nat)
    requires CliIs(C.Play(cfg, C.Begin(begin), es), q)
    ensures CliIs(C.Play(cfg, C.Begin(begin), es + [C.Tick(period)]), Pulse(cfg.t1, cfg.t3, period, q))
  {
    CliPlaysOn(cfg, begin, es, C.Tick(period));
    CliPulse(cfg, C.Play(cfg, C.Begin(begin), es), q, period);
  }

  lemma {:induction false} CliPulses(cfg: Config, begin: Time, es: seq<C.Event>, q: Idle, period: nat, n: nat)
    requires CliIs(C.Play(cfg, C.Begin(begin), es), q)
    ensures CliIs(C.Play(cfg, C.Begin(begin), es + CliTicks(period, n)), Pulses(cfg.t1, cfg.t3, period, q, n))
  {
    if n == 0 {
      assert es + [] == es;
    } else {
      var m := n - 1;
      var ts := CliTicks(period, m);
      CliPulses(cfg, begin, es, q, period, m);
      PulsesLast(cfg.t1, cfg.t3, period, q, m);
      CliOneMore(cfg, begin, es + ts, Pulses(cfg.t1, cfg.t3, period, q, m), period);
      Assoc(es, ts, [C.Tick(period)]);
    }
  }

  /** Everything is acknowledged, no con is waited for, and something has just happened. */
  ghost predicate CliQuiet(cfg: Config, begin: Time, es: seq<C.Event>) {
    && C.Play(cfg, C.Begin(begin), es).alive
    &&
      var v := C.Seen(cfg, begin, es);
      && v.confirmed == |v.sent| && v.test == v.start == v.stop == Never
      && v.idle == C.Play(cfg, C.Begin(begin), es).clock
  }

  lemma CliQuietIs(cfg: Config, begin: Time, es: seq<C.Event>)
    requires cfg.InRange() && CliQuiet(cfg, begin, es)
    ensures CliIs(C.Play(cfg, C.Begin(begin), es), Waiting(0, false))
  {
    C.RunAgrees(cfg, begin, es);
  }

  lemma CliAlive(cfg: Config, begin: Time, es: seq<C.Event>, period: nat, n: nat)
    requires CliIs(C.Play(cfg, C.Begin(begin), es), Waiting(0, false))
    ensures C.Play(cfg, C.Begin(begin), es + CliTicks(period, n)).alive
            <==> !Pulses(cfg.t1, cfg.t3, period, Waiting(0, false), n).Gone?
  {
    CliPulses(cfg, begin, es, Waiting(0, false), period, n);
  }

  /** The same of a client that waits for no con. */
  lemma SilentServerNoticedExactlyWhen(cfg: Config, begin: Time, es: seq<C.Event>, period: nat)
    requires cfg.InRange() && period > 0 && CliQuiet(cfg, begin, es)
    ensures (exists n: nat :: !C.Play(cfg, C.Begin(begin), es + CliTicks(period, n)).alive)
            <==> cfg.t1 <= FirstTick(cfg.t3, period)
  {
    var alive := (n: nat) => C.Play(cfg, C.Begin(begin), es + CliTicks(period, n)).alive;
    CliQuietIs(cfg, begin, es);
    forall n: nat
      ensures alive(n) <==> !Pulses(cfg.t1, cfg.t3, period, Waiting(0, false), n).Gone?
    {
      CliAlive(cfg, begin, es, period, n);
    }
    Notices(cfg.t1, cfg.t3, period, alive);
    if n: nat :| !C.Play(cfg, C.Begin(begin), es + CliTicks(period, n)).alive {
      assert !alive(n);
    }
    if cfg.t1 <= FirstTick(cfg.t3, period) {
      var n: nat :| !alive(n);
      assert !C.Play(cfg, C.Begin(begin), es + CliTicks(period, n)).alive;
    }
  }

}
