/**
 * What a session can know of its past: the frames it got and sent and the ASDUs it took for sending, each with
 * its time, and what follows from them alone.
 */
module SessionHistory {
  import opened Octets
  import opened SeqNo
  import opened Apci
  import opened Window
  import opened Config104
  import opened Session104

  /** The two ends judge received frames alike, but for what starts transfer and what an idle end listens to. */
  datatype Role = Controlled | Controlling

  /** Took: an ASDU leaves the send queue, in an I frame if it fits one. */
  datatype Stamp =
    | In(frame: Frame, at: Time)
    | Out(frame: Frame, at: Time)
    | Took(asdu: Bytes, at: Time)

  /**
   * What the past amounts to: when each ASDU was taken and how many of them the peer has confirmed; how many I
   * frames were accepted, and when those came that were not yet acknowledged; whether transfer is on, or was asked
   * to stop; when something last happened; and since when a confirmation is waited for.
   */
  datatype View = View(
    sent: seq<Time>, confirmed: nat, accepted: nat, unannounced: seq<Time>, active: bool, stopping: bool,
    idle: Time, test: Timer, start: Timer, stop: Timer)

  function Nothing(at: Time): View {
    View([], 0, 0, [], false, false, at, Never, Never, Never)
  }

  /** An acknowledgement confirms what it says if it is a number between the oldest unconfirmed and the next one. */
  predicate Confirms(v: View, r: SeqNum, n: nat) {
    Between(v.confirmed, |v.sent|, r, n)
  }

  predicate Between(oldest: nat, next: nat, r: SeqNum, n: nat) {
    oldest <= n <= next && Wrap(n) == r
  }

  ghost predicate Allowed(v: View, r: SeqNum) {
    InWindow(v.confirmed, |v.sent|, r)
  }

  ghost predicate InWindow(oldest: nat, next: nat, r: SeqNum) {
    exists n :: Between(oldest, next, r, n)
  }

  ghost function Reached(oldest: nat, next: nat, r: SeqNum): nat {
    if n: nat :| Between(oldest, next, r, n) then n else oldest
  }

  ghost function Confirmed(v: View, r: SeqNum): View {
    v.(confirmed := Reached(v.confirmed, |v.sent|, r))
  }

  /** A frame comes in. */
  ghost function Heard(role: Role, v: View, f: Frame, at: Time): View {
    match f
    case SFrame(r) => Confirmed(v, r)
    case IFrame(_, r, _) =>
      if v.active then Confirmed(v, r).(accepted := v.accepted + 1, unannounced := v.unannounced + [at])
      else if role.Controlled? then Confirmed(v, r) else v
    case UFrame(u) =>
      match u
      case StartDtActive => if role.Controlled? then v.(active := true, stopping := false) else v
      case StopDtActive => if role.Controlled? then v.(active := false, stopping := true) else v
      case StartDtConfirm => if role.Controlling? then v.(active := true, start := Never) else v
      case StopDtConfirm => if role.Controlling? then v.(active := false, stop := Never) else v
      case TestFrActive => v
      case TestFrConfirm => v.(test := Never)
  }

  /** A frame goes out. An I frame is seen when its ASDU is taken. */
  function Said(v: View, f: Frame, at: Time): View {
    match f
    case SFrame(_) => v.(unannounced := [])
    case IFrame(_, _, _) => v
    case UFrame(u) =>
      match u
      case TestFrActive => v.(test := Since(at), idle := at)
      case StartDtActive => v.(start := Since(at))
      case StopDtActive => v.(stop := Since(at))
      case StopDtConfirm => v.(stopping := false)
      case StartDtConfirm | TestFrConfirm => v
  }

  ghost function See(role: Role, v: View, x: Stamp): View {
    match x
    case In(f, at) => Heard(role, v.(idle := at), f, at)
    case Out(f, at) => Said(v, f, at)
    case Took(_, at) => v.(sent := v.sent + [at], unannounced := [], idle := at)
  }

  /** The view after a past that began at the given time. */
  ghost function ViewOf(role: Role, begin: Time, past: seq<Stamp>): View {
    if past == [] then Nothing(begin) else See(role, ViewOf(role, begin, past[..|past| - 1]), past[|past| - 1])
  }

  lemma SeesOne(role: Role, begin: Time, past: seq<Stamp>, x: Stamp)
    ensures ViewOf(role, begin, past + [x]) == See(role, ViewOf(role, begin, past), x)
  {
    assert (past + [x])[..|past|] == past;
  }

  /** Frames that go out one after the other. */
  function Outs(fs: seq<Frame>, at: Time): seq<Stamp> {
    seq(|fs|, i requires 0 <= i < |fs| => Out(fs[i], at))
  }

  function SaidAll(v: View, fs: seq<Frame>, at: Time): View
    decreases |fs|
  {
    if fs == [] then v else SaidAll(Said(v, fs[0], at), fs[1..], at)
  }

  lemma SaidTwo(v: View, fs: seq<Frame>, at: Time)
    requires |fs| <= 2
    ensures SaidAll(v, fs, at) == if fs == [] then v
                                  else if |fs| == 1 then Said(v, fs[0], at) else Said(Said(v, fs[0], at), fs[1], at)
  {
    if |fs| == 2 {
      assert fs[1..] == [fs[1]];
      assert SaidAll(Said(v, fs[0], at), [fs[1]], at) == Said(Said(v, fs[0], at), fs[1], at);
    }
  }

  lemma {:induction false} SeesOuts(role: Role, begin: Time, past: seq<Stamp>, fs: seq<Frame>, at: Time)
    ensures ViewOf(role, begin, past + Outs(fs, at)) == SaidAll(ViewOf(role, begin, past), fs, at)
    decreases |fs|
  {
    if fs == [] {
      assert past + Outs(fs, at) == past;
    } else {
      SeesOne(role, begin, past, Out(fs[0], at));
      SeesOuts(role, begin, past + [Out(fs[0], at)], fs[1..], at);
      assert past + Outs(fs, at) == past + [Out(fs[0], at)] + Outs(fs[1..], at);
    }
  }

  // ---- the counters and the past ----

  /** The 15-bit counters and the pending list are what the past makes them. */
  ghost predicate Counts(k: nat, w: nat, v: View, win: Window) {
    && v.confirmed <= |v.sent| <= v.confirmed + k
    && win.seqNoSend == Wrap(|v.sent|) && win.ackNoSend == Wrap(v.confirmed)
    && |win.pending| == |v.sent| - v.confirmed
    && (forall i :: 0 <= i < |win.pending| ==> win.pending[i].sendTime == v.sent[v.confirmed + i])
    && |v.unannounced| < w && |v.unannounced| <= v.accepted
    && win.seqNoRcv == Wrap(v.accepted) && win.ackNoRcv == Wrap(v.accepted - |v.unannounced|)
  }

  lemma CountsDistance(k: nat, w: nat, v: View, win: Window)
    requires Counts(k, w, v, win) && k <= 32767 && w <= 32767
    ensures Unacked(win) == |v.sent| - v.confirmed && SeqNoCount(win.ackNoRcv, win.seqNoRcv) == |v.unannounced|
    ensures win.ackNoSend == win.seqNoSend <==> v.confirmed == |v.sent|
    ensures win.ackNoRcv == win.seqNoRcv <==> v.unannounced == []
  {
    CountUnwraps(v.confirmed, |v.sent|);
    CountUnwraps(v.accepted - |v.unannounced|, v.accepted);
    WrapInjective(v.confirmed, |v.sent|);
    WrapInjective(v.accepted - |v.unannounced|, v.accepted);
  }

  lemma CountsNumbers(k: nat, w: nat, v: View, win: Window)
    requires Counts(k, w, v, win)
    ensures win.seqNoRcv == Wrap(v.accepted)
  {
  }

  /** Only the counts of a view count. */
  lemma CountsAside(k: nat, w: nat, v: View, v': View, win: Window)
    requires Counts(k, w, v, win) && v' == v.(test := v'.test, idle := v'.idle)
    ensures Counts(k, w, v', win)
  {
  }

  lemma CountsTook(k: nat, w: nat, v: View, win: Window, at: Time)
    requires Counts(k, w, v, win) && |v.sent| < v.confirmed + k && w > 0
    ensures Counts(k, w, v.(sent := v.sent + [at], unannounced := [], idle := at), Pushed(win, at))
  {
    WrapNext(|v.sent|);
  }

  lemma Distances(v: View, r: SeqNum, n: nat)
    requires Confirms(v, r, n) && |v.sent| <= v.confirmed + 32767
    ensures n == v.confirmed + SeqNoCount(Wrap(v.confirmed), r)
  {
    CountUnwraps(v.confirmed, n);
  }

  lemma AckAllowed(v: View, r: SeqNum)
    requires v.confirmed <= |v.sent| <= v.confirmed + 32767
    ensures SeqNoCount(Wrap(v.confirmed), r) <= |v.sent| - v.confirmed
            ==> Confirms(v, r, v.confirmed + SeqNoCount(Wrap(v.confirmed), r))
  {
    var d := SeqNoCount(Wrap(v.confirmed), r);
    SeqNoCountIsDistance(Wrap(v.confirmed), r, d);
    assert Ahead(Wrap(v.confirmed), d) == Wrap(v.confirmed + d);
  }

  lemma OnlyOne(v: View, r: SeqNum, m: nat)
    requires Confirms(v, r, m) && |v.sent| <= v.confirmed + 32767
    ensures Confirmed(v, r) == v.(confirmed := m)
  {
    forall n: nat | Confirms(v, r, n)
      ensures n == m
    {
      Distances(v, r, n);
      Distances(v, r, m);
    }
  }

  /** What the past says about an acknowledgement: it confirms something, or is out of the window. */
  lemma AckSeen(v: View, r: SeqNum)
    requires v.confirmed <= |v.sent| <= v.confirmed + 32767
    ensures
      var d := SeqNoCount(Wrap(v.confirmed), r);
      && (d <= |v.sent| - v.confirmed <==> Allowed(v, r))
      && Confirmed(v, r) == if d <= |v.sent| - v.confirmed then v.(confirmed := v.confirmed + d) else v
  {
    var d := SeqNoCount(Wrap(v.confirmed), r);
    AckAllowed(v, r);
    if d <= |v.sent| - v.confirmed {
      OnlyOne(v, r, v.confirmed + d);
    } else {
      forall n: nat ensures !Confirms(v, r, n) {
        if Confirms(v, r, n) { Distances(v, r, n); }
      }
    }
  }

  lemma CountsMoved(k: nat, w: nat, v: View, win: Window, win': Window, r: SeqNum, d: nat)
    requires Counts(k, w, v, win) && d <= |v.sent| - v.confirmed && Wrap(v.confirmed + d) == r
    requires win' == win.(ackNoSend := r, pending := win.pending[d..])
    ensures Counts(k, w, v.(confirmed := v.confirmed + d), win')
  {
  }

  /** The window accepts exactly the acknowledgements that confirm something the past allows. */
  lemma CountsConfirmed(k: nat, w: nat, v: View, win: Window, clock: Time, r: SeqNum)
    requires Counts(k, w, v, win) && k <= 32767 && w <= 32767 && Valid(win, k, clock)
    ensures
      var (win', ok) := UpdateAckNoOut(win, r);
      && (ok <==> Allowed(v, r)) && Counts(k, w, Confirmed(v, r), win')
      && win'.seqNoRcv == win.seqNoRcv && win'.ackNoRcv == win.ackNoRcv
  {
    var d := SeqNoCount(Wrap(v.confirmed), r);
    AckExact(win, k, clock, r);
    CountsDistance(k, w, v, win);
    AckSeen(v, r);
    if d <= |v.sent| - v.confirmed {
      assert Confirms(v, r, v.confirmed + d) by { AckAllowed(v, r); }
      CountsMoved(k, w, v, win, UpdateAckNoOut(win, r).0, r, d);
    }
  }

  lemma CountsAccepted(k: nat, w: nat, v: View, win: Window, at: Time)
    requires Counts(k, w, v, win) && |v.unannounced| + 1 < w
    ensures Counts(k, w, v.(accepted := v.accepted + 1, unannounced := v.unannounced + [at]), Received(win))
  {
    WrapNext(v.accepted);
  }

  lemma CountsAnnounced(k: nat, w: nat, v: View, win: Window)
    requires Counts(k, w, v, win) && w > 0
    ensures Counts(k, w, v.(unannounced := []), Acknowledged(win))
  {
  }

  /** One more I frame is accepted: an S frame follows if it is the w-th without one. */
  lemma CountsTaken(k: nat, w: nat, v: View, win: Window, at: Time)
    requires Counts(k, w, v, win) && k <= 32767 && w <= 32767
    ensures
      var (win', out) := AfterReceive(win, w);
      var u := v.(accepted := v.accepted + 1, unannounced := v.unannounced + [at]);
      && out == (if |v.unannounced| + 1 >= w then [SFrame(Wrap(v.accepted + 1))] else [])
      && Counts(k, w, SaidAll(u, out, at), win')
  {
    WrapNext(v.accepted);
    CountUnwraps(v.accepted - |v.unannounced|, v.accepted + 1);
    if |v.unannounced| + 1 < w {
      CountsAccepted(k, w, v, win, at);
    } else {
      var u := v.(accepted := v.accepted + 1, unannounced := v.unannounced + [at]);
      assert SaidAll(u, [SFrame(Wrap(v.accepted + 1))], at) == SaidAll(u.(unannounced := []), [], at);
    }
  }
}
