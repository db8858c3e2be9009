/** The send and receive counters both ends of a session keep, and what acknowledgements do to them. */
module Window {
  import opened SeqNo

  type Time = int

  datatype SeqPending = SeqPending(seqNo: SeqNum, sendTime: Time)

  datatype Window = Window(
    seqNoSend: SeqNum,        // next outbound I frame
    ackNoSend: SeqNum,        // oldest outbound I frame not yet acknowledged
    seqNoRcv: SeqNum,         // next inbound I frame
    ackNoRcv: SeqNum,         // last acknowledgement transmitted
    pending: seq<SeqPending>) // the outbound I frames not yet acknowledged

  const FRESH := Window(0, 0, 0, 0, [])

  function Unacked(w: Window): nat {
    SeqNoCount(w.ackNoSend, w.seqNoSend)
  }

  /** The counters after one I frame went out; it carries an acknowledgement. */
  function Pushed(w: Window, now: Time): Window {
    w.(ackNoRcv := w.seqNoRcv,
       seqNoSend := Next(w.seqNoSend),
       pending := w.pending + [SeqPending(w.seqNoSend, now)])
  }

  /** Index of the first entry with this number, or the length when there is none. */
  function IndexOf(p: seq<SeqPending>, n: SeqNum): (i: nat)
    ensures i <= |p|
    ensures forall j :: 0 <= j < i ==> p[j].seqNo != n
    ensures i < |p| ==> p[i].seqNo == n
  {
    if p == [] || p[0].seqNo == n then 0 else 1 + IndexOf(p[1..], n)
  }

  /** Everything up to and including the first entry with this number removed. */
  function DropThrough(p: seq<SeqPending>, n: SeqNum): seq<SeqPending> {
    var i := IndexOf(p, n);
    if i < |p| then p[i + 1..] else p
  }

  /** updateAckNoOut */
  function UpdateAckNoOut(w: Window, ackNo: SeqNum): (Window, bool) {
    if ackNo == w.ackNoSend then (w, true)
    else if Unacked(w) < SeqNoCount(ackNo, w.seqNoSend) then (w, false)
    else (w.(pending := DropThrough(w.pending, Previous(ackNo)), ackNoSend := ackNo), true)
  }

  /** The counters after one I frame was accepted. */
  function Received(w: Window): Window {
    w.(seqNoRcv := Next(w.seqNoRcv))
  }

  /** The counters after everything received has been acknowledged. */
  function Acknowledged(w: Window): Window {
    w.(ackNoRcv := w.seqNoRcv)
  }

  /**
   * pending holds exactly the numbers ackNoSend .. seqNoSend - 1 in order, at most k of them,
   * with non-decreasing send times not in the future.
   */
  ghost predicate Valid(w: Window, k: nat, clock: Time) {
    && |w.pending| == Unacked(w) <= k
    && (forall i :: 0 <= i < |w.pending| ==> w.pending[i].seqNo == Ahead(w.ackNoSend, i))
    && (forall i, j :: 0 <= i <= j < |w.pending| ==> w.pending[i].sendTime <= w.pending[j].sendTime)
    && (forall i :: 0 <= i < |w.pending| ==> w.pending[i].sendTime <= clock)
  }

  /** One more I frame may go out while fewer than k <= 32767 are unacknowledged. */
  lemma PushedValid(w: Window, k: nat, clock: Time, now: Time)
    requires Valid(w, k, clock) && Unacked(w) < k <= 32767 && clock <= now
    ensures Valid(Pushed(w, now), k, now)
    ensures Unacked(Pushed(w, now)) == Unacked(w) + 1
  {
    var d := Unacked(w);
    SeqNoCountIsDistance(w.ackNoSend, w.seqNoSend, d);
    SeqNoCountIsDistance(w.ackNoSend, Next(w.seqNoSend), d + 1);
  }

  /**
   * An acknowledgement is accepted exactly when it lies in the window, and then it removes from
   * pending exactly the frames it confirms, oldest first; the rest is untouched.
   */
  lemma AckExact(w: Window, k: nat, clock: Time, ackNo: SeqNum)
    requires Valid(w, k, clock) && k <= 32767
    ensures var (w', ok) := UpdateAckNoOut(w, ackNo);
            var n := SeqNoCount(w.ackNoSend, ackNo);
            && ok == (n <= Unacked(w))
            && Valid(w', k, clock)
            && (ok ==> w'.pending == w.pending[n..] && Unacked(w') == Unacked(w) - n)
            && w' == w.(ackNoSend := w'.ackNoSend, pending := w'.pending)
            && w'.ackNoSend == (if ok then ackNo else w.ackNoSend)
  {
    var n := SeqNoCount(w.ackNoSend, ackNo);
    SeqNoCountIsDistance(w.ackNoSend, ackNo, n);
    AckDistance(w.ackNoSend, ackNo, w.seqNoSend);
    if ackNo != w.ackNoSend {
      SeqNoCountIsDistance(w.ackNoSend, ackNo, 0);
      if n <= Unacked(w) {
        IndexOfConsecutive(w.pending, w.ackNoSend, n);
        PreviousOf(w.ackNoSend, ackNo, n);
        ConfirmedValid(w, k, clock, ackNo);
      }
    } else {
      SeqNoCountIsDistance(w.ackNoSend, ackNo, 0);
    }
  }

  lemma PreviousOf(ack: SeqNum, n: SeqNum, d: nat)
    requires 1 <= d <= 32767 && Ahead(ack, d) == n
    ensures Previous(n) == Ahead(ack, d - 1)
  {
  }

  /** Dropping the confirmed prefix of pending keeps the window valid. */
  lemma ConfirmedValid(w: Window, k: nat, clock: Time, ackNo: SeqNum)
    requires Valid(w, k, clock) && SeqNoCount(w.ackNoSend, ackNo) <= Unacked(w)
    ensures Valid(w.(pending := w.pending[SeqNoCount(w.ackNoSend, ackNo)..], ackNoSend := ackNo), k, clock)
  {
    var n := SeqNoCount(w.ackNoSend, ackNo);
    SeqNoCountIsDistance(w.ackNoSend, ackNo, n);
    AckDistance(w.ackNoSend, ackNo, w.seqNoSend);
    forall i | 0 <= i < |w.pending| - n ensures w.pending[n..][i].seqNo == Ahead(ackNo, i) {
      assert w.pending[n..][i] == w.pending[n + i];
      AheadAhead(w.ackNoSend, n, i);
    }
  }

  lemma AheadAhead(a: SeqNum, n: nat, i: nat)
    ensures Ahead(Ahead(a, n), i) == Ahead(a, n + i)
  {
  }

  /** Whether a number lies between the two ends of a window is decided by the distances alone. */
  lemma AckDistance(ack: SeqNum, n: SeqNum, send: SeqNum)
    ensures SeqNoCount(n, send) <= SeqNoCount(ack, send) <==> SeqNoCount(ack, n) <= SeqNoCount(ack, send)
    ensures SeqNoCount(ack, n) <= SeqNoCount(ack, send)
            ==> SeqNoCount(n, send) == SeqNoCount(ack, send) - SeqNoCount(ack, n)
  {
  }

  lemma IndexOfConsecutive(p: seq<SeqPending>, first: SeqNum, n: nat)
    requires 1 <= n <= |p| <= 32767
    requires forall i :: 0 <= i < |p| ==> p[i].seqNo == Ahead(first, i)
    ensures IndexOf(p, Ahead(first, n - 1)) == n - 1
  {
    var i := IndexOf(p, Ahead(first, n - 1));
    assert p[n - 1].seqNo == Ahead(first, n - 1);
    assert i <= n - 1;
    assert p[i].seqNo == Ahead(first, i);
    SeqNoCountIsDistance(first, p[i].seqNo, i);
    SeqNoCountIsDistance(first, p[i].seqNo, n - 1);
  }
}
