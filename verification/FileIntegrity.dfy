/** Whether the file that arrives is the file that was sent. */
module FileIntegrity {
  import opened AsduParams
  import opened Octets
  import opened FileTransfer
  import opened FilePieces
  import opened FileNet
  import opened FileTheorems

  // ---- what can go unnoticed ----

  /** The Receiver is about to judge a section. */
  ghost predicate AtSectionEnd(j: Job, s: Sys) {
    && Posed(j) && s.snd.cur < |Sections(j)|
    && s.up == [] && |s.down| == 1 && s.down[0].body.LastOf? && s.down[0].body.lsq == LastOfSection
  }

  /** It is about to acknowledge a section that is not the one that was sent. */
  ghost predicate Missed(j: Job, s: Sys) {
    && AtSectionEnd(j, s) && s.rcv.sectionBuf != Sections(j)[s.snd.cur]
    && Checksum(s.rcv.sectionBuf) == Checksum(Sections(j)[s.snd.cur])
  }

  /** What was acknowledged so far is what was sent. */
  ghost predicate Intact(j: Job, s: Sys)
    requires Posed(j)
  {
    s.accepted <= Sections(j)
  }

  /** b is a with at most one octet changed. */
  ghost predicate AtMostOneOff(a: Bytes, b: Bytes) {
    b == a || (|b| == |a| && exists i :: 0 <= i < |a| && b == a[i := b[i]])
  }

  /** The damage, if the environment does any now, is to one octet, and the first in this pass of the section. */
  ghost predicate Gentle(j: Job, s: Sys, c: Option<Bytes>) {
    Posed(j) && s.snd.cur < |Sections(j)| && s.up == [] && s.down != [] && Damages(s, c)
    ==> AtMostOneOff(s.down[0].body.data, c.value) && s.rcv.sectionBuf <= Sections(j)[s.snd.cur]
  }

  /** The section under way differs from what was sent of it in at most one octet. */
  ghost predicate Slight(j: Job, ph: Phase, s: Sys)
    requires Shape(j, ph, s)
  {
    ph.Sending? ==> AtMostOneOff(Flatten(Segments(j, s.snd.cur)[..ph.k]), s.rcv.sectionBuf)
  }

  // ---- at most one octet ----

  lemma OneOffLeft(a: Bytes, b: Bytes, d: Bytes)
    requires AtMostOneOff(a, b)
    ensures AtMostOneOff(a + d, b + d)
  {
    if b != a {
      var i :| 0 <= i < |a| && b == a[i := b[i]];
      assert b + d == (a + d)[i := (b + d)[i]];
    }
  }

  lemma OneOffRight(a: Bytes, d: Bytes, e: Bytes)
    requires AtMostOneOff(d, e)
    ensures AtMostOneOff(a + d, a + e)
  {
    if d != e {
      var i :| 0 <= i < |d| && e == d[i := e[i]];
      assert a + e == (a + d)[|a| + i := (a + e)[|a| + i]];
    }
  }

  /** The checksum sees it. */
  lemma OneOffSeen(a: Bytes, b: Bytes)
    requires AtMostOneOff(a, b) && a != b
    ensures Checksum(a) != Checksum(b)
  {
    var i :| 0 <= i < |a| && b == a[i := b[i]];
    OneOctetDetected(a, i, b[i]);
  }

  // ---- one delivery ----

  /** What one delivery does to what was acknowledged. */
  ghost predicate Judges(j: Job, s: Sys, t: Sys)
    requires Posed(j)
  {
    s.accepted <= t.accepted && (Intact(j, t) <==> Intact(j, s) && !Missed(j, s))
  }

  lemma SegmentPrefix(j: Job, cur: nat, k: nat, buf: Bytes)
    requires Posed(j) && cur < |Sections(j)| && k <= |Segments(j, cur)| && |buf| == |Flatten(Segments(j, cur)[..k])|
    ensures Flatten(Segments(j, cur)[..k]) <= Sections(j)[cur]
    ensures buf <= Sections(j)[cur] <==> buf == Flatten(Segments(j, cur)[..k])
  {
    WholeSection(j, cur);
    var segs := Segments(j, cur);
    assert segs == segs[..k] + segs[k..];
    FlattenAppend(segs[..k], segs[k..]);
  }

  lemma SlightGrows(j: Job, k: nat, s: Sys, c: Option<Bytes>)
    requires Shape(j, Sending(k), s) && k < |Segments(j, s.snd.cur)| && s.down != []
    requires s.down[0] == Msg(j, Segment(Low(s.snd.cur + 1), Segments(j, s.snd.cur)[k]))
    requires Slight(j, Sending(k), s) && Gentle(j, s, c)
    ensures AtMostOneOff(Flatten(Segments(j, s.snd.cur)[..k + 1]),
                         s.rcv.sectionBuf + (if Damages(s, c) then c.value else Segments(j, s.snd.cur)[k]))
  {
    FlattenTo(Segments(j, s.snd.cur), k);
    if Damages(s, c) {
      SegmentPrefix(j, s.snd.cur, k, s.rcv.sectionBuf);
      OneOffRight(s.rcv.sectionBuf, Segments(j, s.snd.cur)[k], c.value);
    } else {
      OneOffLeft(Flatten(Segments(j, s.snd.cur)[..k]), s.rcv.sectionBuf, Segments(j, s.snd.cur)[k]);
    }
  }

  lemma SegmentJudges(j: Job, k: nat, s: Sys, c: Option<Bytes>)
    requires Shape(j, Sending(k), s) && k < |Segments(j, s.snd.cur)|
    ensures var t := Step(j.p, j.sectionSize, s, c);
            && Shape(j, Sending(k + 1), t) && Judges(j, s, t) && !Missed(j, s)
            && (Slight(j, Sending(k), s) && Gentle(j, s, c) ==> Slight(j, Sending(k + 1), t))
            && (s.budget == 0 ==> t.budget == 0 && (!Dirty(j, Sending(k), s) ==> !Dirty(j, Sending(k + 1), t)))
  {
    StepSegment(j, k, s, c);
    FlattenTo(Segments(j, s.snd.cur), k);
    if Slight(j, Sending(k), s) && Gentle(j, s, c) {
      SlightGrows(j, k, s, c);
    }
  }

  lemma IntactGrows(accepted: seq<Bytes>, section: Bytes, sections: seq<Bytes>)
    requires |accepted| < |sections|
    ensures accepted + [section] <= sections <==> accepted <= sections && section == sections[|accepted|]
  {
    var next := accepted + [section];
    if next <= sections {
      assert forall i :: 0 <= i < |next| ==> next[i] == sections[i];
      assert forall i :: 0 <= i < |accepted| ==> accepted[i] == next[i];
      assert next[|accepted|] == section;
    }
  }

  lemma SectionEndJudges(j: Job, k: nat, s: Sys, c: Option<Bytes>) returns (ph': Phase)
    requires Shape(j, Sending(k), s) && Kept(j, Sending(k), s) && k == |Segments(j, s.snd.cur)|
    ensures var t := Step(j.p, j.sectionSize, s, c);
            && Shape(j, ph', t) && !ph'.Sending? && Judges(j, s, t) && t.budget == s.budget
            && (Slight(j, Sending(k), s) ==> !Missed(j, s)) && (!Dirty(j, Sending(k), s) ==> !Missed(j, s))
  {
    WholeSection(j, s.snd.cur);
    ph' := StepSectionEnd(j, k, s, c);
    IntactGrows(s.accepted, s.rcv.sectionBuf, Sections(j));
    assert AtSectionEnd(j, s);
    if Slight(j, Sending(k), s) && s.rcv.sectionBuf != Sections(j)[s.snd.cur] {
      OneOffSeen(Sections(j)[s.snd.cur], s.rcv.sectionBuf);
    }
  }

  /** Every other delivery leaves what was acknowledged alone, and a new pass starts clean. */
  lemma OtherJudges(j: Job, ph: Phase, s: Sys, c: Option<Bytes>) returns (ph': Phase)
    requires Shape(j, ph, s) && !ph.Sending? && (ph == Closing ==> Kept(j, ph, s))
    ensures var t := Step(j.p, j.sectionSize, s, c);
            && Shape(j, ph', t) && Judges(j, s, t) && !Missed(j, s) && t.budget == s.budget
            && (ph'.Sending? ==> ph'.k == 0)
  {
    match ph {
      case Selecting => ph' := StepSelecting(j, s, c);
      case Announced => StepAnnounced(j, s, c); ph' := Calling;
      case Calling => ph' := StepCalling(j, s, c);
      case Offered => StepOffered(j, s, c); ph' := Requested;
      case Requested => StepRequested(j, s, c); ph' := Sending(0);
      case Refused => StepRefused(j, s, c); ph' := Sending(0);
      case Accepted => ph' := StepAccepted(j, s, c);
      case Closing =>
        SameChecksums(s.accepted, Sections(j));
        ChecksumOfSections(s.accepted);
        StepClosing(j, s, c);
        ph' := Closed;
      case Closed => StepClosed(j, s, c); ph' := Over;
      case _ => ph' := ph;
    }
  }

  /** What is on the wire tells the phase. */
  lemma PhaseUnique(j: Job, ph: Phase, ph': Phase, s: Sys)
    requires Shape(j, ph, s) && Shape(j, ph', s)
    ensures ph == ph'
  {
    if ph.Sending? && ph'.Sending? {
      assert |Tail(j, s.snd.cur, ph.k)| == |Segments(j, s.snd.cur)| - ph.k + 1;
    } else if ph.Sending? {
      TailStarts(j, s.snd.cur, ph.k);
    } else if ph'.Sending? {
      TailStarts(j, s.snd.cur, ph'.k);
    }
  }

  lemma TailStarts(j: Job, cur: nat, k: nat)
    requires Posed(j) && cur < |Sections(j)| && k <= |Segments(j, cur)|
    ensures var m := Tail(j, cur, k)[0].body; m.Segment? || (m.LastOf? && m.lsq == LastOfSection)
  {
  }

  /** One delivery: the transfer goes on, and what it says about the octets. */
  lemma StepJudges(j: Job, ph: Phase, s: Sys, c: Option<Bytes>) returns (ph': Phase, t: Sys)
    requires Deliverable(j) && Shape(j, ph, s) && Kept(j, ph, s)
    ensures t == Step(j.p, j.sectionSize, s, c) && Shape(j, ph', t) && Kept(j, ph', t) && Judges(j, s, t)
    ensures Slight(j, ph, s) && Gentle(j, s, c) ==> Slight(j, ph', t) && !Missed(j, s)
    ensures s.budget == 0 && !Dirty(j, ph, s) ==> t.budget == 0 && !Dirty(j, ph', t) && !Missed(j, s)
  {
    hide Kept, Judges, Segments;
    t := Step(j.p, j.sectionSize, s, c);
    if ph == Over {
      OverJudges(j, s, c);
      ph' := Over;
    } else {
      ph' := StepAdvances(j, ph, s, c);
      var ph1: Phase;
      if ph.Sending? {
        if ph.k < |Segments(j, s.snd.cur)| {
          SegmentJudges(j, ph.k, s, c);
          ph1 := Sending(ph.k + 1);
        } else {
          ph1 := SectionEndJudges(j, ph.k, s, c);
        }
      } else {
        ph1 := OtherJudges(j, ph, s, c);
        FreshPass(j, ph1, t);
      }
      PhaseUnique(j, ph1, ph', t);
    }
  }

  lemma OverJudges(j: Job, s: Sys, c: Option<Bytes>)
    requires Shape(j, Over, s)
    ensures Step(j.p, j.sectionSize, s, c) == s && Judges(j, s, s) && !Missed(j, s)
  {
  }

  /** A pass that has not begun is clean. */
  lemma FreshPass(j: Job, ph: Phase, s: Sys)
    requires Shape(j, ph, s) && (ph.Sending? ==> ph.k == 0)
    ensures Slight(j, ph, s) && !Dirty(j, ph, s)
  {
    if ph.Sending? {
      assert Segments(j, s.snd.cur)[..0] == [];
    }
  }

  // ---- whole runs ----

  /** The states of a run, one after the other. */
  ghost function Run(j: Job, s: Sys, adv: nat -> Option<Bytes>, at: nat): nat -> Sys {
    (k: nat) => Play(j, s, adv, at, k)
  }

  /** In none of the first n states was a damaged section about to be acknowledged. */
  ghost predicate NoneMissed(j: Job, run: nat -> Sys, n: nat) {
    forall k: nat :: k < n ==> !Missed(j, run(k))
  }

  ghost predicate AllGentle(j: Job, run: nat -> Sys, adv: nat -> Option<Bytes>, at: nat, n: nat) {
    forall k: nat :: k < n ==> Gentle(j, run(k), adv(at + k))
  }

  lemma NoneOneMore(j: Job, run: nat -> Sys, n: nat, t: Sys)
    requires t == run(n)
    ensures NoneMissed(j, run, n + 1) <==> NoneMissed(j, run, n) && !Missed(j, t)
  {
  }

  lemma GentleOneMore(j: Job, run: nat -> Sys, adv: nat -> Option<Bytes>, at: nat, n: nat, t: Sys)
    requires t == run(n)
    ensures AllGentle(j, run, adv, at, n + 1) <==> AllGentle(j, run, adv, at, n) && Gentle(j, t, adv(at + n))
  {
  }

  /** One more delivery of a run. */
  lemma NextJudges(j: Job, ph: Phase, s: Sys, adv: nat -> Option<Bytes>, at: nat, n: nat, t: Sys)
      returns (ph': Phase, t': Sys)
    requires Deliverable(j) && Shape(j, ph, t) && Kept(j, ph, t) && t == Play(j, s, adv, at, n)
    ensures t' == Play(j, s, adv, at, n + 1) && Shape(j, ph', t') && Kept(j, ph', t') && Judges(j, t, t')
    ensures Slight(j, ph, t) && Gentle(j, t, adv(at + n)) ==> Slight(j, ph', t') && !Missed(j, t)
    ensures t.budget == 0 && !Dirty(j, ph, t) ==> t'.budget == 0 && !Dirty(j, ph', t') && !Missed(j, t)
  {
    ph', t' := StepJudges(j, ph, t, adv(at + n));
    PlayLast(j, s, adv, at, n);
  }

  /** What a run of n deliveries says about the octets. */
  ghost predicate Judged(j: Job, s: Sys, adv: nat -> Option<Bytes>, at: nat, n: nat, ph: Phase, t: Sys) {
    && t == Play(j, s, adv, at, n) && Shape(j, ph, t) && Kept(j, ph, t) && s.accepted <= t.accepted
    && var run := Run(j, s, adv, at);
       && (Intact(j, t) <==> NoneMissed(j, run, n))
       && (AllGentle(j, run, adv, at, n) ==> NoneMissed(j, run, n) && Slight(j, ph, t))
       && (s.budget == 0 ==> NoneMissed(j, run, n) && t.budget == 0 && !Dirty(j, ph, t))
  }

  lemma JudgedOneMore(j: Job, s: Sys, adv: nat -> Option<Bytes>, at: nat, n: nat, ph: Phase, t: Sys)
      returns (ph': Phase, t': Sys)
    requires Deliverable(j) && Judged(j, s, adv, at, n, ph, t)
    ensures Judged(j, s, adv, at, n + 1, ph', t')
  {
    ph', t' := NextJudges(j, ph, s, adv, at, n, t);
    var run := Run(j, s, adv, at);
    NoneOneMore(j, run, n, t);
    GentleOneMore(j, run, adv, at, n, t);
  }

  lemma JudgedAtStart(j: Job, ph: Phase, s: Sys, adv: nat -> Option<Bytes>, at: nat)
    requires Shape(j, ph, s) && Kept(j, ph, s) && Intact(j, s) && Slight(j, ph, s) && !Dirty(j, ph, s)
    ensures Judged(j, s, adv, at, 0, ph, s)
  {
  }

  lemma RunJudges(j: Job, ph: Phase, s: Sys, adv: nat -> Option<Bytes>, at: nat, n: nat)
      returns (ph': Phase, t: Sys)
    requires Deliverable(j) && Shape(j, ph, s) && Kept(j, ph, s) && Intact(j, s)
    requires Slight(j, ph, s) && !Dirty(j, ph, s)
    ensures Judged(j, s, adv, at, n, ph', t)
  {
    hide Judged, Shape, Kept, Slight, Dirty, Deliverable, Intact;
    JudgedAtStart(j, ph, s, adv, at);
    var k: nat := 0;
    ph', t := ph, s;
    while k < n
      invariant k <= n && Judged(j, s, adv, at, k, ph', t)
    {
      ph', t := JudgedOneMore(j, s, adv, at, k, ph', t);
      k := k + 1;
    }
  }

  // ---- what arrives ----

  lemma {:induction false} IterateSplit<S>(f: (S, nat) -> S, s: S, at: nat, n: nat, m: nat, mid: nat, t: S)
    requires t == Iterate(f, s, at, n) && mid == at + n
    ensures Iterate(f, s, at, n + m) == Iterate(f, t, mid, m)
    decreases n
  {
    if n > 0 {
      IterateSplit(f, f(s, at), at + 1, n - 1, m, mid, t);
    }
  }

  /** After the end of a transfer nothing is missed any more. */
  lemma NoneMissedAfter(j: Job, s: Sys, adv: nat -> Option<Bytes>, n: nat, k: nat)
    requires NoneMissed(j, Run(j, s, adv, 0), n) && Play(j, s, adv, 0, n).up == [] && Play(j, s, adv, 0, n).down == []
    ensures !Missed(j, Play(j, s, adv, 0, k))
  {
    if k >= n {
      PlayStays(j, s, adv, n, k - n);
    } else {
      assert Run(j, s, adv, 0)(k) == Play(j, s, adv, 0, k);
    }
  }

  lemma PlayStays(j: Job, s: Sys, adv: nat -> Option<Bytes>, n: nat, m: nat)
    requires Play(j, s, adv, 0, n).up == [] && Play(j, s, adv, 0, n).down == []
    ensures Play(j, s, adv, 0, n + m) == Play(j, s, adv, 0, n)
  {
    IterateSplit(Mover(j, adv), s, 0, n, m, n, Play(j, s, adv, 0, n));
    QuietStays(j, Play(j, s, adv, 0, n), adv, n, m);
  }

  lemma {:induction false} FlattenLength(a: seq<Bytes>, b: seq<Bytes>)
    requires |a| == |b| && forall i :: 0 <= i < |a| ==> |a[i]| == |b[i]|
    ensures |Flatten(a)| == |Flatten(b)|
  {
    if a != [] {
      FlattenLength(a[1..], b[1..]);
    }
  }

  /** Sections of the right lengths join to the file only if they are the file's. */
  lemma JoinedIsLoaded(j: Job, accepted: seq<Bytes>)
    requires Posed(j) && Matching(j, accepted) && |accepted| == |Sections(j)|
    ensures |Flatten(accepted)| == |Data(j)|
    ensures Flatten(accepted) == Data(j) <==> accepted == Sections(j)
  {
    SectionsJoin(Data(j), j.sectionSize);
    FlattenLength(accepted, Sections(j));
    if Flatten(accepted) == Data(j) {
      FlattenInjective(accepted, Sections(j));
    }
  }

  /** The state at the end of a run, seen both ways. */
  lemma EndJudged(j: Job, s: Sys, adv: nat -> Option<Bytes>, n: nat, ph: Phase, t: Sys)
    requires Deliverable(j) && Judged(j, s, adv, 0, n, ph, t) && t.up == [] && t.down == [] && !t.rcv.active
    ensures t.delivered == [File(j.ioa, j.nof, Data(j))] <==> NoneMissed(j, Run(j, s, adv, 0), n)
  {
    assert ph == Over;
    JoinedIsLoaded(j, t.accepted);
    assert Intact(j, t) <==> t.accepted == Sections(j);
  }

  lemma StartClean(j: Job, snd: Snd, rcv: Rcv, budget: nat)
    requires Ready(j, snd, rcv) && Posed(j)
    ensures var s := Start(j, snd, rcv, budget);
            && Shape(j, Selecting, s) && Kept(j, Selecting, s) && Intact(j, s)
            && Slight(j, Selecting, s) && !Dirty(j, Selecting, s) && s.budget == budget
  {
    StartSelects(j, snd, rcv, budget);
  }

  /**
   * The transfer of a deliverable file ends with one file delivered, and it is the loaded one exactly
   * when at no moment of the run a damaged section with the checksum of the original was about to be
   * acknowledged. All damage that changes a section's checksum is repaired.
   */
  lemma LoadedArrivesExactlyWhenNoneMissed(j: Job, snd: Snd, rcv: Rcv, adv: nat -> Option<Bytes>, budget: nat)
      returns (n: nat)
    requires Ready(j, snd, rcv) && Deliverable(j)
    ensures var s := Start(j, snd, rcv, budget);
            var t := Play(j, s, adv, 0, n);
            && t.up == [] && t.down == [] && !t.snd.active && !t.rcv.active && |t.delivered| == 1
            && (t.delivered == [File(j.ioa, j.nof, Data(j))] <==> forall k: nat :: !Missed(j, Play(j, s, adv, 0, k)))
            && (budget == 0 ==> t.delivered == [File(j.ioa, j.nof, Data(j))])
  {
    var s := Start(j, snd, rcv, budget);
    n := TransferEnds(j, snd, rcv, adv, budget);
    StartClean(j, snd, rcv, budget);
    var ph, t := RunJudges(j, Selecting, s, adv, 0, n);
    EndJudged(j, s, adv, n, ph, t);
    if NoneMissed(j, Run(j, s, adv, 0), n) {
      forall k: nat
        ensures !Missed(j, Play(j, s, adv, 0, k))
      {
        NoneMissedAfter(j, s, adv, n, k);
      }
    }
  }

  /** An environment that changes at most one octet in each pass of a section cannot alter the file. */
  lemma OneOctetPerPassHarmless(j: Job, snd: Snd, rcv: Rcv, adv: nat -> Option<Bytes>, budget: nat) returns (n: nat)
    requires Ready(j, snd, rcv) && Deliverable(j)
    requires forall k: nat :: Gentle(j, Play(j, Start(j, snd, rcv, budget), adv, 0, k), adv(k))
    ensures Play(j, Start(j, snd, rcv, budget), adv, 0, n).delivered == [File(j.ioa, j.nof, Data(j))]
  {
    var s := Start(j, snd, rcv, budget);
    n := TransferEnds(j, snd, rcv, adv, budget);
    StartClean(j, snd, rcv, budget);
    var ph, t := RunJudges(j, Selecting, s, adv, 0, n);
    assert AllGentle(j, Run(j, s, adv, 0), adv, 0, n);
    EndJudged(j, s, adv, n, ph, t);
  }

  // ---- a file that arrives altered ----

  /** An environment that always wants the same octets. */
  function Always(octets: Bytes): nat -> Option<Bytes> {
    (k: nat) => Some(octets)
  }

  /** The first five deliveries lead to the first segment on its way. */
  lemma FirstSegment(j: Job, s: Sys, adv: nat -> Option<Bytes>, c: Option<Bytes>) returns (t: Sys)
    requires Deliverable(j) && Shape(j, Selecting, s) && Kept(j, Selecting, s) && forall k: nat :: adv(k) == c
    ensures t == Play(j, s, adv, 0, 5)
    ensures Shape(j, Sending(0), t) && t.snd.cur == 0 && t.budget == s.budget && t.accepted == s.accepted
  {
    var s1, s2, s3, s4: Sys;
    s1, s2, s3, s4, t := FiveSteps(j, s, c);
    Unrolled(Mover(j, adv), s, s1, s2, s3, s4, t);
  }

  lemma Unrolled<S>(f: (S, nat) -> S, s: S, s1: S, s2: S, s3: S, s4: S, t: S)
    requires s1 == f(s, 0) && s2 == f(s1, 1) && s3 == f(s2, 2) && s4 == f(s3, 3) && t == f(s4, 4)
    ensures t == Iterate(f, s, 0, 5)
  {
    IterateLast(f, s, 0, 0);
    IterateLast(f, s, 0, 1);
    IterateLast(f, s, 0, 2);
    IterateLast(f, s, 0, 3);
    IterateLast(f, s, 0, 4);
  }

  lemma FiveSteps(j: Job, s: Sys, c: Option<Bytes>) returns (s1: Sys, s2: Sys, s3: Sys, s4: Sys, t: Sys)
    requires Deliverable(j) && Shape(j, Selecting, s) && Kept(j, Selecting, s)
    ensures s1 == Step(j.p, j.sectionSize, s, c) && s2 == Step(j.p, j.sectionSize, s1, c)
    ensures s3 == Step(j.p, j.sectionSize, s2, c) && s4 == Step(j.p, j.sectionSize, s3, c)
    ensures t == Step(j.p, j.sectionSize, s4, c)
    ensures Shape(j, Sending(0), t) && t.snd.cur == 0 && t.budget == s.budget && t.accepted == s.accepted
  {
    hide Step, Kept;
    var ph := StepSelecting(j, s, c);
    s1 := Step(j.p, j.sectionSize, s, c);
    StepAnnounced(j, s1, c);
    s2 := Step(j.p, j.sectionSize, s1, c);
    ph := StepCalling(j, s2, c);
    s3 := Step(j.p, j.sectionSize, s2, c);
    StepOffered(j, s3, c);
    s4 := Step(j.p, j.sectionSize, s3, c);
    NamedIs(s4.snd.cur);
    StepRequested(j, s4, c);
    t := Step(j.p, j.sectionSize, s4, c);
  }

  lemma TwoOctetsOneSegment(j: Job, x: Octet, y: Octet)
    requires Posed(j) && j.sectionSize >= 2 && Data(j) == [x, y]
    ensures Sections(j) == [[x, y]] && Segments(j, 0) == [[x, y]]
  {
    SegmentsFit(j.p, [x, y]);
  }

  lemma SwapSums(x: Octet, y: Octet)
    ensures Checksum([x, y]) == Checksum([y, x])
  {
    SwapEscapes([x, y], 0, 1);
    assert [x, y][0 := y][1 := x] == [y, x];
  }

  lemma SwapArrives(j: Job, s: Sys, c: Option<Bytes>, x: Octet, y: Octet)
    requires Shape(j, Sending(0), s) && s.snd.cur == 0 && s.budget > 0
    requires Segments(j, 0) == [[x, y]] && x != y && c == Some([y, x])
    ensures var t := Step(j.p, j.sectionSize, s, c);
            Shape(j, Sending(1), t) && t.snd == s.snd && t.accepted == s.accepted && t.rcv.sectionBuf == [y, x]
  {
    assert Segments(j, 0)[..0] == [];
    StepSegment(j, 0, s, c);
    assert [x, y] != [y, x] by { assert [x, y][0] != [y, x][0]; }
  }

  lemma SwapJudged(j: Job, s: Sys, c: Option<Bytes>, x: Octet, y: Octet)
    requires Shape(j, Sending(1), s) && s.snd.cur == 0 && s.accepted == [] && s.rcv.sectionBuf == [y, x]
    requires Sections(j) == [[x, y]] && Segments(j, 0) == [[x, y]]
    ensures var t := Step(j.p, j.sectionSize, s, c);
            Shape(j, Accepted, t) && t.accepted == [[y, x]]
  {
    SwapSums(x, y);
    var ph := StepSectionEnd(j, 1, s, c);
  }

  lemma StepGrows(j: Job, s: Sys, c: Option<Bytes>)
    ensures s.accepted <= Step(j.p, j.sectionSize, s, c).accepted
  {
  }

  lemma AcceptedGrows(j: Job, s: Sys, adv: nat -> Option<Bytes>, at: nat, n: nat)
    ensures s.accepted <= Play(j, s, adv, at, n).accepted
  {
    var f, inv := Mover(j, adv), (x: Sys) => s.accepted <= x.accepted;
    forall x: Sys, k: nat | inv(x)
      ensures inv(f(x, k))
    {
      MoverIs(j, adv, x, k);
      StepGrows(j, x, adv(k));
    }
    IterateKeeps(f, inv, s, at, n);
  }

  /** Seven deliveries into the transfer of [x, y] the swapped section is acknowledged. */
  lemma SevenDeliveries(j: Job, s: Sys, x: Octet, y: Octet)
    requires Deliverable(j) && Shape(j, Selecting, s) && Kept(j, Selecting, s) && s.budget > 0
    requires j.sectionSize >= 2 && Data(j) == [x, y] && x != y
    ensures var t := Play(j, s, Always([y, x]), 0, 7);
            Shape(j, Accepted, t) && t.accepted == [[y, x]]
  {
    var c := Some([y, x]);
    TwoOctetsOneSegment(j, x, y);
    var t5 := FirstSegment(j, s, Always([y, x]), c);
    SwapArrives(j, t5, c, x, y);
    var t6 := Step(j.p, j.sectionSize, t5, c);
    PlayLast(j, s, Always([y, x]), 0, 5);
    SwapJudged(j, t6, c, x, y);
    PlayLast(j, s, Always([y, x]), 0, 6);
  }

  /** From there on the transfer ends with what was acknowledged. */
  lemma FromAccepted(j: Job, t: Sys, adv: nat -> Option<Bytes>, at: nat, section: Bytes) returns (m: nat)
    requires Deliverable(j) && Shape(j, Accepted, t) && Kept(j, Accepted, t)
    requires |Sections(j)| == 1 && t.accepted == [section]
    ensures var u := Play(j, t, adv, at, m);
            u.up == [] && u.down == [] && u.delivered == [File(j.ioa, j.nof, section)]
  {
    var u: Sys;
    m, u := Finishes(j, Accepted, t, adv, at, Damage(j, Accepted, t), SectionsLeft(j, t), MessagesLeft(j, Accepted, t));
    AcceptedGrows(j, t, adv, at, m);
    assert u.accepted == [section];
    assert Flatten([section]) == section;
  }

  /**
   * What the checksum cannot see arrives: a file of two different octets in one segment, which the
   * environment swaps once, is delivered swapped.
   */
  lemma SwappedOctetsDelivered(j: Job, snd: Snd, rcv: Rcv, budget: nat, x: Octet, y: Octet) returns (n: nat)
    requires Ready(j, snd, rcv) && Deliverable(j) && j.sectionSize >= 2 && Data(j) == [x, y] && x != y && budget > 0
    ensures var t := Play(j, Start(j, snd, rcv, budget), Always([y, x]), 0, n);
            t.up == [] && t.down == [] && t.delivered == [File(j.ioa, j.nof, [y, x])]
  {
    StartClean(j, snd, rcv, budget);
    n := SwapRun(j, Start(j, snd, rcv, budget), x, y);
  }

  lemma SwapRun(j: Job, s: Sys, x: Octet, y: Octet) returns (n: nat)
    requires Deliverable(j) && Shape(j, Selecting, s) && Kept(j, Selecting, s) && Intact(j, s) && s.budget > 0
    requires Slight(j, Selecting, s) && !Dirty(j, Selecting, s)
    requires j.sectionSize >= 2 && Data(j) == [x, y] && x != y
    ensures var t := Play(j, s, Always([y, x]), 0, n);
            t.up == [] && t.down == [] && t.delivered == [File(j.ioa, j.nof, [y, x])]
  {
    TwoOctetsOneSegment(j, x, y);
    var t := AfterSeven(j, s, x, y);
    n := AcceptedArrives(j, s, Always([y, x]), 7, t, [y, x]);
  }

  lemma AfterSeven(j: Job, s: Sys, x: Octet, y: Octet) returns (t: Sys)
    requires Deliverable(j) && Shape(j, Selecting, s) && Kept(j, Selecting, s) && Intact(j, s) && s.budget > 0
    requires Slight(j, Selecting, s) && !Dirty(j, Selecting, s)
    requires j.sectionSize >= 2 && Data(j) == [x, y] && x != y
    ensures t == Play(j, s, Always([y, x]), 0, 7)
    ensures Shape(j, Accepted, t) && Kept(j, Accepted, t) && t.accepted == [[y, x]]
  {
    SevenDeliveries(j, s, x, y);
    t := AcceptedAfterSeven(j, s, Always([y, x]));
  }

  /** The only section was acknowledged: the transfer ends with it. */
  lemma AcceptedArrives(j: Job, s: Sys, adv: nat -> Option<Bytes>, at: nat, t: Sys, section: Bytes) returns (n: nat)
    requires Deliverable(j) && t == Play(j, s, adv, 0, at) && Shape(j, Accepted, t) && Kept(j, Accepted, t)
    requires |Sections(j)| == 1 && t.accepted == [section]
    ensures var u := Play(j, s, adv, 0, n);
            u.up == [] && u.down == [] && u.delivered == [File(j.ioa, j.nof, section)]
  {
    var m := FromAccepted(j, t, adv, at, section);
    PlaySplit(j, s, adv, at, m, t);
    n := at + m;
  }

  lemma PlaySplit(j: Job, s: Sys, adv: nat -> Option<Bytes>, n: nat, m: nat, t: Sys)
    requires t == Play(j, s, adv, 0, n)
    ensures Play(j, s, adv, 0, n + m) == Play(j, t, adv, n, m)
  {
    IterateSplit(Mover(j, adv), s, 0, n, m, n, t);
  }

  lemma AcceptedAfterSeven(j: Job, s: Sys, adv: nat -> Option<Bytes>) returns (t: Sys)
    requires Deliverable(j) && Shape(j, Selecting, s) && Kept(j, Selecting, s) && Intact(j, s)
    requires Slight(j, Selecting, s) && !Dirty(j, Selecting, s)
    requires Shape(j, Accepted, Play(j, s, adv, 0, 7))
    ensures t == Play(j, s, adv, 0, 7) && Kept(j, Accepted, t)
  {
    var ph;
    ph, t := RunJudges(j, Selecting, s, adv, 0, 7);
    PhaseUnique(j, Accepted, ph, t);
  }
}
