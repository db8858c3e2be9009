/** What a file transfer delivers, when it ends, and when it never does. */
module FileTheorems {
  import opened AsduParams
  import opened Octets
  import opened FileTransfer
  import opened FilePieces
  import opened FileNet

  /** The environment's wish for each delivery, acted out. */
  function Mover(j: Job, adv: nat -> Option<Bytes>): (Sys, nat) -> Sys {
    (s: Sys, k: nat) => Step(j.p, j.sectionSize, s, adv(k))
  }

  function Iterate<S>(f: (S, nat) -> S, s: S, at: nat, n: nat): S
    decreases n
  {
    if n == 0 then s else Iterate(f, f(s, at), at + 1, n - 1)
  }

  /** n deliveries; adv is the environment's wish for each of them. */
  function Play(j: Job, s: Sys, adv: nat -> Option<Bytes>, at: nat, n: nat): Sys {
    Iterate(Mover(j, adv), s, at, n)
  }

  lemma {:induction false} IterateLast<S>(f: (S, nat) -> S, s: S, at: nat, n: nat)
    ensures Iterate(f, s, at, n + 1) == f(Iterate(f, s, at, n), at + n)
    decreases n
  {
    if n > 0 {
      IterateLast(f, f(s, at), at + 1, n - 1);
    }
  }

  lemma PlayLast(j: Job, s: Sys, adv: nat -> Option<Bytes>, at: nat, n: nat)
    ensures Play(j, s, adv, at, n + 1) == Step(j.p, j.sectionSize, Play(j, s, adv, at, n), adv(at + n))
  {
    IterateLast(Mover(j, adv), s, at, n);
  }

  /** The user asks an idle Receiver for a file; the Sender may be in any state. */
  function Start(j: Job, snd: Snd, rcv: Rcv, budget: nat): Sys {
    var d := RequestFileOf(j.p, rcv, j.ca, j.ioa, j.nof);
    Sys(snd, d.st, [], d.acts, [], [], budget)
  }

  ghost predicate Ready(j: Job, snd: Snd, rcv: Rcv) {
    CommonAddrFits(j.p, j.ca) && InfoObjAddrFits(j.p, j.ioa)
    && snd.store == j.store && !rcv.active && !rcv.called
  }

  /** The file exists, its length fits the announcement, and it has no more sections than an octet can name. */
  ghost predicate Deliverable(j: Job) {
    && Posed(j) && Uint32(|Data(j)|) <= LENGTH_OF_FILE_MAX && |Sections(j)| <= 256
    && forall i :: 0 <= i < |Sections(j)| ==> Offerable(Sections(j)[i])
  }

  // ---- the books of a transfer ----

  /** Every acknowledged section has the length and the checksum of the one that was sent. */
  ghost predicate Resembles(sections: seq<Bytes>, accepted: seq<Bytes>) {
    && |accepted| <= |sections|
    && (forall i :: 0 <= i < |accepted| ==> |accepted[i]| == |sections[i]|)
    && (forall i :: 0 <= i < |accepted| ==> Checksum(accepted[i]) == Checksum(sections[i]))
  }

  ghost predicate Matching(j: Job, accepted: seq<Bytes>)
    requires Posed(j)
  {
    Resembles(Sections(j), accepted)
  }

  ghost predicate Kept(j: Job, ph: Phase, s: Sys)
    requires Posed(j)
  {
    && Matching(j, s.accepted)
    && (match ph
        case Selecting | Announced | Calling => s.accepted == []
        case Offered | Requested | Sending(_) | Refused => |s.accepted| == s.snd.cur
        case Accepted => |s.accepted| == s.snd.cur + 1
        case Closing | Closed | Over => |s.accepted| == |Sections(j)|
        case Stuck => false)
    && (if ph.Closed? || ph.Over? then
          && s.delivered == [File(j.ioa, j.nof, Flatten(s.accepted))]
          && (j.ioa, j.nof) in s.rcv.store && s.rcv.store[(j.ioa, j.nof)] == Flatten(s.accepted)
        else s.delivered == [] && s.rcv.fileBuf == Flatten(s.accepted))
  }

  ghost predicate Dirty(j: Job, ph: Phase, s: Sys)
    requires Shape(j, ph, s)
  {
    ph.Sending? && s.rcv.sectionBuf != Flatten(Segments(j, s.snd.cur)[..ph.k])
  }

  /** Everything acknowledged so far, and the section under way, arrived as it was sent. */
  ghost predicate Perfect(j: Job, ph: Phase, s: Sys)
    requires Shape(j, ph, s) && Kept(j, ph, s)
  {
    s.accepted == Sections(j)[..|s.accepted|] && !Dirty(j, ph, s)
  }

  // ---- the measure ----

  function Rank(ph: Phase): nat {
    match ph
    case Selecting => 11 case Announced => 10 case Calling => 9 case Accepted => 8 case Offered => 7
    case Requested => 6 case Refused => 6 case Sending(_) => 5
    case Closing => 3 case Closed => 2 case Over => 1 case Stuck => 0
  }

  ghost function Damage(j: Job, ph: Phase, s: Sys): nat
    requires Shape(j, ph, s)
  {
    2 * s.budget + if Dirty(j, ph, s) then 1 else 0
  }

  ghost function SectionsLeft(j: Job, s: Sys): nat
    requires Posed(j) && |s.accepted| <= |Sections(j)|
  {
    |Sections(j)| - |s.accepted|
  }

  ghost function MessagesLeft(j: Job, ph: Phase, s: Sys): nat
    requires Shape(j, ph, s)
  {
    if ph.Sending? then |Segments(j, s.snd.cur)| + 1 - ph.k else 0
  }

  /** Damage still possible, then sections left, then the phase, then messages left in the section. */
  ghost predicate Closer(j: Job, ph: Phase, s: Sys, ph': Phase, s': Sys)
    requires Shape(j, ph, s) && Shape(j, ph', s') && |s.accepted| <= |Sections(j)| && |s'.accepted| <= |Sections(j)|
  {
    var d, d' := Damage(j, ph, s), Damage(j, ph', s');
    var n, n' := SectionsLeft(j, s), SectionsLeft(j, s');
    d' < d || (d' == d && (n' < n || (n' == n && (Rank(ph') < Rank(ph)
      || (Rank(ph') == Rank(ph) && MessagesLeft(j, ph', s') < MessagesLeft(j, ph, s))))))
  }

  /** What one delivery does to a transfer under way. */
  ghost predicate Advances(j: Job, ph: Phase, s: Sys, ph': Phase, t: Sys)
    requires Shape(j, ph, s) && Kept(j, ph, s)
  {
    && Shape(j, ph', t) && Kept(j, ph', t) && Closer(j, ph, s, ph', t) && t.budget <= s.budget
    && (s.budget == 0 && Perfect(j, ph, s) ==> Perfect(j, ph', t))
  }

  lemma OpeningAdvances(j: Job, ph: Phase, s: Sys, c: Option<Bytes>) returns (ph': Phase)
    requires Deliverable(j) && Shape(j, ph, s) && Kept(j, ph, s) && (ph.Selecting? || ph.Announced? || ph.Calling?)
    ensures Advances(j, ph, s, ph', Step(j.p, j.sectionSize, s, c))
  {
    match ph {
      case Selecting => ph' := StepSelecting(j, s, c);
      case Announced =>
        StepAnnounced(j, s, c);
        ph' := Calling;
      case Calling => ph' := StepCalling(j, s, c);
    }
  }

  lemma SectionOpenAdvances(j: Job, ph: Phase, s: Sys, c: Option<Bytes>) returns (ph': Phase)
    requires Deliverable(j) && Shape(j, ph, s) && Kept(j, ph, s) && (ph.Offered? || ph.Requested? || ph.Refused?)
    ensures Advances(j, ph, s, ph', Step(j.p, j.sectionSize, s, c))
  {
    match ph {
      case Offered =>
        StepOffered(j, s, c);
        ph' := Requested;
      case Requested =>
        NamedIs(s.snd.cur);
        StepRequested(j, s, c);
        assert Segments(j, s.snd.cur)[..0] == [];
        ph' := Sending(0);
      case Refused =>
        StepRefused(j, s, c);
        assert Segments(j, s.snd.cur)[..0] == [];
        ph' := Sending(0);
    }
  }

  lemma SegmentAdvances(j: Job, k: nat, s: Sys, c: Option<Bytes>)
    requires Deliverable(j) && Shape(j, Sending(k), s) && Kept(j, Sending(k), s) && k < |Segments(j, s.snd.cur)|
    ensures Advances(j, Sending(k), s, Sending(k + 1), Step(j.p, j.sectionSize, s, c))
  {
    StepSegment(j, k, s, c);
    FlattenTo(Segments(j, s.snd.cur), k);
  }

  lemma ResemblesSnoc(sections: seq<Bytes>, accepted: seq<Bytes>, section: Bytes)
    requires Resembles(sections, accepted) && |accepted| < |sections|
    requires |section| == |sections[|accepted|]| && Checksum(section) == Checksum(sections[|accepted|])
    ensures Resembles(sections, accepted + [section])
    ensures Flatten(accepted + [section]) == Flatten(accepted) + section
  {
    FlattenSnoc(accepted, section);
  }

  lemma WholeSection(j: Job, cur: nat)
    requires Posed(j) && cur < |Sections(j)|
    ensures Segments(j, cur)[..|Segments(j, cur)|] == Segments(j, cur) && Flatten(Segments(j, cur)) == Sections(j)[cur]
  {
    CutJoins(Sections(j)[cur], MaxSegmentSize(j.p));
  }

  lemma SectionAcknowledged(j: Job, k: nat, s: Sys, c: Option<Bytes>)
    requires Deliverable(j) && Shape(j, Sending(k), s) && Kept(j, Sending(k), s) && k == |Segments(j, s.snd.cur)|
    requires Checksum(s.rcv.sectionBuf) == Checksum(Sections(j)[s.snd.cur])
    ensures Advances(j, Sending(k), s, Accepted, Step(j.p, j.sectionSize, s, c))
  {
    WholeSection(j, s.snd.cur);
    var ph := StepSectionEnd(j, k, s, c);
    ResemblesSnoc(Sections(j), s.accepted, s.rcv.sectionBuf);
  }

  lemma SectionRepeated(j: Job, k: nat, s: Sys, c: Option<Bytes>)
    requires Deliverable(j) && Shape(j, Sending(k), s) && Kept(j, Sending(k), s) && k == |Segments(j, s.snd.cur)|
    requires Checksum(s.rcv.sectionBuf) != Checksum(Sections(j)[s.snd.cur])
    ensures Advances(j, Sending(k), s, Refused, Step(j.p, j.sectionSize, s, c))
  {
    WholeSection(j, s.snd.cur);
    var ph := StepSectionEnd(j, k, s, c);
    assert s.rcv.fileBuf + [] == s.rcv.fileBuf && s.accepted + [] == s.accepted;
  }

  lemma SectionEndAdvances(j: Job, k: nat, s: Sys, c: Option<Bytes>) returns (ph': Phase)
    requires Deliverable(j) && Shape(j, Sending(k), s) && Kept(j, Sending(k), s) && k == |Segments(j, s.snd.cur)|
    ensures Advances(j, Sending(k), s, ph', Step(j.p, j.sectionSize, s, c))
  {
    if Checksum(s.rcv.sectionBuf) == Checksum(Sections(j)[s.snd.cur]) {
      SectionAcknowledged(j, k, s, c);
      ph' := Accepted;
    } else {
      SectionRepeated(j, k, s, c);
      ph' := Refused;
    }
  }

  lemma AcceptedAdvances(j: Job, s: Sys, c: Option<Bytes>) returns (ph': Phase)
    requires Deliverable(j) && Shape(j, Accepted, s) && Kept(j, Accepted, s)
    ensures Advances(j, Accepted, s, ph', Step(j.p, j.sectionSize, s, c))
  {
    ph' := StepAccepted(j, s, c);
  }

  lemma ClosingAdvances(j: Job, s: Sys, c: Option<Bytes>)
    requires Deliverable(j) && Shape(j, Closing, s) && Kept(j, Closing, s)
    ensures Advances(j, Closing, s, Closed, Step(j.p, j.sectionSize, s, c))
  {
    SameChecksums(s.accepted, Sections(j));
    ChecksumOfSections(s.accepted);
    StepClosing(j, s, c);
  }

  /** Every delivery brings the transfer closer to its end. */
  lemma StepAdvances(j: Job, ph: Phase, s: Sys, c: Option<Bytes>) returns (ph': Phase)
    requires Deliverable(j) && Shape(j, ph, s) && Kept(j, ph, s) && ph != Over
    ensures Advances(j, ph, s, ph', Step(j.p, j.sectionSize, s, c))
  {
    match ph {
      case Selecting => ph' := OpeningAdvances(j, ph, s, c);
      case Announced => ph' := OpeningAdvances(j, ph, s, c);
      case Calling => ph' := OpeningAdvances(j, ph, s, c);
      case Sending(k) =>
        if k < |Segments(j, s.snd.cur)| {
          SegmentAdvances(j, k, s, c);
          ph' := Sending(k + 1);
        } else {
          ph' := SectionEndAdvances(j, k, s, c);
        }
      case Accepted => ph' := AcceptedAdvances(j, s, c);
      case Closing =>
        ClosingAdvances(j, s, c);
        ph' := Closed;
      case Closed =>
        StepClosed(j, s, c);
        ph' := Over;
      case _ => ph' := SectionOpenAdvances(j, ph, s, c);
    }
  }

  /** A transfer under way, with its measure. */
  ghost predicate Measured(j: Job, ph: Phase, s: Sys, d: nat, l: nat, m: nat) {
    && Shape(j, ph, s) && Kept(j, ph, s)
    && d == Damage(j, ph, s) && l == SectionsLeft(j, s) && m == MessagesLeft(j, ph, s)
  }

  /** Nothing was damaged and nothing can be any more. */
  ghost predicate Undamaged(j: Job, ph: Phase, s: Sys) {
    Shape(j, ph, s) && Kept(j, ph, s) && s.budget == 0 && Perfect(j, ph, s)
  }

  lemma StepMeasured(j: Job, ph: Phase, s: Sys, c: Option<Bytes>, d: nat, l: nat, m: nat)
      returns (t: Sys, ph': Phase, d': nat, l': nat, m': nat)
    requires Deliverable(j) && Measured(j, ph, s, d, l, m) && ph != Over
    ensures t == Step(j.p, j.sectionSize, s, c) && Measured(j, ph', t, d', l', m')
    ensures d' < d || (d' == d && (l' < l || (l' == l && (Rank(ph') < Rank(ph) || (Rank(ph') == Rank(ph) && m' < m)))))
    ensures Undamaged(j, ph, s) ==> Undamaged(j, ph', t)
  {
    t := Step(j.p, j.sectionSize, s, c);
    ph' := StepAdvances(j, ph, s, c);
    d', l', m' := Damage(j, ph', t), SectionsLeft(j, t), MessagesLeft(j, ph', t);
  }

  lemma {:induction false} Finishes(j: Job, ph: Phase, s: Sys, adv: nat -> Option<Bytes>, at: nat, d: nat, l: nat, m: nat)
      returns (n: nat, t: Sys)
    requires Deliverable(j) && Measured(j, ph, s, d, l, m)
    ensures t == Play(j, s, adv, at, n) && Shape(j, Over, t) && Kept(j, Over, t)
    ensures Undamaged(j, ph, s) ==> Undamaged(j, Over, t)
    decreases d, l, Rank(ph), m
  {
    if ph == Over {
      n, t := 0, s;
    } else {
      var s', ph', d', l', m' := StepMeasured(j, ph, s, adv(at), d, l, m);
      n, t := Finishes(j, ph', s', adv, at + 1, d', l', m');
      n := n + 1;
    }
  }

  lemma StartSelects(j: Job, snd: Snd, rcv: Rcv, budget: nat)
    requires Ready(j, snd, rcv) && Posed(j)
    ensures var s := Start(j, snd, rcv, budget);
            Shape(j, Selecting, s) && Kept(j, Selecting, s) && Perfect(j, Selecting, s)
  {
  }

  /**
   * Whatever the environment does to the segments, a finite number of times, the transfer of a
   * deliverable file comes to its end: both sides are idle, the queues are empty, and exactly one file
   * was delivered and stored, made of one acknowledged section for every section that was cut.
   */
  lemma TransferEnds(j: Job, snd: Snd, rcv: Rcv, adv: nat -> Option<Bytes>, budget: nat) returns (n: nat)
    requires Ready(j, snd, rcv) && Deliverable(j)
    ensures var t := Play(j, Start(j, snd, rcv, budget), adv, 0, n);
            && t.up == [] && t.down == [] && !t.snd.active && !t.rcv.active
            && t.snd.store == j.store && !t.rcv.called
            && t.delivered == [File(j.ioa, j.nof, Flatten(t.accepted))]
            && (j.ioa, j.nof) in t.rcv.store && t.rcv.store[(j.ioa, j.nof)] == Flatten(t.accepted)
            && |t.accepted| == |Sections(j)| && Matching(j, t.accepted)
            && (budget == 0 ==> t.delivered == [File(j.ioa, j.nof, Data(j))])
  {
    StartSelects(j, snd, rcv, budget);
    var s, t := Start(j, snd, rcv, budget), Start(j, snd, rcv, budget);
    n, t := Finishes(j, Selecting, s, adv, 0, Damage(j, Selecting, s), SectionsLeft(j, s), 0);
    SectionsJoin(Data(j), j.sectionSize);
    assert Sections(j)[..|Sections(j)|] == Sections(j);
  }

  /** The Sender's announcement leads an idle Receiver that accepts files to the same start as a request by the user. */
  lemma OfferLeadsToStart(j: Job, snd: Snd, rcv: Rcv, budget: nat, c: Option<Bytes>)
    requires Ready(j, snd, rcv) && rcv.autoAccept
    requires Offer(j.p, snd, j.ca, j.ioa, j.nof).Ok?
    ensures Step(j.p, j.sectionSize, Sys(snd, rcv, [Offer(j.p, snd, j.ca, j.ioa, j.nof).value], [], [], [], budget), c)
            == Start(j, snd, rcv, budget)
  {
    OneSent(j.p, Msg(j, Call(0, SelectFile)));
  }

  // ---- when nothing is delivered ----

  /**
   * A section the transfer cannot get past: its length cannot be announced, or it is the 257th, which
   * the Receiver calls by the name of the first.
   */
  ghost predicate Barred(j: Job, b: nat) {
    Posed(j) && b < |Sections(j)| && (b == 256 || (b < 256 && !Offerable(Sections(j)[b])))
  }

  ghost predicate Held(j: Job, b: nat, ph: Phase, s: Sys) {
    && Shape(j, ph, s) && s.delivered == []
    && match ph
       case Selecting | Announced | Calling | Stuck => true
       case Offered | Requested => s.snd.cur <= b
       case Sending(_) | Refused | Accepted => s.snd.cur < b
       case _ => false
  }

  lemma HeldSection(j: Job, b: nat, ph: Phase, s: Sys, c: Option<Bytes>) returns (ph': Phase)
    requires Barred(j, b) && Held(j, b, ph, s) && (ph.Requested? || ph.Refused? || ph.Offered?)
    ensures Held(j, b, ph', Step(j.p, j.sectionSize, s, c))
  {
    if ph.Requested? {
      NamedIs(s.snd.cur);
      StepRequested(j, s, c);
      ph' := Sending(0);
    } else if ph.Refused? {
      StepRefused(j, s, c);
      ph' := Sending(0);
    } else {
      StepOffered(j, s, c);
      ph' := Requested;
    }
  }

  lemma HeldSending(j: Job, b: nat, k: nat, s: Sys, c: Option<Bytes>) returns (ph': Phase)
    requires Barred(j, b) && Held(j, b, Sending(k), s)
    ensures Held(j, b, ph', Step(j.p, j.sectionSize, s, c))
  {
    if k < |Segments(j, s.snd.cur)| {
      StepSegment(j, k, s, c);
      ph' := Sending(k + 1);
    } else {
      ph' := StepSectionEnd(j, k, s, c);
    }
  }

  lemma HeldStays(j: Job, b: nat, ph: Phase, s: Sys, c: Option<Bytes>) returns (ph': Phase)
    requires Barred(j, b) && Held(j, b, ph, s)
    ensures Held(j, b, ph', Step(j.p, j.sectionSize, s, c))
  {
    match ph {
      case Selecting => ph' := StepSelecting(j, s, c);
      case Announced =>
        StepAnnounced(j, s, c);
        ph' := Calling;
      case Calling => ph' := StepCalling(j, s, c);
      case Sending(k) => ph' := HeldSending(j, b, k, s, c);
      case Accepted => ph' := StepAccepted(j, s, c);
      case Stuck => ph' := Stuck;
      case _ => ph' := HeldSection(j, b, ph, s, c);
    }
  }

  lemma MoverIs(j: Job, adv: nat -> Option<Bytes>, s: Sys, k: nat)
    ensures Mover(j, adv)(s, k) == Step(j.p, j.sectionSize, s, adv(k))
  {
    var f := Mover(j, adv);
    assert f(s, k) == Step(j.p, j.sectionSize, s, adv(k));
  }

  /** What every move keeps holds after any number of moves. */
  lemma {:induction false} IterateKeeps<S(!new)>(f: (S, nat) -> S, inv: S -> bool, s: S, at: nat, n: nat)
    requires inv(s) && forall x, k :: inv(x) ==> inv(f(x, k))
    ensures inv(Iterate(f, s, at, n))
    decreases n
  {
    if n > 0 {
      IterateKeeps(f, inv, f(s, at), at + 1, n - 1);
    }
  }

  ghost predicate HeldSome(j: Job, b: nat, s: Sys) {
    exists ph :: Held(j, b, ph, s)
  }

  lemma HeldStep(j: Job, b: nat, s: Sys, adv: nat -> Option<Bytes>, k: nat)
    requires Barred(j, b) && HeldSome(j, b, s)
    ensures HeldSome(j, b, Mover(j, adv)(s, k))
  {
    var ph :| Held(j, b, ph, s);
    var ph' := HeldStays(j, b, ph, s, adv(k));
    MoverIs(j, adv, s, k);
  }

  lemma HeldForever(j: Job, b: nat, s: Sys, adv: nat -> Option<Bytes>, n: nat)
    requires Barred(j, b) && HeldSome(j, b, s)
    ensures HeldSome(j, b, Play(j, s, adv, 0, n))
  {
    ghost var inv := (x: Sys) => HeldSome(j, b, x);
    forall x, k | inv(x)
      ensures inv(Mover(j, adv)(x, k))
    {
      HeldStep(j, b, x, adv, k);
    }
    IterateKeeps(Mover(j, adv), inv, s, 0, n);
  }

  lemma QuietStep(j: Job, s: Sys, c: Option<Bytes>)
    requires s.up == [] && s.down == []
    ensures Step(j.p, j.sectionSize, s, c) == s
  {
  }

  lemma {:induction false} IterateFixed<S>(f: (S, nat) -> S, s: S, at: nat, n: nat)
    requires forall k: nat :: f(s, k) == s
    ensures Iterate(f, s, at, n) == s
    decreases n
  {
    if n > 0 {
      IterateFixed(f, s, at + 1, n - 1);
    }
  }

  /** Nothing more to deliver: nothing changes any more. */
  lemma QuietStays(j: Job, s: Sys, adv: nat -> Option<Bytes>, at: nat, n: nat)
    requires s.up == [] && s.down == []
    ensures Play(j, s, adv, at, n) == s
  {
    forall k: nat
      ensures Mover(j, adv)(s, k) == s
    {
      MoverIs(j, adv, s, k);
      QuietStep(j, s, adv(k));
    }
    IterateFixed(Mover(j, adv), s, at, n);
  }

  /** A file that is not there is refused, and the refusal leaves the Receiver busy for good. */
  lemma MissingFileLeavesReceiverBusy(j: Job, snd: Snd, rcv: Rcv, adv: nat -> Option<Bytes>, budget: nat, n: nat)
    requires Ready(j, snd, rcv) && (j.ioa, j.nof) !in j.store
    ensures var t := Play(j, Start(j, snd, rcv, budget), adv, 0, n);
            Hanging(j, t)
  {
    var s := Start(j, snd, rcv, budget);
    OneSent(j.p, Msg(j, Ack(0, NegAckFile, UnexpectedNameOfFile)));
    if n > 0 {
      var s1 := Step(j.p, j.sectionSize, s, adv(0));
      assert s1.up == [] && s1.down == [Msg(j, Ack(0, NegAckFile, UnexpectedNameOfFile))] && s1.rcv == s.rcv;
      if n > 1 {
        var s2 := Step(j.p, j.sectionSize, s1, adv(1));
        assert s2.up == [] && s2.down == [] && s2.rcv == s.rcv;
        assert Play(j, s, adv, 0, n) == Play(j, s1, adv, 1, n - 1) == Play(j, s2, adv, 2, n - 2);
        QuietStays(j, s2, adv, 2, n - 2);
      }
    }
  }

  /** Nothing delivered, and no new request possible. */
  ghost predicate Hanging(j: Job, t: Sys) {
    t.delivered == [] && t.rcv.active && RequestFileOf(j.p, t.rcv, j.ca, j.ioa, j.nof).err == Some(Busy)
  }

  lemma LongFileNeverStarts(j: Job, snd: Snd, rcv: Rcv, adv: nat -> Option<Bytes>, budget: nat, n: nat)
    requires Ready(j, snd, rcv) && Posed(j) && Uint32(|Data(j)|) > LENGTH_OF_FILE_MAX
    ensures Hanging(j, Play(j, Start(j, snd, rcv, budget), adv, 0, n))
  {
    StartSelects(j, snd, rcv, budget);
    if n > 0 {
      var s := Start(j, snd, rcv, budget);
      var ph := StepSelecting(j, s, adv(0));
      QuietStays(j, Step(j.p, j.sectionSize, s, adv(0)), adv, 1, n - 1);
    }
  }

  /**
   * A file that is not deliverable is never delivered, however long the two go on, and the Receiver never becomes
   * idle again.
   */
  lemma NeverDelivered(j: Job, snd: Snd, rcv: Rcv, adv: nat -> Option<Bytes>, budget: nat, n: nat)
    requires Ready(j, snd, rcv) && !Deliverable(j)
    ensures Hanging(j, Play(j, Start(j, snd, rcv, budget), adv, 0, n))
  {
    if (j.ioa, j.nof) !in j.store {
      MissingFileLeavesReceiverBusy(j, snd, rcv, adv, budget, n);
    } else if Uint32(|Data(j)|) > LENGTH_OF_FILE_MAX {
      LongFileNeverStarts(j, snd, rcv, adv, budget, n);
    } else {
      var b := FindBar(j);
      StartSelects(j, snd, rcv, budget);
      assert Held(j, b, Selecting, Start(j, snd, rcv, budget));
      HeldForever(j, b, Start(j, snd, rcv, budget), adv, n);
      HeldHangs(j, b, Play(j, Start(j, snd, rcv, budget), adv, 0, n));
    }
  }

  lemma HeldHangs(j: Job, b: nat, s: Sys)
    requires HeldSome(j, b, s)
    ensures Hanging(j, s)
  {
  }

  lemma FindBar(j: Job) returns (b: nat)
    requires Posed(j) && !Deliverable(j) && Uint32(|Data(j)|) <= LENGTH_OF_FILE_MAX
    ensures Barred(j, b)
  {
    if |Sections(j)| > 256 {
      b := 256;
    } else {
      b :| b < |Sections(j)| && !Offerable(Sections(j)[b]);
    }
  }

  /** A requested file is delivered, sooner or later, exactly when it is deliverable. */
  lemma DeliveredExactlyWhenDeliverable(j: Job, snd: Snd, rcv: Rcv, adv: nat -> Option<Bytes>, budget: nat)
    requires Ready(j, snd, rcv)
    ensures (exists n: nat :: Play(j, Start(j, snd, rcv, budget), adv, 0, n).delivered != []) <==> Deliverable(j)
  {
    if Deliverable(j) {
      var n := TransferEnds(j, snd, rcv, adv, budget);
      assert Play(j, Start(j, snd, rcv, budget), adv, 0, n).delivered != [];
    } else {
      forall n: nat
        ensures Play(j, Start(j, snd, rcv, budget), adv, 0, n).delivered == []
      {
        NeverDelivered(j, snd, rcv, adv, budget, n);
      }
    }
  }

  /** After a request the Receiver becomes idle again, sooner or later, exactly when the file is deliverable. */
  lemma IdleAgainExactlyWhenDeliverable(j: Job, snd: Snd, rcv: Rcv, adv: nat -> Option<Bytes>, budget: nat)
    requires Ready(j, snd, rcv)
    ensures (exists n: nat :: !Play(j, Start(j, snd, rcv, budget), adv, 0, n).rcv.active) <==> Deliverable(j)
  {
    if Deliverable(j) {
      var n := TransferEnds(j, snd, rcv, adv, budget);
      assert !Play(j, Start(j, snd, rcv, budget), adv, 0, n).rcv.active;
    } else {
      forall n: nat
        ensures Play(j, Start(j, snd, rcv, budget), adv, 0, n).rcv.active
      {
        NeverDelivered(j, snd, rcv, adv, budget, n);
      }
    }
  }

  /** For a file below 4 GiB: deliverable is to be there, below 16 MiB, and at most 256 sections long. */
  lemma DeliverableMeans(j: Job)
    requires Posed(j) && |Data(j)| < 0x1_0000_0000
    ensures Deliverable(j) <==> |Data(j)| <= LENGTH_OF_FILE_MAX && |Data(j)| <= 256 * j.sectionSize
  {
    SectionsAtMost(Data(j), j.sectionSize, 256);
    assert Uint32(|Data(j)|) == |Data(j)|;
    SectionsWithin(Data(j), j.sectionSize);
    forall i | 0 <= i < |Sections(j)| && |Data(j)| <= LENGTH_OF_FILE_MAX
      ensures Offerable(Sections(j)[i])
    {
      assert |Sections(j)[i]| <= |Data(j)|;
    }
  }

  lemma {:induction false} CutWithin(data: Bytes, n: nat)
    requires n > 0
    ensures forall i :: 0 <= i < |Cut(data, n)| ==> |Cut(data, n)[i]| <= |data|
  {
    if |data| > n {
      CutWithin(data[n..], n);
    }
  }

  lemma SectionsWithin(data: Bytes, n: nat)
    requires n > 0
    ensures forall i :: 0 <= i < |SplitSections(data, n)| ==> |SplitSections(data, n)[i]| <= |data|
  {
    CutWithin(data, n);
  }
}
