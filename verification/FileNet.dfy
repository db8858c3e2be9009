/**
 * A Sender and a Receiver joined by two queues that keep order. The environment may damage segment
 * octets on the way, a bounded number of times, as it likes; nothing else is changed or lost.
 */
module FileNet {
  import opened AsduParams
  import opened Octets
  import opened FileTransfer
  import opened FilePieces

  datatype Sys = Sys(
    snd: Snd, rcv: Rcv, down: seq<Asdu>, up: seq<Asdu>,
    delivered: seq<File>,     // files the Receiver finished
    accepted: seq<Bytes>,     // sections it acknowledged, as it received them
    budget: nat)              // damaged segments still possible

  /** SetSectionSize ignores everything else. */
  type SectionSize = n: nat | n > 0 witness 1

  /** One transfer: the file and where it lives. */
  datatype Job = Job(p: ValidParams, sectionSize: SectionSize, ca: nat, ioa: nat, nof: nat, store: Files)

  predicate Damages(s: Sys, c: Option<Bytes>)
    requires s.down != []
  {
    s.down[0].body.Segment? && c.Some? && |c.value| == |s.down[0].body.data| && c.value != s.down[0].body.data
        && s.budget > 0
  }

  function AcceptedBy(r: Rcv, a: Asdu): seq<Bytes> {
    if a.body.LastOf? && a.body.lsq == LastOfSection && r.active && a.nof == r.nof && Checksum(r.sectionBuf) == a.body.chs
    then [r.sectionBuf] else []
  }

  function TakeUp(p: ValidParams, sectionSize: nat, s: Sys): Sys
    requires s.up != [] && sectionSize > 0
  {
    var d := SndHandle(p, sectionSize, s.snd, s.up[0]);
    s.(snd := d.st, up := s.up[1..], down := s.down + d.acts)
  }

  function TakeDown(p: ValidParams, s: Sys, a: Asdu, budget: nat): Sys
    requires s.down != []
  {
    var d := RcvHandle(p, s.rcv, a);
    s.(rcv := d.st, down := s.down[1..], up := s.up + d.acts,
       delivered := s.delivered + (if d.done.Some? then [d.done.value] else []),
       accepted := s.accepted + AcceptedBy(s.rcv, a), budget := budget)
  }

  /** One ASDU is delivered; c is what the environment would like a segment to read. */
  function Step(p: ValidParams, sectionSize: nat, s: Sys, c: Option<Bytes>): Sys
    requires sectionSize > 0
  {
    if s.up != [] then TakeUp(p, sectionSize, s)
    else if s.down == [] then s
    else if Damages(s, c) then TakeDown(p, s, s.down[0].(body := Segment(s.down[0].body.nos, c.value)), s.budget - 1)
    else TakeDown(p, s, s.down[0], s.budget)
  }

  // ---- the shape of a transfer ----

  ghost predicate Posed(j: Job) {
    && CommonAddrFits(j.p, j.ca) && InfoObjAddrFits(j.p, j.ioa)
    && (j.ioa, j.nof) in j.store
  }

  function Data(j: Job): Bytes
    requires (j.ioa, j.nof) in j.store
  {
    j.store[(j.ioa, j.nof)]
  }

  function Sections(j: Job): (r: seq<Bytes>)
    requires Posed(j)
    ensures |r| > 0
  {
    SectionsJoin(Data(j), j.sectionSize);
    SplitSections(Data(j), j.sectionSize)
  }

  function Segments(j: Job, cur: nat): seq<Bytes>
    requires Posed(j) && cur < |Sections(j)|
  {
    Cut(Sections(j)[cur], MaxSegmentSize(j.p))
  }

  function Msg(j: Job, body: Body): Asdu {
    Asdu(j.ca, j.ioa, j.nof, body)
  }

  function Loaded(j: Job, cur: nat): Snd
    requires Posed(j)
  {
    Snd(j.store, true, j.ca, j.ioa, j.nof, Sections(j), cur)
  }

  /** The rest of a section on its way: segments from the k-th on, then its checksum. */
  function Tail(j: Job, cur: nat, k: nat): seq<Asdu>
    requires Posed(j) && cur < |Sections(j)| && k <= |Segments(j, cur)|
  {
    SegmentAsdus(Loaded(j, cur), Low(cur + 1), Segments(j, cur)[k..])
    + [Msg(j, LastOf(Low(cur + 1), LastOfSection, Checksum(Sections(j)[cur])))]
  }

  predicate Offerable(section: Bytes) {
    Uint32(|section|) <= LENGTH_OF_FILE_MAX
  }

  datatype Phase =
    | Selecting | Announced | Calling | Offered | Requested | Sending(k: nat) | Refused | Accepted | Closing | Closed
    | Over | Stuck

  ghost predicate Taking(j: Job, r: Rcv) {
    r.active && r.ca == j.ca && r.ioa == j.ioa && r.nof == j.nof
  }

  /** Both ends are in the section cur of a running transfer. */
  ghost predicate InSection(j: Job, s: Sys) {
    Posed(j) && s.snd.cur < |Sections(j)| && s.snd == Loaded(j, s.snd.cur) && Taking(j, s.rcv)
  }

  /** What is on the wire in each phase: at most one of the queues holds anything. */
  ghost predicate Shape(j: Job, ph: Phase, s: Sys) {
    Posed(j) &&
    match ph
    case Selecting =>
      && s.down == [] && s.up == [Msg(j, Call(0, SelectFile))]
      && s.snd.store == j.store && Taking(j, s.rcv) && !s.rcv.called
    case Announced =>
      && s.up == [] && s.down == [Msg(j, FileReady(Uint32(|Data(j)|), false))]
      && s.snd == Loaded(j, 0) && Taking(j, s.rcv) && !s.rcv.called
    case Calling => s.down == [] && s.up == [Msg(j, Call(0, RequestFile))] && s.snd == Loaded(j, 0) && Taking(j, s.rcv)
    case Offered =>
      && InSection(j, s) && s.up == [] && Offerable(Sections(j)[s.snd.cur])
      && s.down == [Msg(j, SectionReady(Low(s.snd.cur + 1), Uint32(|Sections(j)[s.snd.cur]|), false))]
    case Requested =>
      && InSection(j, s) && s.down == [] && s.up == [Msg(j, Call(s.rcv.nos, RequestSection))]
      && Offerable(Sections(j)[s.snd.cur])
      && s.rcv.nos == Low(s.snd.cur + 1) && s.rcv.sectionBuf == []
    case Sending(k) =>
      && InSection(j, s) && s.up == [] && k <= |Segments(j, s.snd.cur)| && s.down == Tail(j, s.snd.cur, k)
      && s.rcv.nos == Low(s.snd.cur + 1) && |s.rcv.sectionBuf| == |Flatten(Segments(j, s.snd.cur)[..k])|
    case Refused =>
      && InSection(j, s) && s.down == [] && s.up == [Msg(j, Ack(s.rcv.nos, NegAckSection, ChecksumFailed))]
      && s.rcv.nos == Low(s.snd.cur + 1) && s.rcv.sectionBuf == []
    case Accepted =>
      && InSection(j, s) && s.down == [] && s.up == [Msg(j, Ack(s.rcv.nos, PosAckSection, NoFileError))]
    case Closing => s.snd == Loaded(j, |Sections(j)|) && Taking(j, s.rcv) && s.up == [] && s.down == [CloseFile(s.snd)]
    case Closed =>
      && s.snd == Loaded(j, |Sections(j)|) && !s.rcv.active && !s.rcv.called && s.down == []
      && s.up == [Msg(j, Ack(Low(|Sections(j)|), PosAckFile, NoFileError))]
    case Over =>
      s.up == [] && s.down == [] && !s.snd.active && s.snd.store == j.store && !s.rcv.active && !s.rcv.called
    case Stuck => s.up == [] && s.down == [] && s.rcv.active
  }

  // ---- one lemma per phase ----

  lemma {:induction false} AllSent(p: Params, acts: seq<Asdu>)
    requires forall i :: 0 <= i < |acts| ==> Sendable(p, acts[i])
    ensures SentBefore(p, acts) == |acts|
  {
    if acts != [] {
      AllSent(p, acts[1..]);
    }
  }

  /** A single ASDU is sent or refused. */
  lemma OneSent(p: Params, a: Asdu)
    ensures SentBefore(p, [a]) == if Sendable(p, a) then 1 else 0
  {
    assert [a][1..] == [];
  }

  ghost predicate Same(s: Sys, t: Sys) {
    t.delivered == s.delivered && t.accepted == s.accepted && t.budget == s.budget
  }

  lemma StepSelecting(j: Job, s: Sys, c: Option<Bytes>) returns (ph: Phase)
    requires Shape(j, Selecting, s)
    ensures var t := Step(j.p, j.sectionSize, s, c);
            Shape(j, ph, t) && Same(s, t) && t.rcv == s.rcv
    ensures ph == if Uint32(|Data(j)|) <= LENGTH_OF_FILE_MAX then Announced else Stuck
  {
    OneSent(j.p, Msg(j, FileReady(Uint32(|Data(j)|), false)));
    ph := if Uint32(|Data(j)|) <= LENGTH_OF_FILE_MAX then Announced else Stuck;
    var d := SndHandle(j.p, j.sectionSize, s.snd, s.up[0]);
    if ph == Stuck {
      assert d.acts == [];
    }
  }

  lemma StepAnnounced(j: Job, s: Sys, c: Option<Bytes>)
    requires Shape(j, Announced, s)
    ensures var t := Step(j.p, j.sectionSize, s, c);
            Shape(j, Calling, t) && Same(s, t) && t.rcv == s.rcv.(called := true)
  {
    OneSent(j.p, Msg(j, Call(0, RequestFile)));
  }

  lemma StepCalling(j: Job, s: Sys, c: Option<Bytes>) returns (ph: Phase)
    requires Shape(j, Calling, s)
    ensures var t := Step(j.p, j.sectionSize, s, c);
            Shape(j, ph, t) && Same(s, t) && t.rcv == s.rcv && (ph == Offered ==> t.snd.cur == 0)
    ensures ph == if Offerable(Sections(j)[0]) then Offered else Stuck
  {
    OneSent(j.p, OfferSection(Loaded(j, 0)));
    ph := if Offerable(Sections(j)[0]) then Offered else Stuck;
  }

  lemma StepOffered(j: Job, s: Sys, c: Option<Bytes>)
    requires Shape(j, Offered, s)
    ensures var t := Step(j.p, j.sectionSize, s, c);
            Shape(j, Requested, t) && Same(s, t) && t.snd == s.snd && t.rcv.fileBuf == s.rcv.fileBuf
  {
    OneSent(j.p, Msg(j, Call(Low(s.snd.cur + 1), RequestSection)));
  }

  lemma SectionDataSent(j: Job, cur: nat)
    requires Posed(j) && cur < |Sections(j)|
    ensures SectionData(j.p, Loaded(j, cur)) == Tail(j, cur, 0)
    ensures SentBefore(j.p, SectionData(j.p, Loaded(j, cur))) == |SectionData(j.p, Loaded(j, cur))|
  {
    assert Segments(j, cur)[0..] == Segments(j, cur);
    CutJoins(Sections(j)[cur], MaxSegmentSize(j.p));
    AllSent(j.p, SectionData(j.p, Loaded(j, cur)));
  }

  /** Nos 0 keeps the section the Sender is in, any other nos names section nos - 1. */
  function Named(nos: Octet, cur: nat): nat {
    if nos == 0 then cur else nos - 1
  }

  /** The section name is an octet: from the 257th section on it names another section. */
  lemma NamedIs(cur: nat)
    ensures Named(Low(cur + 1), cur) <= cur && (cur <= 255 ==> Named(Low(cur + 1), cur) == cur)
    ensures Low(Named(Low(cur + 1), cur) + 1) == Low(cur + 1)
    ensures cur == 256 ==> Named(Low(cur + 1), cur) == 0
  {
  }

  lemma RequestServed(j: Job, cur: nat, a: Asdu)
    requires Posed(j) && cur < |Sections(j)| && a == Msg(j, Call(Low(cur + 1), RequestSection))
    ensures var named := Named(Low(cur + 1), cur);
            named <= cur && SndStep(j.p, j.sectionSize, Loaded(j, cur), a)
                            == SndDone(Loaded(j, named), SectionData(j.p, Loaded(j, named)), None)
  {
    NamedIs(cur);
  }

  /** The Sender takes what is on its queue and everything it produces is sent. */
  lemma TakenUp(j: Job, s: Sys, cur: nat, acts: seq<Asdu>, err: Option<Failure>)
    requires Posed(j) && |s.up| == 1 && s.down == []
    requires SndStep(j.p, j.sectionSize, s.snd, s.up[0]) == SndDone(Loaded(j, cur), acts, err)
    requires SentBefore(j.p, acts) == |acts|
    ensures TakeUp(j.p, j.sectionSize, s) == s.(snd := Loaded(j, cur), up := [], down := acts)
  {
    assert s.up[1..] == [];
  }

  lemma SendingFromStart(j: Job, s: Sys, cur: nat)
    requires Posed(j) && cur < |Sections(j)| && s.snd == Loaded(j, cur) && Taking(j, s.rcv)
    requires s.up == [] && s.down == Tail(j, cur, 0) && s.rcv.nos == Low(cur + 1) && s.rcv.sectionBuf == []
    ensures Shape(j, Sending(0), s)
  {
    assert Segments(j, cur)[..0] == [];
  }

  lemma RequestServedTail(j: Job, cur: nat, named: nat, a: Asdu)
    requires Posed(j) && cur < |Sections(j)| && a == Msg(j, Call(Low(cur + 1), RequestSection))
    requires named == Named(Low(cur + 1), cur)
    ensures named <= cur && Low(named + 1) == Low(cur + 1)
    ensures SndStep(j.p, j.sectionSize, Loaded(j, cur), a) == SndDone(Loaded(j, named), Tail(j, named, 0), None)
    ensures SentBefore(j.p, Tail(j, named, 0)) == |Tail(j, named, 0)|
  {
    NamedIs(cur);
    RequestServed(j, cur, a);
    SectionDataSent(j, named);
  }

  lemma RequestTaken(j: Job, s: Sys, cur: nat)
    requires InSection(j, s) && s.down == [] && s.up == [Msg(j, Call(Low(s.snd.cur + 1), RequestSection))]
    requires cur == Named(Low(s.snd.cur + 1), s.snd.cur)
    ensures cur <= s.snd.cur && Low(cur + 1) == Low(s.snd.cur + 1)
    ensures TakeUp(j.p, j.sectionSize, s) == s.(snd := Loaded(j, cur), up := [], down := Tail(j, cur, 0))
  {
    RequestServedTail(j, s.snd.cur, cur, s.up[0]);
    TakenUp(j, s, cur, Tail(j, cur, 0), None);
  }

  lemma StepRequested(j: Job, s: Sys, c: Option<Bytes>)
    requires Shape(j, Requested, s)
    ensures var t := Step(j.p, j.sectionSize, s, c);
            Shape(j, Sending(0), t) && Same(s, t) && t.rcv == s.rcv && t.snd.cur == Named(Low(s.snd.cur + 1), s.snd.cur)
  {
    var cur := Named(Low(s.snd.cur + 1), s.snd.cur);
    RequestTaken(j, s, cur);
    SendingFromStart(j, s.(snd := Loaded(j, cur), up := [], down := Tail(j, cur, 0)), cur);
  }

  lemma StepRefused(j: Job, s: Sys, c: Option<Bytes>)
    requires Shape(j, Refused, s)
    ensures var t := Step(j.p, j.sectionSize, s, c);
            Shape(j, Sending(0), t) && Same(s, t) && t.rcv == s.rcv && t.snd == s.snd
  {
    SectionDataSent(j, s.snd.cur);
    assert Segments(j, s.snd.cur)[..0] == [];
  }

  lemma FlattenTo(pieces: seq<Bytes>, k: nat)
    requires k < |pieces|
    ensures Flatten(pieces[..k + 1]) == Flatten(pieces[..k]) + pieces[k]
  {
    assert pieces[..k + 1] == pieces[..k] + [pieces[k]];
    FlattenSnoc(pieces[..k], pieces[k]);
  }

  lemma TailMoves(j: Job, cur: nat, k: nat)
    requires Posed(j) && cur < |Sections(j)| && k < |Segments(j, cur)|
    ensures Tail(j, cur, k)[0] == Msg(j, Segment(Low(cur + 1), Segments(j, cur)[k]))
        && Tail(j, cur, k)[1..] == Tail(j, cur, k + 1)
  {
    assert Segments(j, cur)[k..][1..] == Segments(j, cur)[k + 1..];
  }

  /** One segment arrives, with the right number of octets whatever the environment does. */
  lemma StepSegment(j: Job, k: nat, s: Sys, c: Option<Bytes>)
    requires Shape(j, Sending(k), s) && k < |Segments(j, s.snd.cur)|
    ensures var t := Step(j.p, j.sectionSize, s, c);
            && Shape(j, Sending(k + 1), t) && t.snd == s.snd && t.rcv.fileBuf == s.rcv.fileBuf
            && t.delivered == s.delivered && t.accepted == s.accepted && s.down != []
            && s.down[0] == Msg(j, Segment(Low(s.snd.cur + 1), Segments(j, s.snd.cur)[k]))
            && t.budget == (if Damages(s, c) then s.budget - 1 else s.budget)
            && t.rcv.sectionBuf == s.rcv.sectionBuf + (if Damages(s, c) then c.value else Segments(j, s.snd.cur)[k])
  {
    TailMoves(j, s.snd.cur, k);
    FlattenTo(Segments(j, s.snd.cur), k);
  }

  /** The end of a section: the checksum decides. */
  lemma StepSectionEnd(j: Job, k: nat, s: Sys, c: Option<Bytes>) returns (ph: Phase)
    requires Shape(j, Sending(k), s) && k == |Segments(j, s.snd.cur)|
    ensures var t := Step(j.p, j.sectionSize, s, c);
            var ok := Checksum(s.rcv.sectionBuf) == Checksum(Sections(j)[s.snd.cur]);
            && ph == (if ok then Accepted else Refused)
            && Shape(j, ph, t) && t.snd == s.snd && t.delivered == s.delivered && t.budget == s.budget
            && t.accepted == s.accepted + (if ok then [s.rcv.sectionBuf] else [])
            && t.rcv.fileBuf == s.rcv.fileBuf + (if ok then s.rcv.sectionBuf else [])
  {
    assert Segments(j, s.snd.cur)[k..] == [];
    var ok := Checksum(s.rcv.sectionBuf) == Checksum(Sections(j)[s.snd.cur]);
    ph := if ok then Accepted else Refused;
    OneSent(j.p, Msg(j, if ok then Ack(s.rcv.nos, PosAckSection, NoFileError)
        else Ack(s.rcv.nos, NegAckSection, ChecksumFailed)));
  }

  lemma StepAccepted(j: Job, s: Sys, c: Option<Bytes>) returns (ph: Phase)
    requires Shape(j, Accepted, s)
    ensures var t := Step(j.p, j.sectionSize, s, c);
            Shape(j, ph, t) && Same(s, t) && t.rcv == s.rcv && (ph != Stuck ==> t.snd.cur == s.snd.cur + 1)
    ensures var cur := s.snd.cur + 1;
            ph == if cur == |Sections(j)| then Closing else if Offerable(Sections(j)[cur]) then Offered else Stuck
  {
    var cur := s.snd.cur + 1;
    if cur == |Sections(j)| {
      ph := Closing;
      OneSent(j.p, CloseFile(Loaded(j, cur)));
    } else {
      ph := if Offerable(Sections(j)[cur]) then Offered else Stuck;
      OneSent(j.p, OfferSection(Loaded(j, cur)));
    }
  }

  lemma StepClosing(j: Job, s: Sys, c: Option<Bytes>)
    requires Shape(j, Closing, s) && Checksum(s.rcv.fileBuf) == ChecksumOver(Sections(j))
    ensures var t := Step(j.p, j.sectionSize, s, c);
            && Shape(j, Closed, t) && t.accepted == s.accepted && t.budget == s.budget
            && t.delivered == s.delivered + [File(j.ioa, j.nof, s.rcv.fileBuf)]
            && t.rcv.store == s.rcv.store[(j.ioa, j.nof) := s.rcv.fileBuf]
  {
    OneSent(j.p, Msg(j, Ack(Low(|Sections(j)|), PosAckFile, NoFileError)));
  }

  lemma StepClosed(j: Job, s: Sys, c: Option<Bytes>)
    requires Shape(j, Closed, s)
    ensures var t := Step(j.p, j.sectionSize, s, c); Shape(j, Over, t) && Same(s, t) && t.rcv == s.rcv
  {
  }
}
