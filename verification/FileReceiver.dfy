/** A Receiver against an arbitrary peer: what is checked before anything is kept. */
module FileReceiver {
  import opened AsduParams
  import opened Octets
  import opened FileTransfer

  /** The ASDU ends the file, or the section, that the Receiver is taking. */
  predicate Ends(r: Rcv, a: Asdu, what: LastQualifier) {
    r.active && a.nof == r.nof && a.body.LastOf? && a.body.lsq == what
  }

  /** The announced octet is the sum of the data modulo 256. */
  predicate Announced(a: Asdu, data: Bytes) {
    a.body.LastOf? && a.body.chs == Sum(data) % 256
  }

  /** The Receiver can answer: its address fits the parameters. */
  predicate Answerable(p: ValidParams, r: Rcv) {
    CommonAddrFits(p, r.ca) && InfoObjAddrFits(p, r.ioa)
  }

  /** What goes out of one answer: itself, if it can be sent at all. */
  function Answer(p: ValidParams, r: Rcv, body: Body): seq<Asdu> {
    if Answerable(p, r) then [Asdu(r.ca, r.ioa, r.nof, body)] else []
  }

  lemma OneAnswer(p: ValidParams, r: Rcv, body: Body)
    requires body.Ack? || body.Call?
    ensures var acts := [Asdu(r.ca, r.ioa, r.nof, body)];
            && acts[..SentBefore(p, acts)] == Answer(p, r, body)
            && (SentBefore(p, acts) < |acts| <==> !Answerable(p, r))
  {
  }

  /**
   * A file is delivered exactly when the end of the file being taken comes and announces the sum of what was taken.
   * It is stored under its name and nothing else changes in the store, whether or not it can be acknowledged; if the
   * announced octet is another, it is refused and dropped.
   */
  lemma DeliversExactlyWhen(p: ValidParams, r: Rcv, a: Asdu)
    ensures
      var d := RcvHandle(p, r, a);
      && (d.done.Some? <==> Ends(r, a, LastOfFile) && Announced(a, r.fileBuf))
      && (d.done.Some? ==>
            && d.done.value == File(r.ioa, r.nof, r.fileBuf) && d.st.store == r.store[(r.ioa, r.nof) := r.fileBuf]
            && d.acts == Answer(p, r, Ack(a.body.nos, PosAckFile, NoFileError)))
      && (d.done == None ==> d.st.store == r.store)
      && (Ends(r, a, LastOfFile) ==> !d.st.active && d.st.fileBuf == [])
      && (Ends(r, a, LastOfFile) && !Announced(a, r.fileBuf) ==>
            && d.acts == Answer(p, r, Ack(a.body.nos, NegAckFile, ChecksumFailed))
            && d.err == Some(if Answerable(p, r) then BadChecksum else SendRefused))
  {
    hide Answerable, Sendable, SentBefore;
    if Ends(r, a, LastOfFile) {
      if Announced(a, r.fileBuf) {
        OneAnswer(p, r, Ack(a.body.nos, PosAckFile, NoFileError));
      } else {
        OneAnswer(p, r, Ack(a.body.nos, NegAckFile, ChecksumFailed));
      }
    } else {
      NothingDelivered(p, r, a);
    }
  }

  lemma NothingDelivered(p: ValidParams, r: Rcv, a: Asdu)
    requires !Ends(r, a, LastOfFile)
    ensures var d := RcvHandle(p, r, a); d.done == None && d.st.store == r.store
  {
    hide Sendable, SentBefore, Checksum;
  }

  /**
   * A section joins the file exactly when its end comes and announces its sum; otherwise its octets are dropped and asked
   * for again. Nothing but a segment of the section being taken adds octets to it.
   */
  lemma SectionJoinsExactlyWhen(p: ValidParams, r: Rcv, a: Asdu)
    requires Ends(r, a, LastOfSection) && Answerable(p, r)
    ensures
      var d, good := RcvHandle(p, r, a), Announced(a, r.sectionBuf);
      && d.done == None && d.st.sectionBuf == []
      && d.st == r.(fileBuf := if good then r.fileBuf + r.sectionBuf else r.fileBuf, sectionBuf := [])
      && d.acts == [Asdu(r.ca, r.ioa, r.nof,
                         if good then Ack(r.nos, PosAckSection, NoFileError)
                         else Ack(r.nos, NegAckSection, ChecksumFailed))]
      && d.err == if good then None else Some(BadChecksum)
  {
    OneAnswer(p, r, if Announced(a, r.sectionBuf) then Ack(r.nos, PosAckSection, NoFileError)
                    else Ack(r.nos, NegAckSection, ChecksumFailed));
  }

  lemma SegmentJoinsExactlyWhen(p: ValidParams, r: Rcv, a: Asdu)
    requires a.body.Segment?
    ensures
      var d, mine := RcvHandle(p, r, a), r.active && a.nof == r.nof && a.body.nos == r.nos;
      && d.acts == [] && d.done == None && d.err == (if mine then None else Some(NoTransfer))
      && d.st == r.(sectionBuf := if mine then r.sectionBuf + a.body.data else r.sectionBuf)
  {
  }

  /** One more answer, and what becomes of the Receiver when it cannot be sent. */
  function Answering(p: ValidParams, r: Rcv, body: Body, err: Option<Failure>): RcvDone {
    if Answerable(p, r) then RcvDone(r, [Asdu(r.ca, r.ioa, r.nof, body)], None, err)
    else RcvDone(RcvReset(r), [], None, Some(SendRefused))
  }

  /** Taking the file of that name, with nothing taken yet. */
  predicate Takes(r: Rcv, a: Asdu) {
    r.active && (r.ca, r.ioa, r.nof) == (a.ca, a.ioa, a.nof) && r.nos == 0 && r.sectionBuf == [] && r.fileBuf == []
  }

  /**
   * An announced file is called once if it is the one asked for, and selected if none is being taken and announcements
   * are accepted; a refused one ends the transfer; any other changes nothing.
   */
  lemma FileReadyAnswered(p: ValidParams, r: Rcv, a: Asdu)
    requires a.body.FileReady?
    ensures
      var d := RcvHandle(p, r, a);
      if a.body.negative then d == RcvDone(RcvReset(r), [], None, Some(FileNotFound))
      else if r.active && !r.called && a.ioa == r.ioa && a.nof == r.nof then
        d == Answering(p, r.(called := true), Call(0, RequestFile), None)
      else if !r.active && r.autoAccept then
        var t := Begin(r, a.ca, a.ioa, a.nof);
        Takes(t, a) && d == Answering(p, t, Call(0, SelectFile), None)
      else d == RcvDone(r, [], None, None)
  {
    if !a.body.negative {
      if r.active {
        OneAnswer(p, r.(called := true), Call(0, RequestFile));
      } else {
        OneAnswer(p, Begin(r, a.ca, a.ioa, a.nof), Call(0, SelectFile));
      }
    }
  }

  /** An announced section of the file being taken is called by its name and taken anew; one not ready ends it all. */
  lemma SectionReadyAnswered(p: ValidParams, r: Rcv, a: Asdu)
    requires a.body.SectionReady?
    ensures
      RcvHandle(p, r, a)
      == if !r.active || a.nof != r.nof then RcvDone(r, [], None, Some(NoTransfer))
         else if a.body.notReady then RcvDone(RcvReset(r), [], None, Some(NoTransfer))
         else Answering(p, r.(nos := a.body.nos, sectionBuf := []), Call(a.body.nos, RequestSection), None)
  {
    OneAnswer(p, r.(nos := a.body.nos, sectionBuf := []), Call(a.body.nos, RequestSection));
  }

  /** Nothing else changes anything: ends of other files or of nothing, calls and acknowledgements. */
  lemma OthersIgnored(p: ValidParams, r: Rcv, a: Asdu)
    requires || a.body.Call? || a.body.Ack?
             || (a.body.LastOf? && (!r.active || a.nof != r.nof || a.body.lsq == OtherLast))
    ensures
      RcvHandle(p, r, a)
      == RcvDone(r, [], None, if !a.body.LastOf? then Some(Unsupported)
                              else if !r.active || a.nof != r.nof then Some(NoTransfer) else None)
  {
  }

  /** A request of the user selects the file, unless one is being taken. */
  lemma RequestSelects(p: ValidParams, r: Rcv, ca: nat, ioa: nat, nof: nat)
    ensures
      RequestFileOf(p, r, ca, ioa, nof)
      == if r.active then RcvDone(r, [], None, Some(Busy))
         else Answering(p, Begin(r, ca, ioa, nof), Call(0, SelectFile), None)
    ensures Takes(Begin(r, ca, ioa, nof), Asdu(ca, ioa, nof, Call(0, SelectFile)))
  {
  }

  // ---- whole runs ----

  /** What can happen to a Receiver: an ASDU comes, whatever it is, or the user asks for a file. */
  datatype Event = Got(a: Asdu) | Asked(ca: nat, ioa: nat, nof: nat)

  /** A section that was acknowledged, and the ASDU that announced its end. */
  datatype Section = Section(data: Bytes, end: Asdu)

  datatype Delivery = Delivery(file: File, sections: seq<Section>, end: Asdu)

  /** A Receiver and its history: the sections of the file being taken, and the files delivered. */
  datatype Life = Life(rcv: Rcv, sections: seq<Section>, delivered: seq<Delivery>)

  function Happen(p: ValidParams, l: Life, e: Event): Life {
    match e
    case Asked(ca, ioa, nof) => l.(rcv := RequestFileOf(p, l.rcv, ca, ioa, nof).st)
    case Got(a) =>
      var d := RcvHandle(p, l.rcv, a);
      Life(d.st, if !d.st.active then [] else l.sections + Acknowledged(l.rcv, a, d.acts),
           l.delivered + if d.done.Some? then [Delivery(d.done.value, l.sections, a)] else [])
  }

  /** The section that is acknowledged, if one is. */
  function Acknowledged(r: Rcv, a: Asdu, acts: seq<Asdu>): seq<Section> {
    if |acts| == 1 && acts[0].body.Ack? && acts[0].body.ack == PosAckSection then [Section(r.sectionBuf, a)] else []
  }

  function Live(p: ValidParams, r: Rcv, es: seq<Event>): Life {
    if es == [] then Life(r, [], []) else Happen(p, Live(p, r, es[..|es| - 1]), es[|es| - 1])
  }

  function DataOf(sections: seq<Section>): (r: seq<Bytes>)
    ensures |r| == |sections|
  {
    seq(|sections|, i requires 0 <= i < |sections| => sections[i].data)
  }

  ghost predicate AllAnnounced(sections: seq<Section>) {
    forall i :: 0 <= i < |sections| ==> Announced(sections[i].end, sections[i].data)
  }

  /** The file being taken is the sections acknowledged. */
  ghost predicate Assembled(l: Life) {
    (if l.rcv.active then l.rcv.fileBuf == Flatten(DataOf(l.sections)) else l.sections == []) && AllAnnounced(l.sections)
  }

  /** A delivered file is its sections, each with its announced sum, and has the sum announced at its end. */
  predicate FileChecked(d: Delivery) {
    && d.file.data == Flatten(DataOf(d.sections)) && d.end.nof == d.file.nof && Announced(d.end, d.file.data)
  }

  ghost predicate Checked(d: Delivery) {
    FileChecked(d) && AllAnnounced(d.sections)
  }

  /** The store after writing the delivered files, in order. */
  function Written(store: Files, delivered: seq<Delivery>): Files {
    if delivered == [] then store
    else
      var f := delivered[|delivered| - 1].file;
      Written(store, delivered[..|delivered| - 1])[(f.ioa, f.nof) := f.data]
  }

  lemma DataSnoc(sections: seq<Section>, x: Section)
    ensures Flatten(DataOf(sections + [x])) == Flatten(DataOf(sections)) + x.data
  {
    assert DataOf(sections + [x]) == DataOf(sections) + [x.data];
    FlattenSnoc(DataOf(sections), x.data);
  }

  /** Other ASDUs leave the file being taken alone, begin an empty one, or drop it. */
  lemma OtherKeeps(p: ValidParams, r: Rcv, a: Asdu)
    requires !Ends(r, a, LastOfFile) && !Ends(r, a, LastOfSection)
    ensures
      var d := RcvHandle(p, r, a);
      d.done == None && Acknowledged(r, a, d.acts) == []
      && (d.st.active ==> d.st.fileBuf == if r.active then r.fileBuf else [])
  {
  }

  lemma SectionRefusedDrops(p: ValidParams, r: Rcv, a: Asdu)
    requires Ends(r, a, LastOfSection) && !Answerable(p, r)
    ensures var d := RcvHandle(p, r, a); !d.st.active && d.done == None
  {
  }

  lemma HappenAssembles(p: ValidParams, l: Life, e: Event)
    requires Assembled(l)
    ensures Assembled(Happen(p, l, e))
  {
    hide RcvHandle;
    if e.Got? {
      var r, a := l.rcv, e.a;
      DeliversExactlyWhen(p, r, a);
      if Ends(r, a, LastOfSection) {
        if Answerable(p, r) {
          SectionJoinsExactlyWhen(p, r, a);
          DataSnoc(l.sections, Section(r.sectionBuf, a));
          assert l.sections + [] == l.sections;
        } else {
          SectionRefusedDrops(p, r, a);
        }
      } else if !Ends(r, a, LastOfFile) {
        OtherKeeps(p, r, a);
        assert l.sections + [] == l.sections;
      }
    }
  }

  /** At most one more file was delivered, checked and stored. */
  ghost predicate Delivered(l: Life, m: Life) {
    if |m.delivered| == |l.delivered| then m.delivered == l.delivered && m.rcv.store == l.rcv.store
    else
      && |m.delivered| == |l.delivered| + 1 && m.delivered[..|l.delivered|] == l.delivered
      && Checked(m.delivered[|l.delivered|])
      && var f := m.delivered[|l.delivered|].file; m.rcv.store == l.rcv.store[(f.ioa, f.nof) := f.data]
  }

  lemma HappenDelivers(p: ValidParams, l: Life, e: Event)
    requires Assembled(l)
    ensures Delivered(l, Happen(p, l, e))
  {
    hide RcvHandle;
    if e.Got? {
      DeliversExactlyWhen(p, l.rcv, e.a);
      assert l.delivered + [] == l.delivered;
    }
  }

  lemma {:induction false} LiveAssembles(p: ValidParams, r: Rcv, es: seq<Event>)
    requires !r.active
    ensures Assembled(Live(p, r, es))
  {
    hide Happen, Assembled;
    if es == [] {
      NothingYet(r);
    } else {
      LiveAssembles(p, r, es[..|es| - 1]);
      HappenAssembles(p, Live(p, r, es[..|es| - 1]), es[|es| - 1]);
    }
  }

  lemma NothingYet(r: Rcv)
    requires !r.active
    ensures Assembled(Life(r, [], []))
  {
  }

  /**
   * Whatever an idle Receiver is sent and asked for: every file it delivers is the concatenation of sections it
   * acknowledged, each with the sum announced at its end, and has the sum announced at its own end; and its store is the
   * one it had with the delivered files written to it, in order.
   */
  lemma {:induction false} EveryFileChecked(p: ValidParams, r: Rcv, es: seq<Event>)
    requires !r.active
    ensures
      var l := Live(p, r, es);
      && (forall i :: 0 <= i < |l.delivered| ==> Checked(l.delivered[i]))
      && l.rcv.store == Written(r.store, l.delivered)
  {
    hide Happen, Checked;
    if es != [] {
      var front := es[..|es| - 1];
      EveryFileChecked(p, r, front);
      LiveAssembles(p, r, front);
      HappenDelivers(p, Live(p, r, front), es[|es| - 1]);
    }
  }
}
