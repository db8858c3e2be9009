/** A Sender against an arbitrary peer: what leaves its store, and what ends a transfer. */
module FileSender {
  import opened AsduParams
  import opened Octets
  import opened FileTransfer
  import opened FilePieces
  import opened FileNet

  /** The ASDU asks to delete the file of that name. */
  predicate Deletes(a: Asdu, name: (nat, nat)) {
    a.body.Call? && a.body.call == DeleteFile && (a.ioa, a.nof) == name
  }

  predicate Current(s: Snd, a: Asdu) {
    s.active && s.ioa == a.ioa && s.nof == a.nof
  }

  /** Exactly the file a call to delete names leaves the store. */
  lemma StoreAfter(p: ValidParams, sectionSize: nat, s: Snd, a: Asdu, name: (nat, nat))
    requires sectionSize > 0
    ensures
      var store := SndHandle(p, sectionSize, s, a).st.store;
      && (name in store <==> name in s.store && !Deletes(a, name))
      && (name in store ==> store[name] == s.store[name])
  {
  }

  /** A file is deleted without an answer; a file that is not there is refused by name. */
  lemma DeleteAnswered(p: ValidParams, sectionSize: nat, s: Snd, a: Asdu)
    requires sectionSize > 0 && Deletes(a, (a.ioa, a.nof))
    ensures
      var d, refusal := SndHandle(p, sectionSize, s, a),
                        Asdu(a.ca, a.ioa, a.nof, Ack(a.body.nos, NegAckFile, UnexpectedNameOfFile));
      if (a.ioa, a.nof) in s.store then
        && d.acts == [] && d.err == None
        && d.st == (if Current(s, a) then SndReset(s) else s).(store := s.store - {(a.ioa, a.nof)})
      else if Sendable(p, refusal) then d == SndDone(s, [refusal], Some(FileNotFound))
      else d == SndDone(SndReset(s), [], Some(SendRefused))
  {
  }

  /** Calls and answers that end a transfer by what they say. */
  predicate EndsTransfer(s: Snd, a: Asdu) {
    || (a.body.Call? && (a.body.call == DeactivateFile || a.body.call == DeactivateSection))
    || (a.body.Call? && a.body.call == DeleteFile && Current(s, a) && (a.ioa, a.nof) in s.store)
    || (a.body.Ack? && (a.body.ack == PosAckFile || a.body.ack == NegAckFile))
  }

  /** A running transfer is dropped exactly by those, and by an ASDU that cannot be sent. */
  lemma DropsExactlyWhen(p: ValidParams, sectionSize: nat, s: Snd, a: Asdu)
    requires sectionSize > 0 && s.active
    ensures
      var d := SndHandle(p, sectionSize, s, a);
      && (!d.st.active <==> EndsTransfer(s, a) || d.err == Some(SendRefused))
      && (!d.st.active ==> d.st.sections == [] && d.st.cur == 0 && d.st.ioa == 0 && d.st.nof == 0)
      && (EndsTransfer(s, a) ==> d.acts == [] && d.err == None)
  {
    if !EndsTransfer(s, a) {
      StaysActive(p, sectionSize, s, a);
    }
  }

  lemma StaysActive(p: ValidParams, sectionSize: nat, s: Snd, a: Asdu)
    requires sectionSize > 0 && s.active && !EndsTransfer(s, a)
    ensures var d := SndStep(p, sectionSize, s, a); d.st.active && d.err != Some(SendRefused)
  {
    hide SectionData, SplitSections;
  }

  /** What the peer may make of it: after any ASDUs, the files left are those nobody deleted, unchanged. */
  function After(p: ValidParams, sectionSize: nat, s: Snd, got: seq<Asdu>): Snd
    requires sectionSize > 0
  {
    if got == [] then s
    else SndHandle(p, sectionSize, After(p, sectionSize, s, got[..|got| - 1]), got[|got| - 1]).st
  }

  lemma {:induction false} FilesKeptExactly(p: ValidParams, sectionSize: nat, s: Snd, got: seq<Asdu>, name: (nat, nat))
    requires sectionSize > 0
    ensures
      var store := After(p, sectionSize, s, got).store;
      && (name in store <==> name in s.store && forall i :: 0 <= i < |got| ==> !Deletes(got[i], name))
      && (name in store ==> store[name] == s.store[name])
  {
    hide SndHandle;
    if got != [] {
      var front, last := got[..|got| - 1], got[|got| - 1];
      FilesKeptExactly(p, sectionSize, s, front, name);
      StoreAfter(p, sectionSize, After(p, sectionSize, s, front), last, name);
      assert forall i :: 0 <= i < |front| ==> got[i] == front[i];
      assert forall i :: 0 <= i < |got| ==> got[i] == if i < |front| then front[i] else last;
    }
  }

  // ---- what is sent ----

  predicate Calls(a: Asdu, what: CallAction) {
    a.body.Call? && a.body.call == what
  }

  /** The transfer of the file of that name, from its beginning. */
  predicate Loaded(s: Snd, store: Files, a: Asdu) {
    && s.active && (s.ca, s.ioa, s.nof) == (a.ca, a.ioa, a.nof) && s.cur == 0 && s.store == store
    && (a.ioa, a.nof) in store && Flatten(s.sections) == store[(a.ioa, a.nof)] && |s.sections| > 0
  }

  lemma LoadIs(sectionSize: nat, s: Snd, a: Asdu)
    requires sectionSize > 0 && (a.ioa, a.nof) in s.store
    ensures Loaded(Load(sectionSize, s, a), s.store, a)
  {
    SectionsJoin(s.store[(a.ioa, a.nof)], sectionSize);
  }

  /** An announcement of the k-th section, counted from 0: its name is k + 1, modulo 256. */
  function Announcement(s: Snd, k: nat): Asdu
    requires k < |s.sections|
  {
    Asdu(s.ca, s.ioa, s.nof, SectionReady((k + 1) % 256, |s.sections[k]| % 0x1_0000_0000, false))
  }

  /** What goes out of one ASDU, if it can be sent, and what then becomes of the transfer. */
  function OneOut(p: ValidParams, s: Snd, a: Asdu, err: Option<Failure>): SndDone {
    if Sendable(p, a) then SndDone(s, [a], err) else SndDone(SndReset(s), [], Some(SendRefused))
  }

  lemma OneOutIs(p: ValidParams, sectionSize: nat, s: Snd, t: Snd, a: Asdu, b: Asdu, err: Option<Failure>)
    requires sectionSize > 0 && SndStep(p, sectionSize, s, a) == SndDone(t, [b], err)
    ensures SndHandle(p, sectionSize, s, a) == OneOut(p, t, b, err)
  {
    OneSent(p, b);
  }

  /** Selecting a file makes it the current one, from its beginning, and announces its length; another is refused. */
  lemma SelectAnswered(p: ValidParams, sectionSize: nat, s: Snd, a: Asdu)
    requires sectionSize > 0 && Calls(a, SelectFile)
    ensures
      var d := SndHandle(p, sectionSize, s, a);
      if (a.ioa, a.nof) in s.store then
        var ready := Asdu(a.ca, a.ioa, a.nof, FileReady(|s.store[(a.ioa, a.nof)]| % 0x1_0000_0000, false));
        if Sendable(p, ready) then d.acts == [ready] && d.err == None && Loaded(d.st, s.store, a)
        else d.acts == [] && d.err == Some(SendRefused) && !d.st.active
      else
        d == OneOut(p, s, Asdu(a.ca, a.ioa, a.nof, Ack(a.body.nos, NegAckFile, UnexpectedNameOfFile)), Some(FileNotFound))
  {
    hide SndHandle;
    if (a.ioa, a.nof) in s.store {
      LoadIs(sectionSize, s, a);
      OneOutIs(p, sectionSize, s, Load(sectionSize, s, a), a,
               Asdu(a.ca, a.ioa, a.nof, FileReady(|s.store[(a.ioa, a.nof)]| % 0x1_0000_0000, false)), None);
    } else {
      OneOutIs(p, sectionSize, s, s, a, Asdu(a.ca, a.ioa, a.nof, Ack(a.body.nos, NegAckFile, UnexpectedNameOfFile)),
               Some(FileNotFound));
    }
  }

  /** Calling a file announces its first section: of the current transfer, from its beginning, or of a new one. */
  lemma CallAnswered(p: ValidParams, sectionSize: nat, s: Snd, a: Asdu)
    requires sectionSize > 0 && Calls(a, RequestFile)
    ensures
      var d := SndHandle(p, sectionSize, s, a);
      if Current(s, a) then
        s.sections != [] ==> d == OneOut(p, s.(cur := 0), Announcement(s, 0), None)
      else if (a.ioa, a.nof) in s.store then
        var t := Load(sectionSize, s, a);
        Loaded(t, s.store, a) && d == OneOut(p, t, Announcement(t, 0), None)
      else
        d == OneOut(p, s, Asdu(a.ca, a.ioa, a.nof, Ack(a.body.nos, NegAckFile, UnexpectedNameOfFile)), Some(FileNotFound))
  {
    hide SndHandle;
    if Current(s, a) {
      if s.sections != [] {
        OneOutIs(p, sectionSize, s, s.(cur := 0), a, Announcement(s, 0), None);
      }
    } else if (a.ioa, a.nof) in s.store {
      LoadIs(sectionSize, s, a);
      var t := Load(sectionSize, s, a);
      OneOutIs(p, sectionSize, s, t, a, Announcement(t, 0), None);
    } else {
      OneOutIs(p, sectionSize, s, s, a, Asdu(a.ca, a.ioa, a.nof, Ack(a.body.nos, NegAckFile, UnexpectedNameOfFile)),
               Some(FileNotFound));
    }
  }

  /** A section is named from 1 on, within the running transfer of a file of that name. */
  function SectionRefusal(s: Snd, a: Asdu): AckAction {
    if !s.active || a.nof != s.nof then NegAckFile else NegAckSection
  }

  predicate NamesSection(s: Snd, a: Asdu) {
    a.body.Call? && s.active && a.nof == s.nof && 0 < a.body.nos <= |s.sections|
  }

  /** Selecting a section makes it the current one and announces it; any other name is refused. */
  lemma SectionSelected(p: ValidParams, sectionSize: nat, s: Snd, a: Asdu)
    requires sectionSize > 0 && Calls(a, SelectSection)
    ensures
      SndHandle(p, sectionSize, s, a)
      == if NamesSection(s, a) then OneOut(p, s.(cur := a.body.nos - 1), Announcement(s, a.body.nos - 1), None)
         else
           OneOut(p, s, Asdu(a.ca, a.ioa, a.nof,
                             Ack(a.body.nos, SectionRefusal(s, a),
                                 if SectionRefusal(s, a) == NegAckFile then UnexpectedNameOfFile
                                 else UnexpectedNameOfSection)), Some(NoTransfer))
  {
    hide SndHandle;
    if NamesSection(s, a) {
      OneOutIs(p, sectionSize, s, s.(cur := a.body.nos - 1), a, Announcement(s, a.body.nos - 1), None);
    } else {
      OneOutIs(p, sectionSize, s, s, a,
               Asdu(a.ca, a.ioa, a.nof,
                    Ack(a.body.nos, SectionRefusal(s, a),
                        if SectionRefusal(s, a) == NegAckFile then UnexpectedNameOfFile else UnexpectedNameOfSection)),
               Some(NoTransfer));
    }
  }

  /**
   * What a section is sent as: segments of it, in order, that join to its octets, none of them empty, under its
   * name, and then its end, announcing the sum of its octets.
   */
  predicate SendsSection(s: Snd, k: nat, acts: seq<Asdu>)
    requires k < |s.sections|
  {
    && |acts| > 0 && (forall i :: 0 <= i < |acts| ==> acts[i] == Asdu(s.ca, s.ioa, s.nof, acts[i].body))
    && (forall i :: 0 <= i < |acts| - 1 ==>
          acts[i].body.Segment? && acts[i].body.nos == (k + 1) % 256 && acts[i].body.data != [])
    && Flatten(PiecesOf(acts[..|acts| - 1])) == s.sections[k]
    && acts[|acts| - 1].body == LastOf((k + 1) % 256, LastOfSection, Sum(s.sections[k]) % 256)
  }

  function PiecesOf(acts: seq<Asdu>): (r: seq<Bytes>)
    ensures |r| == |acts|
  {
    seq(|acts|, i requires 0 <= i < |acts| => if acts[i].body.Segment? then acts[i].body.data else [])
  }

  lemma DataIsSection(p: ValidParams, s: Snd)
    requires s.cur < |s.sections|
    ensures SendsSection(s, s.cur, SectionData(p, s))
  {
    SegmentsFit(p, s.sections[s.cur]);
    var pieces := Cut(s.sections[s.cur], MaxSegmentSize(p));
    CutJoins(s.sections[s.cur], MaxSegmentSize(p));
    var acts := SectionData(p, s);
    assert acts[..|acts| - 1] == SegmentAsdus(s, Low(s.cur + 1), pieces);
    assert PiecesOf(acts[..|acts| - 1]) == pieces;
  }

  /** Calling a section sends it whole: the one named, or the current one under the name 0; and so does its refusal. */
  lemma SectionCalled(p: ValidParams, sectionSize: nat, s: Snd, a: Asdu, t: Snd)
    requires sectionSize > 0 && s.active
    requires || (Calls(a, RequestSection) && NamesSection(s, a) && t == s.(cur := a.body.nos - 1))
             || (Calls(a, RequestSection) && a.nof == s.nof && a.body.nos == 0 && t == s)
             || (a.body.Ack? && a.body.ack == NegAckSection && t == s)
    requires t.cur < |t.sections|
    ensures
      var d := SndHandle(p, sectionSize, s, a);
      if CommonAddrFits(p, t.ca) && InfoObjAddrFits(p, t.ioa)
      then d.st == t && d.err == None && SendsSection(t, t.cur, d.acts)
      else d == SndDone(SndReset(t), [], Some(SendRefused))
  {
    hide SectionData, Sendable, CommonAddrFits, InfoObjAddrFits;
    DataIsSection(p, t);
    DataSendable(p, t);
    assert SndStep(p, sectionSize, s, a) == SndDone(t, SectionData(p, t), None);
  }

  /** Either every ASDU of a section can be sent or none, not even the first. */
  lemma DataSendable(p: ValidParams, s: Snd)
    requires s.cur < |s.sections|
    ensures
      var acts := SectionData(p, s);
      SentBefore(p, acts) == if CommonAddrFits(p, s.ca) && InfoObjAddrFits(p, s.ioa) then |acts| else 0
  {
    hide CommonAddrFits, InfoObjAddrFits, MaxSegmentSize;
    var section, acts := s.sections[s.cur], SectionData(p, s);
    SegmentsFit(p, section);
    CutJoins(section, MaxSegmentSize(p));
    if CommonAddrFits(p, s.ca) && InfoObjAddrFits(p, s.ioa) {
      AllSent(p, acts);
    }
  }

  /** Called by another name nothing is sent but a refusal, and the transfer goes on. */
  lemma SectionNotCalled(p: ValidParams, sectionSize: nat, s: Snd, a: Asdu)
    requires sectionSize > 0 && Calls(a, RequestSection)
    requires !NamesSection(s, a) && !(s.active && a.nof == s.nof && a.body.nos == 0)
    ensures
      SndHandle(p, sectionSize, s, a)
      == OneOut(p, s, Asdu(a.ca, a.ioa, a.nof,
                           Ack(a.body.nos, SectionRefusal(s, a),
                               if SectionRefusal(s, a) == NegAckFile then UnexpectedNameOfFile
                               else UnexpectedNameOfSection)), Some(NoTransfer))
  {
    hide SndHandle;
    OneOutIs(p, sectionSize, s, s, a,
             Asdu(a.ca, a.ioa, a.nof,
                  Ack(a.body.nos, SectionRefusal(s, a),
                      if SectionRefusal(s, a) == NegAckFile then UnexpectedNameOfFile else UnexpectedNameOfSection)),
             Some(NoTransfer));
  }

  /** An acknowledged section is followed by the announcement of the next, or by the end of the file with its sum. */
  lemma SectionAcknowledged(p: ValidParams, sectionSize: nat, s: Snd, a: Asdu)
    requires sectionSize > 0 && s.active && a.body.Ack? && a.body.ack == PosAckSection
    ensures
      var t := s.(cur := s.cur + 1);
      SndHandle(p, sectionSize, s, a)
      == OneOut(p, t, if t.cur < |s.sections| then Announcement(t, t.cur)
                      else Asdu(s.ca, s.ioa, s.nof,
                                LastOf(|s.sections| % 256, LastOfFile, Sum(Flatten(s.sections)) % 256)), None)
  {
    hide SndHandle;
    var t := s.(cur := s.cur + 1);
    ChecksumOfSections(s.sections);
    OneOutIs(p, sectionSize, s, t, a,
             if t.cur < |s.sections| then Announcement(t, t.cur)
             else Asdu(s.ca, s.ioa, s.nof, LastOf(|s.sections| % 256, LastOfFile, Sum(Flatten(s.sections)) % 256)), None);
  }

  /** A file is announced exactly when it is there, its names fit, and its length, cut to 32 bits, fits three octets. */
  lemma OfferedExactlyWhen(p: ValidParams, s: Snd, ca: nat, ioa: nat, nof: nat)
    ensures
      var r := Offer(p, s, ca, ioa, nof);
      if (ioa, nof) !in s.store then r == Err(FileNotFound)
      else
        var length := |s.store[(ioa, nof)]| % 0x1_0000_0000;
        if 0 < ca <= 65535 && (p.commonAddrSize == 1 ==> ca < 255 || ca == 65535) && ioa < Capacity(p.infoObjAddrSize)
           && length < 0x100_0000
        then r == Ok(Asdu(ca, ioa, nof, FileReady(length, false))) else r == Err(SendRefused)
  {
    Capacities();
  }

  /** Everything else is answered with nothing and changes nothing. */
  lemma OthersIgnored(p: ValidParams, sectionSize: nat, s: Snd, a: Asdu)
    requires sectionSize > 0
    requires || (!a.body.Call? && !a.body.Ack?)
             || (a.body.Ack? && (!s.active || a.body.ack == OtherAck))
             || Calls(a, CallDirectory) || Calls(a, OtherCall)
    ensures
      SndHandle(p, sectionSize, s, a)
      == SndDone(s, [], if !a.body.Call? && !a.body.Ack? then Some(Unsupported)
                        else if a.body.Ack? && !s.active then Some(NoTransfer) else None)
  {
  }
}
