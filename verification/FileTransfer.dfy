/**
 * File transfer in the monitor direction, section 7.4.11 of IEC 60870-5-101: what the Sender and the
 * Receiver do with one ASDU, as functions of their state.
 */
module FileTransfer {
  import opened AsduParams
  import opened Octets

  const LENGTH_OF_FILE_MAX := 0xFF_FFFF

  datatype CallAction =
    | CallDirectory | SelectFile | RequestFile | DeactivateFile | DeleteFile
    | SelectSection | RequestSection | DeactivateSection | OtherCall

  datatype AckAction = PosAckFile | NegAckFile | PosAckSection | NegAckSection | OtherAck

  datatype FileError = NoFileError | ChecksumFailed | UnexpectedNameOfFile | UnexpectedNameOfSection

  /** With or without deactivation makes no difference to the Receiver. */
  datatype LastQualifier = LastOfFile | LastOfSection | OtherLast

  datatype Body =
    | FileReady(length: nat, negative: bool)
    | SectionReady(nos: Octet, sectionLength: nat, notReady: bool)
    | Segment(nos: Octet, data: Bytes)
    | LastOf(nos: Octet, lsq: LastQualifier, chs: Octet)
    | Call(nos: Octet, call: CallAction)
    | Ack(nos: Octet, ack: AckAction, error: FileError)

  /** A file transfer ASDU: common address, information object address, name of file, and the rest. */
  datatype Asdu = Asdu(ca: nat, ioa: nat, nof: nat, body: Body)

  datatype Failure = NoTransfer | Busy | FileNotFound | Unsupported | BadChecksum | SendRefused | IndexOutOfRange

  type Files = map<(nat, nat), Bytes>

  // ---- pieces and checksums ----

  /** Consecutive pieces of n octets, the last one possibly shorter. */
  function Cut(data: Bytes, n: nat): seq<Bytes>
    requires n > 0
  {
    if data == [] then [] else if |data| <= n then [data] else [data[..n]] + Cut(data[n..], n)
  }

  /** An empty file is one empty section. */
  function SplitSections(data: Bytes, sectionSize: nat): seq<Bytes>
    requires sectionSize > 0
  {
    if data == [] then [[]] else Cut(data, sectionSize)
  }

  function Checksum(b: Bytes): Octet {
    Low(Sum(b))
  }

  /** Go's uint32(n). */
  function Uint32(n: nat): nat {
    n % 0x1_0000_0000
  }

  /** Running checksum over the sections, as the Sender adds it up. */
  function ChecksumOver(sections: seq<Bytes>): Octet {
    if sections == [] then 0
    else Low(ChecksumOver(sections[..|sections| - 1]) + Checksum(sections[|sections| - 1]))
  }

  // ---- sending ----

  /** What the encoders and MarshalBinary let through. */
  predicate Sendable(p: Params, a: Asdu) {
    && CommonAddrFits(p, a.ca) && InfoObjAddrFits(p, a.ioa)
    && (a.body.FileReady? ==> a.body.length <= LENGTH_OF_FILE_MAX)
    && (a.body.SectionReady? ==> a.body.sectionLength <= LENGTH_OF_FILE_MAX)
    && (a.body.Segment? ==> |a.body.data| <= MaxSegmentSize(p))
  }

  /** How many ASDUs go out before the first refusal. */
  function SentBefore(p: Params, acts: seq<Asdu>): (n: nat)
    ensures n <= |acts| && (n < |acts| ==> !Sendable(p, acts[n])) && forall i :: 0 <= i < n ==> Sendable(p, acts[i])
  {
    if acts == [] || !Sendable(p, acts[0]) then 0 else 1 + SentBefore(p, acts[1..])
  }

  // ---- sender ----

  datatype Snd = Snd(
    store: Files, active: bool, ca: nat, ioa: nat, nof: nat, sections: seq<Bytes>, cur: nat)

  datatype SndDone = SndDone(st: Snd, acts: seq<Asdu>, err: Option<Failure>)

  function SndReset(s: Snd): Snd {
    s.(active := false, sections := [], cur := 0, ioa := 0, nof := 0)
  }

  /** Makes the file the current transfer. */
  function Load(sectionSize: nat, s: Snd, a: Asdu): Snd
    requires sectionSize > 0 && (a.ioa, a.nof) in s.store
  {
    s.(active := true, ca := a.ca, ioa := a.ioa, nof := a.nof,
       sections := SplitSections(s.store[(a.ioa, a.nof)], sectionSize), cur := 0)
  }

  function OfferSection(s: Snd): Asdu
    requires s.cur < |s.sections|
  {
    Asdu(s.ca, s.ioa, s.nof, SectionReady(Low(s.cur + 1), Uint32(|s.sections[s.cur]|), false))
  }

  /** The section as segments, then its checksum. */
  function SectionData(p: ValidParams, s: Snd): seq<Asdu>
    requires s.cur < |s.sections|
  {
    var nos, section := Low(s.cur + 1), s.sections[s.cur];
    SegmentAsdus(s, nos, Cut(section, MaxSegmentSize(p)))
    + [Asdu(s.ca, s.ioa, s.nof, LastOf(nos, LastOfSection, Checksum(section)))]
  }

  function SegmentAsdus(s: Snd, nos: Octet, pieces: seq<Bytes>): (r: seq<Asdu>)
    ensures |r| == |pieces| && forall i :: 0 <= i < |r| ==> r[i] == Asdu(s.ca, s.ioa, s.nof, Segment(nos, pieces[i]))
  {
    seq(|pieces|, i requires 0 <= i < |pieces| => Asdu(s.ca, s.ioa, s.nof, Segment(nos, pieces[i])))
  }

  function CloseFile(s: Snd): Asdu {
    Asdu(s.ca, s.ioa, s.nof, LastOf(Low(|s.sections|), LastOfFile, ChecksumOver(s.sections)))
  }

  function RefuseFile(s: Snd, a: Asdu, nos: Octet, why: Failure): SndDone {
    SndDone(s, [Asdu(a.ca, a.ioa, a.nof, Ack(nos, NegAckFile, UnexpectedNameOfFile))], Some(why))
  }

  function RefuseSection(s: Snd, a: Asdu, nos: Octet): SndDone {
    SndDone(s, [Asdu(a.ca, a.ioa, a.nof, Ack(nos, NegAckSection, UnexpectedNameOfSection))], Some(NoTransfer))
  }

  /** sectionDataActions; the index panics past the last section. */
  function Serve(p: ValidParams, s: Snd): SndDone {
    if s.cur < |s.sections| then SndDone(s, SectionData(p, s), None) else SndDone(s, [], Some(IndexOutOfRange))
  }

  /** sectionReadyActions */
  function Announce(s: Snd): SndDone {
    if s.cur < |s.sections| then SndDone(s, [OfferSection(s)], None) else SndDone(s, [], Some(IndexOutOfRange))
  }

  function OnCall(p: ValidParams, sectionSize: nat, s: Snd, a: Asdu): SndDone
    requires sectionSize > 0 && a.body.Call?
  {
    var nos := a.body.nos;
    match a.body.call
    case SelectFile =>
      if (a.ioa, a.nof) !in s.store then RefuseFile(s, a, nos, FileNotFound)
      else
        SndDone(Load(sectionSize, s, a),
                [Asdu(a.ca, a.ioa, a.nof, FileReady(Uint32(|s.store[(a.ioa, a.nof)]|), false))], None)
    case RequestFile =>
      if s.active && s.ioa == a.ioa && s.nof == a.nof then Announce(s.(cur := 0))
      else if (a.ioa, a.nof) !in s.store then RefuseFile(s, a, nos, FileNotFound)
      else Announce(Load(sectionSize, s, a))
    case SelectSection =>
      if !s.active || a.nof != s.nof then RefuseFile(s, a, nos, NoTransfer)
      else if nos == 0 || nos > |s.sections| then RefuseSection(s, a, nos)
      else Announce(s.(cur := nos - 1))
    case RequestSection =>
      if !s.active || a.nof != s.nof then RefuseFile(s, a, nos, NoTransfer)
      else if nos == 0 then Serve(p, s)
      else if nos > |s.sections| then RefuseSection(s, a, nos)
      else Serve(p, s.(cur := nos - 1))
    case DeactivateFile | DeactivateSection => SndDone(SndReset(s), [], None)
    case DeleteFile =>
      if (a.ioa, a.nof) !in s.store then RefuseFile(s, a, nos, FileNotFound)
      else
        var t := s.(store := s.store - {(a.ioa, a.nof)});
        SndDone(if s.active && s.ioa == a.ioa && s.nof == a.nof then SndReset(t) else t, [], None)
    case _ => SndDone(s, [], None)
  }

  function OnAck(p: ValidParams, s: Snd, a: Asdu): SndDone
    requires a.body.Ack?
  {
    if !s.active then SndDone(s, [], Some(NoTransfer))
    else
      match a.body.ack
      case PosAckSection =>
        var t := s.(cur := s.cur + 1);
        if t.cur < |t.sections| then Announce(t) else SndDone(t, [CloseFile(t)], None)
      case NegAckSection => Serve(p, s)
      case PosAckFile | NegAckFile => SndDone(SndReset(s), [], None)
      case OtherAck => SndDone(s, [], None)
  }

  function SndStep(p: ValidParams, sectionSize: nat, s: Snd, a: Asdu): SndDone
    requires sectionSize > 0
  {
    if a.body.Call? then OnCall(p, sectionSize, s, a)
    else if a.body.Ack? then OnAck(p, s, a)
    else SndDone(s, [], Some(Unsupported))
  }

  /** Handle: a refused ASDU aborts the transfer and silences what should have followed. */
  function SndHandle(p: ValidParams, sectionSize: nat, s: Snd, a: Asdu): SndDone
    requires sectionSize > 0
  {
    var d := SndStep(p, sectionSize, s, a);
    var n := SentBefore(p, d.acts);
    if n < |d.acts| then SndDone(SndReset(d.st), d.acts[..n], Some(SendRefused)) else d
  }

  /** Offer: announces a file; the state does not change. */
  function Offer(p: ValidParams, s: Snd, ca: nat, ioa: nat, nof: nat): Result<Asdu, Failure> {
    if (ioa, nof) !in s.store then Err(FileNotFound)
    else
      var a := Asdu(ca, ioa, nof, FileReady(Uint32(|s.store[(ioa, nof)]|), false));
      if Sendable(p, a) then Ok(a) else Err(SendRefused)
  }

  // ---- receiver ----

  datatype Rcv = Rcv(
    store: Files, autoAccept: bool, active: bool, ca: nat, ioa: nat, nof: nat, nos: Octet, called: bool,
    sectionBuf: Bytes, fileBuf: Bytes)

  datatype File = File(ioa: nat, nof: nat, data: Bytes)

  datatype RcvDone = RcvDone(st: Rcv, acts: seq<Asdu>, done: Option<File>, err: Option<Failure>)

  function RcvReset(r: Rcv): Rcv {
    r.(active := false, called := false, sectionBuf := [], fileBuf := [], nos := 0, ioa := 0, nof := 0)
  }

  function Mine(r: Rcv, body: Body): Asdu {
    Asdu(r.ca, r.ioa, r.nof, body)
  }

  function Begin(r: Rcv, ca: nat, ioa: nat, nof: nat): Rcv {
    r.(active := true, ca := ca, ioa := ioa, nof := nof, nos := 0, sectionBuf := [], fileBuf := [])
  }

  function OnFileReady(r: Rcv, a: Asdu): RcvDone
    requires a.body.FileReady?
  {
    if a.body.negative then RcvDone(RcvReset(r), [], None, Some(FileNotFound))
    else if r.active then
      if r.called || a.ioa != r.ioa || a.nof != r.nof then RcvDone(r, [], None, None)
      else RcvDone(r.(called := true), [Mine(r, Call(0, RequestFile))], None, None)
    else if !r.autoAccept then RcvDone(r, [], None, None)
    else
      var t := Begin(r, a.ca, a.ioa, a.nof);
      RcvDone(t, [Mine(t, Call(0, SelectFile))], None, None)
  }

  function OnSectionReady(r: Rcv, a: Asdu): RcvDone
    requires a.body.SectionReady?
  {
    if !r.active || a.nof != r.nof then RcvDone(r, [], None, Some(NoTransfer))
    else if a.body.notReady then RcvDone(RcvReset(r), [], None, Some(NoTransfer))
    else
      RcvDone(r.(nos := a.body.nos, sectionBuf := []), [Mine(r, Call(a.body.nos, RequestSection))], None, None)
  }

  function OnLast(r: Rcv, a: Asdu): RcvDone
    requires a.body.LastOf?
  {
    if !r.active || a.nof != r.nof then RcvDone(r, [], None, Some(NoTransfer))
    else
      match a.body.lsq
      case LastOfSection =>
        if Checksum(r.sectionBuf) != a.body.chs then
          RcvDone(r.(sectionBuf := []), [Mine(r, Ack(r.nos, NegAckSection, ChecksumFailed))], None, Some(BadChecksum))
        else
          RcvDone(r.(fileBuf := r.fileBuf + r.sectionBuf, sectionBuf := []),
                  [Mine(r, Ack(r.nos, PosAckSection, NoFileError))], None, None)
      case LastOfFile =>
        if Checksum(r.fileBuf) != a.body.chs then
          RcvDone(RcvReset(r), [Mine(r, Ack(a.body.nos, NegAckFile, ChecksumFailed))], None, Some(BadChecksum))
        else
          RcvDone(RcvReset(r), [Mine(r, Ack(a.body.nos, PosAckFile, NoFileError))], Some(File(r.ioa, r.nof,
              r.fileBuf)), None)
      case OtherLast => RcvDone(r, [], None, None)
  }

  function RcvStep(r: Rcv, a: Asdu): RcvDone {
    match a.body
    case FileReady(_, _) => OnFileReady(r, a)
    case SectionReady(_, _, _) => OnSectionReady(r, a)
    case Segment(nos, data) =>
      if !r.active || a.nof != r.nof || nos != r.nos then RcvDone(r, [], None, Some(NoTransfer))
      else RcvDone(r.(sectionBuf := r.sectionBuf + data), [], None, None)
    case LastOf(_, _, _) => OnLast(r, a)
    case _ => RcvDone(r, [], None, Some(Unsupported))
  }

  /** Handle: a finished file is stored and delivered whether or not its acknowledgement could be sent. */
  function RcvHandle(p: ValidParams, r: Rcv, a: Asdu): RcvDone {
    var d := RcvStep(r, a);
    var kept := if d.done.Some? then d.st.(store := d.st.store[(d.done.value.ioa,
        d.done.value.nof) := d.done.value.data]) else d.st;
    var n := SentBefore(p, d.acts);
    if n < |d.acts| then RcvDone(RcvReset(kept), d.acts[..n], d.done, Some(SendRefused)) else d.(st := kept)
  }

  /** The user asks for a file. */
  function RequestFileOf(p: ValidParams, r: Rcv, ca: nat, ioa: nat, nof: nat): RcvDone {
    if r.active then RcvDone(r, [], None, Some(Busy))
    else
      var t := Begin(r, ca, ioa, nof);
      var a := Mine(t, Call(0, SelectFile));
      if Sendable(p, a) then RcvDone(t, [a], None, None) else RcvDone(RcvReset(t), [], None, Some(SendRefused))
  }
}
