/** The Sender and the Receiver of a file as the program runs them: fields updated in place, loops over octets. */
module FileStations {
  import opened AsduParams
  import opened Octets
  import opened FileTransfer

  lemma LowOfLow(a: nat, b: nat)
    ensures Low(Low(a) + b) == Low(a + b)
  {
  }

  /** The sum wraps at every octet. */
  method FileChecksum(b: Bytes) returns (sum: Octet)
    ensures sum == Checksum(b)
  {
    sum := 0;
    for i := 0 to |b|
      invariant sum == Checksum(b[..i])
    {
      assert b[..i + 1] == b[..i] + [b[i]];
      SumAppend(b[..i], [b[i]]);
      assert Sum([b[i]]) == b[i];
      LowOfLow(Sum(b[..i]), b[i]);
      sum := Low(sum + b[i]);
    }
    assert b[..|b|] == b;
  }

  /** The loop that cuts a section into segments, and a file into sections. */
  method CutLoop(data: Bytes, n: nat) returns (out: seq<Bytes>)
    requires n > 0
    ensures out == Cut(data, n)
  {
    out := [];
    var off := 0;
    while off < |data|
      invariant off <= |data| || out == Cut(data, n)
      invariant off <= |data| ==> out + Cut(data[off..], n) == Cut(data, n)
      decreases |data| - off
    {
      var end := off + n;
      if end > |data| {
        end := |data|;
      }
      CutUnfolds(data, n, off, end);
      Assoc(out, [data[off..end]], if off + n <= |data| then Cut(data[off + n..], n) else []);
      out := out + [data[off..end]];
      off := off + n;
    }
    if off == |data| {
      assert data[off..] == [];
      assert out + [] == out;
    }
  }

  /** The first piece of what is left, and the rest. */
  lemma CutUnfolds(data: Bytes, n: nat, off: nat, end: nat)
    requires n > 0 && off < |data| && end == (if off + n > |data| then |data| else off + n)
    ensures Cut(data[off..], n) == [data[off..end]] + if off + n <= |data| then Cut(data[off + n..], n) else []
  {
    var rest := data[off..];
    assert data[off..end] == if |rest| <= n then rest else rest[..n];
    if off + n <= |data| {
      assert data[off + n..] == rest[n..];
    }
  }

  method SplitIntoSections(data: Bytes, sectionSize: nat) returns (out: seq<Bytes>)
    requires sectionSize > 0
    ensures out == SplitSections(data, sectionSize)
  {
    if |data| == 0 {
      return [[]];
    }
    out := CutLoop(data, sectionSize);
  }

  class Sender {
    const params: ValidParams
    var sectionSize: nat
    var store: Files
    var active: bool
    var ca: nat
    var ioa: nat
    var nof: nat
    var sections: seq<Bytes>
    var cur: nat
    var sent: seq<Asdu>

    ghost function St(): Snd
      reads this
    {
      Snd(store, active, ca, ioa, nof, sections, cur)
    }

    ghost predicate Valid()
      reads this
    {
      sectionSize > 0
    }

    /** A step taken under the lock: the new state and what it wants to send. */
    twostate predicate Stepped(new d: SndDone, new acts: seq<Asdu>, new err: Option<Failure>)
      reads this
    {
      St() == d.st && acts == d.acts && err == d.err && sent == old(sent) && sectionSize == old(sectionSize)
    }

    constructor (params: ValidParams, store: Files)
      ensures this.params == params && Valid() && sectionSize == 4096
      ensures St() == Snd(store, false, 0, 0, 0, [], 0) && sent == []
    {
      this.params, this.store, sectionSize := params, store, 4096;
      active, ca, ioa, nof, sections, cur, sent := false, 0, 0, 0, [], 0, [];
    }

    method SetSectionSize(n: int)
      requires Valid()
      modifies this`sectionSize
      ensures Valid() && sectionSize == if n > 0 then n else old(sectionSize)
    {
      if n > 0 {
        sectionSize := n;
      }
    }

    method Reset()
      modifies this`active, this`sections, this`cur, this`ioa, this`nof
      ensures St() == SndReset(old(St()))
    {
      active, sections, cur, ioa, nof := false, [], 0, 0, 0;
    }

    method LoadFile(a: Asdu) returns (ok: bool)
      requires Valid()
      modifies this`active, this`sections, this`cur, this`ca, this`ioa, this`nof
      ensures ok == ((a.ioa, a.nof) in store)
      ensures St() == if ok then Load(sectionSize, old(St()), a) else old(St())
    {
      if (a.ioa, a.nof) !in store {
        return false;
      }
      active := true;
      ca, ioa, nof := a.ca, a.ioa, a.nof;
      sections := SplitIntoSections(store[(a.ioa, a.nof)], sectionSize);
      cur := 0;
      return true;
    }

    method SectionReadyActions() returns (acts: seq<Asdu>, err: Option<Failure>)
      ensures SndDone(St(), acts, err) == Announce(St())
    {
      if cur >= |sections| {
        return [], Some(IndexOutOfRange);
      }
      return [Asdu(ca, ioa, nof, SectionReady(Low(cur + 1), Uint32(|sections[cur]|), false))], None;
    }

    method SectionDataActions() returns (acts: seq<Asdu>, err: Option<Failure>)
      ensures SndDone(St(), acts, err) == Serve(params, St())
    {
      if cur >= |sections| {
        return [], Some(IndexOutOfRange);
      }
      var nos := Low(cur + 1);
      var chs := FileChecksum(sections[cur]);
      var pieces := CutLoop(sections[cur], MaxSegmentSize(params));
      acts := [];
      for i := 0 to |pieces|
        invariant acts == SegmentAsdus(St(), nos, pieces[..i])
      {
        acts := acts + [Asdu(ca, ioa, nof, Segment(nos, pieces[i]))];
        assert pieces[..i + 1] == pieces[..i] + [pieces[i]];
      }
      assert pieces[..|pieces|] == pieces;
      acts := acts + [Asdu(ca, ioa, nof, LastOf(nos, LastOfSection, chs))];
      err := None;
    }

    method LastSectionActions() returns (acts: seq<Asdu>)
      ensures acts == [CloseFile(St())]
    {
      var chs: Octet := 0;
      for i := 0 to |sections|
        invariant chs == ChecksumOver(sections[..i])
      {
        var c := FileChecksum(sections[i]);
        assert sections[..i + 1][..i] == sections[..i];
        chs := Low(chs + c);
      }
      assert sections[..|sections|] == sections;
      acts := [Asdu(ca, ioa, nof, LastOf(Low(|sections|), LastOfFile, chs))];
    }

    method OnCallOrSelect(a: Asdu) returns (acts: seq<Asdu>, err: Option<Failure>)
      requires Valid() && a.body.Call?
      modifies this
      ensures Stepped(OnCall(params, old(sectionSize), old(St()), a), acts, err)
    {
      acts, err := [], None;
      var nos := a.body.nos;
      var noFile := Asdu(a.ca, a.ioa, a.nof, Ack(nos, NegAckFile, UnexpectedNameOfFile));
      match a.body.call {
        case SelectFile =>
          var ok := LoadFile(a);
          if !ok {
            return [noFile], Some(FileNotFound);
          }
          acts := [Asdu(a.ca, a.ioa, a.nof, FileReady(Uint32(|store[(a.ioa, a.nof)]|), false))];
        case RequestFile =>
          if !active || ioa != a.ioa || nof != a.nof {
            var ok := LoadFile(a);
            if !ok {
              return [noFile], Some(FileNotFound);
            }
          }
          cur := 0;
          acts, err := SectionReadyActions();
        case SelectSection =>
          if !active || a.nof != nof {
            return [noFile], Some(NoTransfer);
          }
          if nos == 0 || nos > |sections| {
            return [Asdu(a.ca, a.ioa, a.nof, Ack(nos, NegAckSection, UnexpectedNameOfSection))], Some(NoTransfer);
          }
          cur := nos - 1;
          acts, err := SectionReadyActions();
        case RequestSection =>
          if !active || a.nof != nof {
            return [noFile], Some(NoTransfer);
          }
          if nos != 0 {
            if nos > |sections| {
              return [Asdu(a.ca, a.ioa, a.nof, Ack(nos, NegAckSection, UnexpectedNameOfSection))], Some(NoTransfer);
            }
            cur := nos - 1;
          }
          acts, err := SectionDataActions();
        case DeactivateFile => Reset();
        case DeactivateSection => Reset();
        case DeleteFile =>
          if (a.ioa, a.nof) !in store {
            return [noFile], Some(FileNotFound);
          }
          store := store - {(a.ioa, a.nof)};
          if active && ioa == a.ioa && nof == a.nof {
            Reset();
          }
        case _ =>
      }
    }

    method OnAcknowledge(a: Asdu) returns (acts: seq<Asdu>, err: Option<Failure>)
      requires Valid() && a.body.Ack?
      modifies this
      ensures Stepped(OnAck(params, old(St()), a), acts, err)
    {
      acts, err := [], None;
      if !active {
        return [], Some(NoTransfer);
      }
      match a.body.ack {
        case PosAckSection =>
          cur := cur + 1;
          if cur < |sections| {
            acts, err := SectionReadyActions();
          } else {
            acts := LastSectionActions();
          }
        case NegAckSection => acts, err := SectionDataActions();
        case PosAckFile => Reset();
        case NegAckFile => Reset();
        case OtherAck =>
      }
    }

    method Handle(a: Asdu) returns (err: Option<Failure>)
      requires Valid()
      modifies this
      ensures Valid()
      ensures var d := SndHandle(params, old(sectionSize), old(St()), a);
              St() == d.st && sent == old(sent) + d.acts && err == d.err
    {
      var acts: seq<Asdu>;
      if a.body.Call? {
        acts, err := OnCallOrSelect(a);
      } else if a.body.Ack? {
        acts, err := OnAcknowledge(a);
      } else {
        acts, err := [], Some(Unsupported);
      }
      var n := Transmit(acts);
      if n < |acts| {
        Reset();
        return Some(SendRefused);
      }
    }

    method Transmit(acts: seq<Asdu>) returns (n: nat)
      modifies this`sent
      ensures n == SentBefore(params, acts) && sent == old(sent) + acts[..n]
    {
      n := 0;
      while n < |acts| && Sendable(params, acts[n])
        invariant n <= SentBefore(params, acts) && sent == old(sent) + acts[..n]
      {
        sent := sent + [acts[n]];
        n := n + 1;
      }
    }
  }

  class Receiver {
    const params: ValidParams
    var store: Files
    var autoAccept: bool
    var active: bool
    var ca: nat
    var ioa: nat
    var nof: nat
    var nos: Octet
    var called: bool
    var sectionBuf: Bytes
    var fileBuf: Bytes
    var sent: seq<Asdu>
    var onFile: seq<File>

    ghost function St(): Rcv
      reads this
    {
      Rcv(store, autoAccept, active, ca, ioa, nof, nos, called, sectionBuf, fileBuf)
    }

    constructor (params: ValidParams, store: Files)
      ensures this.params == params && sent == [] && onFile == []
      ensures St() == Rcv(store, true, false, 0, 0, 0, 0, false, [], [])
    {
      this.params, this.store, autoAccept := params, store, true;
      active, ca, ioa, nof, nos, called, sectionBuf, fileBuf := false, 0, 0, 0, 0, false, [], [];
      sent, onFile := [], [];
    }

    method Reset()
      modifies this`active, this`called, this`sectionBuf, this`fileBuf, this`nos, this`ioa, this`nof
      ensures St() == RcvReset(old(St()))
    {
      active, called, sectionBuf, fileBuf, nos, ioa, nof := false, false, [], [], 0, 0, 0;
    }

    method RequestFile(ca: nat, ioa: nat, nof: nat) returns (err: Option<Failure>)
      modifies this
      ensures var d := RequestFileOf(params, old(St()), ca, ioa, nof);
              St() == d.st && sent == old(sent) + d.acts && err == d.err && onFile == old(onFile)
    {
      if active {
        return Some(Busy);
      }
      active := true;
      this.ca, this.ioa, this.nof := ca, ioa, nof;
      nos, sectionBuf, fileBuf := 0, [], [];
      assert St() == Begin(old(St()), ca, ioa, nof);
      var a := Asdu(ca, ioa, nof, Call(0, CallAction.SelectFile));
      if Sendable(params, a) {
        sent := sent + [a];
        return None;
      }
      Reset();
      return Some(SendRefused);
    }

    method OnLastSectionOrSegment(a: Asdu) returns (acts: seq<Asdu>, done: Option<File>, err: Option<Failure>)
      requires a.body.LastOf?
      modifies this`active, this`called, this`sectionBuf, this`fileBuf, this`nos, this`ioa, this`nof
      ensures RcvDone(St(), acts, done, err) == OnLast(old(St()), a)
    {
      acts, done, err := [], None, None;
      if !active || a.nof != nof {
        return [], None, Some(NoTransfer);
      }
      match a.body.lsq {
        case LastOfSection =>
          var chs := FileChecksum(sectionBuf);
          if chs != a.body.chs {
            sectionBuf := [];
            return [Asdu(ca, ioa, nof, Ack(nos, NegAckSection, ChecksumFailed))], None, Some(BadChecksum);
          }
          fileBuf := fileBuf + sectionBuf;
          sectionBuf := [];
          acts := [Asdu(ca, ioa, nof, Ack(nos, PosAckSection, NoFileError))];
        case LastOfFile =>
          var data, name := fileBuf, (ioa, nof);
          var chs := FileChecksum(data);
          Reset();
          if chs != a.body.chs {
            return [Asdu(ca, name.0, name.1, Ack(a.body.nos, NegAckFile, ChecksumFailed))], None, Some(BadChecksum);
          }
          acts := [Asdu(ca, name.0, name.1, Ack(a.body.nos, PosAckFile, NoFileError))];
          done := Some(File(name.0, name.1, data));
        case OtherLast =>
      }
    }

    method Step(a: Asdu) returns (acts: seq<Asdu>, done: Option<File>, err: Option<Failure>)
      modifies this
      ensures RcvDone(St(), acts, done, err) == RcvStep(old(St()), a) && sent == old(sent) && onFile == old(onFile)
    {
      acts, done, err := [], None, None;
      match a.body {
        case FileReady(_, negative) =>
          if negative {
            Reset();
            return [], None, Some(FileNotFound);
          }
          if active {
            if called || a.ioa != ioa || a.nof != nof {
              return [], None, None;
            }
            called := true;
            return [Asdu(ca, ioa, nof, Call(0, CallAction.RequestFile))], None, None;
          }
          if !autoAccept {
            return [], None, None;
          }
          active := true;
          ca, ioa, nof := a.ca, a.ioa, a.nof;
          nos, sectionBuf, fileBuf := 0, [], [];
          acts := [Asdu(ca, ioa, nof, Call(0, CallAction.SelectFile))];
        case SectionReady(ready, _, notReady) =>
          if !active || a.nof != nof {
            return [], None, Some(NoTransfer);
          }
          if notReady {
            Reset();
            return [], None, Some(NoTransfer);
          }
          nos, sectionBuf := ready, [];
          acts := [Asdu(ca, ioa, nof, Call(nos, CallAction.RequestSection))];
        case Segment(of, data) =>
          if !active || a.nof != nof || of != nos {
            return [], None, Some(NoTransfer);
          }
          sectionBuf := sectionBuf + data;
        case LastOf(_, _, _) => acts, done, err := OnLastSectionOrSegment(a);
        case _ => err := Some(Unsupported);
      }
    }

    method Transmit(acts: seq<Asdu>) returns (n: nat)
      modifies this`sent
      ensures n == SentBefore(params, acts) && sent == old(sent) + acts[..n]
    {
      n := 0;
      while n < |acts| && Sendable(params, acts[n])
        invariant n <= SentBefore(params, acts) && sent == old(sent) + acts[..n]
      {
        sent := sent + [acts[n]];
        n := n + 1;
      }
    }

    /** The acknowledgement goes out before a finished file is stored and delivered. */
    method Handle(a: Asdu) returns (err: Option<Failure>)
      modifies this
      ensures var d := RcvHandle(params, old(St()), a);
              && St() == d.st && sent == old(sent) + d.acts && err == d.err
              && onFile == old(onFile) + (if d.done.Some? then [d.done.value] else [])
    {
      var acts, done;
      acts, done, err := Step(a);
      var n := Transmit(acts);
      if n < |acts| {
        Reset();
        err := Some(SendRefused);
      }
      if done.Some? {
        store := store[(done.value.ioa, done.value.nof) := done.value.data];
        onFile := onFile + [done.value];
      }
    }
  }
}
