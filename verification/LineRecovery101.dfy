/** The receive loop of IEC 60870-5-101: what is still received after noise and damage on the line. */
module LineRecovery101 {
  import opened Octets
  import opened Ft12
  import opened Ft12Proofs

  /** After these the loop reads on; everything else ends the connection. */
  predicate Recoverable(e: FrameError) {
    e == ChecksumMismatch || e == InvalidStartChar || e == LengthMismatch || e == InvalidEndChar || e == FrameTooShort
    || e == FrameLenExceeded
  }

  /** The frames handed over from a line that ends after the given octets. */
  function Received(size: nat, s: Bytes): seq<Frame>
    decreases |s|
  {
    var p := Parse(size, s);
    match p.frame
    case Ok(f) => [f] + Received(size, s[p.used..])
    case Err(e) => if Recoverable(e) then Received(size, s[p.used..]) else []
  }

  lemma Progress(size: nat, s: Bytes)
    ensures var p := Parse(size, s); p.frame.Ok? || Recoverable(p.frame.error) ==> p.used > 0
  {
  }

  /** One frame or error read from a stream, and what is received of it then. */
  lemma OneRead(size: nat, stream: Bytes, pos: nat, next: nat, frame: Result<Frame, FrameError>)
    requires pos <= next <= |stream| && Parsed(frame, next - pos) == Parse(size, stream[pos..])
    ensures frame.Ok? || Recoverable(frame.error) ==> pos < next
    ensures Received(size, stream[pos..])
            == match frame
               case Ok(f) => [f] + Received(size, stream[next..])
               case Err(e) => if Recoverable(e) then Received(size, stream[next..]) else []
  {
    hide Parse, Recoverable;
    Progress(size, stream[pos..]);
    assert stream[pos..][next - pos..] == stream[next..];
  }

  /** frameRecvLoop */
  method RecvLoop(size: nat, line: Reader) returns (frames: seq<Frame>)
    requires line.Valid()
    modifies line
    ensures frames == Received(size, old(line.stream[line.pos..]))
  {
    hide Received, Parse;
    frames := [];
    ghost var all := Received(size, line.stream[line.pos..]);
    while true
      invariant line.Valid()
      invariant frames + Received(size, line.stream[line.pos..]) == all
      decreases |line.stream| - line.pos
    {
      ghost var before := line.pos;
      var frame := line.ParseFrame(size);
      OneRead(size, line.stream, before, line.pos, frame);
      match frame {
        case Err(e) =>
          if !Recoverable(e) {
            return;
          }
        case Ok(f) =>
          Assoc(frames, [f], Received(size, line.stream[line.pos..]));
          frames := frames + [f];
      }
    }
  }

  predicate StartsFrame(b: Octet) {
    b == SINGLE_CHAR_ACK || b == START_FIXED || b == START_VARIABLE
  }

  /** Octets that start no frame are skipped one by one. */
  lemma {:induction false} NoiseSkipped(size: nat, noise: Bytes, s: Bytes)
    requires size <= 2 && forall i :: 0 <= i < |noise| ==> !StartsFrame(noise[i])
    ensures Received(size, noise + s) == Received(size, s)
  {
    if noise == [] {
      assert noise + s == s;
    } else {
      NoiseSkipped(size, noise[1..], s);
      assert !StartsFrame((noise + s)[0]) && (noise + s)[1..] == noise[1..] + s;
    }
  }

  /** What was sent undamaged is received, in order, and then whatever the rest of the line holds. */
  lemma {:induction false} FramesReceived(size: nat, fs: seq<Frame>, s: Bytes)
    requires size <= 2 && forall i :: 0 <= i < |fs| ==> Wire(size, fs[i]).Ok?
    ensures Received(size, WireAll(size, fs) + s) == fs + Received(size, s)
  {
    hide Parse;
    if fs == [] {
      assert WireAll(size, fs) + s == s;
    } else {
      var b, rest := Wire(size, fs[0]).value, WireAll(size, fs[1..]);
      ParseWire(size, fs[0], rest + s);
      Assoc(b, rest, s);
      assert (b + (rest + s))[|b|..] == rest + s;
      FramesReceived(size, fs[1..], s);
      Assoc([fs[0]], fs[1..], Received(size, s));
      assert fs == [fs[0]] + fs[1..];
    }
  }

  /** A frame one octet of which was changed, other than a start character and the length octets. */
  predicate Damaged(size: nat, f: Frame, p: nat, x: Octet) {
    && !f.SingleChar? && Wire(size, f).Ok?
    && (if f.Fixed? then 1 else 4) <= p < |Wire(size, f).value| && x != Wire(size, f).value[p]
  }

  lemma DamagedParses(size: nat, f: Frame, p: nat, x: Octet, s: Bytes)
    requires Damaged(size, f, p, x)
    ensures
      var b, r := Wire(size, f).value, Parse(size, Wire(size, f).value[p := x] + s);
      r.used == |b| && r.frame.Err? && Recoverable(r.frame.error)
  {
    match f
    case Fixed(control, linkAddr) => FixedDamageDetected(size, control, linkAddr, p, x, s);
    case Variable(control, linkAddr, asdu) => VariableDamageDetectedExactlyWhen(size, control, linkAddr, asdu, p, x, s);
  }

  /**
   * Such a frame is lost and nothing else: all frames before and after it, whatever noise stands between, are
   * received as they were sent.
   */
  lemma OneFrameLost(size: nat, before: seq<Frame>, f: Frame, p: nat, x: Octet, noise: Bytes, after: seq<Frame>)
    requires size <= 2 && Damaged(size, f, p, x) && forall i :: 0 <= i < |noise| ==> !StartsFrame(noise[i])
    requires forall i :: 0 <= i < |before| ==> Wire(size, before[i]).Ok?
    requires forall i :: 0 <= i < |after| ==> Wire(size, after[i]).Ok?
    ensures
      Received(size, WireAll(size, before) + (Wire(size, f).value[p := x] + (noise + WireAll(size, after))))
      == before + after
  {
    hide Parse;
    var b, tail := Wire(size, f).value[p := x], noise + WireAll(size, after);
    FramesReceived(size, before, b + tail);
    DamagedParses(size, f, p, x, tail);
    assert (b + tail)[|b|..] == tail;
    NoiseSkipped(size, noise, WireAll(size, after));
    FramesReceived(size, after, []);
    assert WireAll(size, after) + [] == WireAll(size, after);
    NothingReceived(size);
  }

  /** A frame that has not arrived whole is not taken for anything else, however much of it is there. */
  lemma PartReadsAsNothing(size: nat, f: Frame, k: nat)
    requires Wire(size, f).Ok? && size <= 2 && k < |Wire(size, f).value|
    ensures Parse(size, Wire(size, f).value[..k]) == Parsed(Err(ReadFailed), k)
    ensures Received(size, Wire(size, f).value[..k]) == []
  {
  }

  /** A length octet too small for the control octet and the address is refused with the header. */
  lemma ShortLengthRefused(size: nat, length: Octet, start2: Octet, control: Octet, s: Bytes)
    requires size <= 2 && length < 1 + size
    ensures Parse(size, [START_VARIABLE, length, length, start2, control] + s) == Parsed(Err(FrameTooShort), 5)
    ensures Received(size, [START_VARIABLE, length, length, start2, control] + s) == Received(size, s)
  {
    var b := [START_VARIABLE, length, length, start2, control];
    assert (b + s)[5..] == s;
  }

  lemma NothingReceived(size: nat)
    ensures Received(size, []) == []
  {
  }

  /** A damaged length octet is noticed too, but reading goes on at the sixth octet of the damaged frame. */
  lemma LengthDamageResumes(size: nat, control: Octet, linkAddr: Bytes, asdu: Bytes, p: nat, x: Octet, s: Bytes)
    requires 1 <= p <= 2 && Wire(size, Variable(control, linkAddr, asdu)).Ok?
    requires x != Wire(size, Variable(control, linkAddr, asdu)).value[p]
    ensures
      var b := Wire(size, Variable(control, linkAddr, asdu)).value;
      Received(size, b[p := x] + s) == Received(size, b[5..] + s)
  {
    hide Parse;
    var b := Wire(size, Variable(control, linkAddr, asdu)).value;
    VariableDamageDetectedExactlyWhen(size, control, linkAddr, asdu, p, x, s);
    assert (b[p := x] + s)[5..] == b[5..] + s;
  }

  /**
   * So octets inside the ASDU can be taken for a frame that nobody sent: here an acknowledgement of station 1, out
   * of a data frame of which the second length octet was changed.
   */
  lemma LengthDamageInvents()
    ensures
      var asdu := FixedOctets(0, [1]);
      var sent := Variable(8, [1], asdu);
      && Wire(1, sent).Ok?
      && Received(1, Wire(1, sent).value[2 := 0]) == [Fixed(0, [1])]
  {
    hide Received, Parse, Checksum;
    var inner := FixedOctets(0, [1]);
    var b := VariableOctets(7, 8, [1], inner);
    var tail := [Checksum(8, [1], inner), END_CHAR];
    LengthDamageResumes(1, 8, [1], inner, 2, 0, []);
    assert b[5..] + [] == [1] + (inner + tail) && b[2 := 0] + [] == b[2 := 0];
    NoiseSkipped(1, [1], inner + tail);
    FrameThenNoise(inner, Fixed(0, [1]), tail);
  }

  lemma FrameThenNoise(b: Bytes, f: Frame, tail: Bytes)
    requires Wire(1, f) == Ok(b) && f == Fixed(0, [1]) && tail == [Checksum(8, [1], b), END_CHAR]
    ensures Received(1, b + tail) == [f]
  {
    hide Parse;
    ParseWire(1, f, tail);
    assert (b + tail)[|b|..] == tail && b == FixedOctets(0, [1]);
    Sums();
    NoiseSkipped(1, tail, []);
    assert tail + [] == tail;
    NothingReceived(1);
  }

  lemma Sums()
    ensures Checksum(0, [1], []) == 1 && Checksum(8, [1], FixedOctets(0, [1])) == 0x31
  {
    assert Sum([1]) == 1 + Sum([1][1..]) && Sum([]) == 0;
    var b := FixedOctets(0, [1]);
    assert b == [0x10, 0, 1, 1, 0x16];
    assert b[1..] == [0, 1, 1, 0x16] && b[1..][1..] == [1, 1, 0x16] && b[1..][1..][1..] == [1, 0x16];
    assert [1, 0x16][1..] == [0x16] && [0x16][1..] == [];
    assert Sum([0x16]) == 0x16 && Sum([1, 0x16]) == 0x17 && Sum([1, 1, 0x16]) == 0x18 && Sum([0, 1, 1, 0x16]) == 0x18;
    assert Sum(b) == 0x28;
  }
}
