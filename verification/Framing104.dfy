/** The receive loop of IEC 60870-5-104: cutting a TCP octet stream into APDUs, with resynchronisation. */
module Framing104 {
  import opened Octets
  import opened Apci

  /** The size of the APDU a length octet announces. */
  function ApduLength(lengthOctet: nat): nat {
    lengthOctet + 2
  }

  predicate LegalLength(length: nat) {
    APCI_CTL_FIELD_SIZE + 2 <= length <= APDU_SIZE_MAX
  }

  /** An APDU as the framing layer knows it: 68H, a length octet that matches, 6 to 255 octets. */
  predicate WellFramed(a: Bytes) {
    LegalLength(|a|) && a[0] == START_FRAME && a[1] == |a| - 2
  }

  /** The APDUs delivered from a stream that ends after the given octets. */
  function RecvAll(stream: Bytes): (apdus: seq<Bytes>)
    decreases |stream|
  {
    if |stream| < 2 then []
    else if stream[0] != START_FRAME then
      RecvAll(if stream[1] == START_FRAME then stream[1..] else stream[2..])
    else
      var length := ApduLength(stream[1]);
      if !LegalLength(length) then RecvAll(stream[2..])
      else if |stream| < length then []
      else [stream[..length]] + RecvAll(stream[length..])
  }

  /** io.ReadFull(conn, rawData[from:to]) on a stream of which pos octets have been read. */
  method ReadFull(rawData: array<Octet>, from: nat, to: nat, stream: Bytes, pos: nat) returns (ok: bool)
    requires from <= to <= rawData.Length && pos <= |stream|
    modifies rawData
    ensures ok == (to - from <= |stream| - pos)
    ensures ok ==> rawData[..to] == old(rawData[..from]) + stream[pos..pos + (to - from)]
  {
    ok := to - from <= |stream| - pos;
    if ok {
      forall i | from <= i < to {
        rawData[i] := stream[pos + (i - from)];
      }
    }
  }

  /** What follows a buffer without a start character in front does not depend on its first octet, or first two. */
  lemma NotAStart(buffer: Bytes, tail: Bytes)
    requires |buffer| == 2 && buffer[0] != START_FRAME
    ensures RecvAll(buffer + tail) == RecvAll((if buffer[1] == START_FRAME then [START_FRAME] else []) + tail)
  {
    var rest := buffer + tail;
    assert rest[0] == buffer[0] && rest[1] == buffer[1];
    assert rest[1..] == [buffer[1]] + tail && rest[2..] == [] + tail;
  }

  lemma IllegalHeader(buffer: Bytes, tail: Bytes)
    requires |buffer| == 2 && buffer[0] == START_FRAME && !LegalLength(ApduLength(buffer[1]))
    ensures RecvAll(buffer + tail) == RecvAll([] + tail)
  {
    var rest := buffer + tail;
    assert rest[0] == buffer[0] && rest[1] == buffer[1] && rest[2..] == [] + tail;
  }

  /** What the loop does with the octets it has just read: keep them, resynchronise, or drop them. */
  method Examine(rawData: array<Octet>, cnt: nat, ghost tail: Bytes) returns (rdCnt: nat, length: nat)
    requires 2 <= cnt <= rawData.Length == APDU_SIZE_MAX && (cnt > 2 ==> Buffered(rawData[..cnt], cnt))
    modifies rawData
    ensures rdCnt <= cnt && rdCnt <= length <= APDU_SIZE_MAX && Buffered(rawData[..rdCnt], length)
    ensures RecvAll(rawData[..rdCnt] + tail) == RecvAll(old(rawData[..cnt]) + tail)
    ensures rdCnt == length ==> rdCnt == cnt && rawData[..cnt] == old(rawData[..cnt])
  {
    rdCnt := cnt;
    ghost var buffer := rawData[..cnt];
    if rawData[0] != START_FRAME {
      NotAStart(buffer, tail);
      if rawData[1] == START_FRAME {
        rawData[0] := START_FRAME;
        rdCnt, length := 1, 2;
        assert rawData[..1] == [START_FRAME];
      } else {
        rdCnt, length := 0, 2;
        assert rawData[..0] == [];
      }
    } else {
      length := ApduLength(rawData[1]);
      if !LegalLength(length) {
        IllegalHeader(buffer, tail);
        rdCnt, length := 0, 2;
        assert rawData[..0] == [];
      }
    }
  }

  /** A complete buffer is the next APDU. */
  lemma CompleteApdu(buffer: Bytes, tail: Bytes)
    requires 2 <= |buffer| && Buffered(buffer, |buffer|)
    ensures RecvAll(buffer + tail) == [buffer] + RecvAll(tail)
  {
    var rest := buffer + tail;
    assert rest[0] == buffer[0] && rest[1] == buffer[1];
    assert rest[..|buffer|] == buffer && rest[|buffer|..] == tail;
  }

  /** Reading on moves octets from the stream to the buffer. */
  lemma ReadOn(read: Bytes, stream: Bytes, pos: nat, n: nat)
    requires pos + n <= |stream|
    ensures (read + stream[pos..pos + n]) + stream[pos + n..] == read + stream[pos..]
  {
    assert stream[pos..] == stream[pos..pos + n] + stream[pos + n..];
  }

  /** What is in the buffer and what is still to come deliver the given APDUs. */
  ghost predicate Delivers(read: Bytes, tail: Bytes, apdus: seq<Bytes>) {
    RecvAll(read + tail) == apdus
  }

  /** One turn of the inner loop: read up to the length, then look at what was read. */
  method Turn(rawData: array<Octet>, cnt: nat, len: nat, stream: Bytes, pos: nat, ghost apdus: seq<Bytes>)
      returns (ok: bool, rdCnt: nat, length: nat)
    requires cnt < len <= rawData.Length == APDU_SIZE_MAX && pos <= |stream|
    requires Buffered(rawData[..cnt], len) && Delivers(rawData[..cnt], stream[pos..], apdus)
    modifies rawData
    ensures !ok ==> apdus == []
    ensures ok ==>
              && pos + (len - cnt) <= |stream| && rdCnt <= length <= APDU_SIZE_MAX
              && Buffered(rawData[..rdCnt], length)
              && Delivers(rawData[..rdCnt], stream[pos + (len - cnt)..], apdus)
  {
    ghost var read := rawData[..cnt];
    rdCnt, length := cnt, len;
    ok := ReadFull(rawData, cnt, len, stream, pos);
    if !ok {
      ReadEnded(read, len, stream[pos..]);
      return;
    }
    ReadOn(read, stream, pos, len - cnt);
    StillBuffered(read, len, rawData[..len]);
    rdCnt, length := Examine(rawData, len, stream[pos + (len - cnt)..]);
  }

  /**
   * The inner loop of recvLoop: fills rawData in place until it holds one APDU. A start character
   * seen in the second position is kept, an illegal length drops the two octets read, and when the
   * stream ends (io.EOF or io.ErrUnexpectedEOF) there is no APDU.
   */
  method ReadApdu(stream: Bytes, start: nat) returns (apdu: Option<Bytes>, pos: nat)
    requires start <= |stream|
    ensures start <= pos <= |stream|
    ensures apdu == None ==> RecvAll(stream[start..]) == []
    ensures apdu.Some? ==> start < pos && RecvAll(stream[start..]) == [apdu.value] + RecvAll(stream[pos..])
  {
    pos := start;
    var rawData := new Octet[APDU_SIZE_MAX];
    var rdCnt, length := 0, 2;
    ghost var all := RecvAll(stream[start..]);
    assert rawData[..0] + stream[pos..] == stream[start..];
    while rdCnt < length
      invariant 0 <= rdCnt <= length <= APDU_SIZE_MAX && start <= pos <= |stream|
      invariant rdCnt > 0 ==> start < pos
      invariant Buffered(rawData[..rdCnt], length)
      invariant Delivers(rawData[..rdCnt], stream[pos..], all)
      decreases |stream| - pos
    {
      var ok, cnt, len := Turn(rawData, rdCnt, length, stream, pos, all);
      if !ok {
        return None, pos;
      }
      pos := pos + (length - rdCnt);
      rdCnt, length := cnt, len;
    }
    apdu := Some(rawData[..length]);
    CompleteApdu(rawData[..length], stream[pos..]);
  }

  /** A header stays what it is when more octets follow it. */
  lemma StillBuffered(read: Bytes, length: nat, buffer: Bytes)
    requires Buffered(read, length) && |read| <= |buffer| == length && buffer[..|read|] == read
    ensures length > 2 ==> Buffered(buffer, length)
  {
    if |read| >= 2 {
      assert buffer[0] == read[0] && buffer[1] == read[1];
    }
  }

  /** The stream ends before the buffer is full. */
  lemma ReadEnded(read: Bytes, length: nat, tail: Bytes)
    requires Buffered(read, length) && |read| + |tail| < length
    ensures RecvAll(read + tail) == []
  {
    var rest := read + tail;
    if |read| >= 2 {
      assert rest[..2] == read[..2];
    }
    StreamEnded(rest, length);
  }

  /** recvLoop: the APDUs handed to rcvRaw before the connection ends. */
  method RecvLoop(stream: Bytes) returns (apdus: seq<Bytes>)
    ensures apdus == RecvAll(stream)
  {
    apdus := [];
    var pos := 0;
    assert stream[0..] == stream;
    while true
      invariant 0 <= pos <= |stream|
      invariant apdus + RecvAll(stream[pos..]) == RecvAll(stream)
      decreases |stream| - pos
    {
      var apdu, next := ReadApdu(stream, pos);
      match apdu {
        case None => return;
        case Some(a) =>
          assert apdus + ([a] + RecvAll(stream[next..])) == (apdus + [a]) + RecvAll(stream[next..]);
          apdus, pos := apdus + [a], next;
      }
    }
  }

  /** What the buffer holds between two reads: nothing, a start character, or a header that fixed the length. */
  predicate Buffered(buffer: Bytes, length: nat) {
    if |buffer| < 2 then length == 2 && (buffer != [] ==> buffer[0] == START_FRAME)
    else buffer[0] == START_FRAME && length == ApduLength(buffer[1]) && LegalLength(length)
  }

  lemma StreamEnded(rest: Bytes, length: nat)
    requires |rest| < length
    requires |rest| < 2 || Buffered(rest[..2], length)
    ensures RecvAll(rest) == []
  {
  }

  /** The APDUs occur in the stream one after the other, without overlap, in this order. */
  ghost predicate Embedded(apdus: seq<Bytes>, stream: Bytes)
    decreases |apdus|
  {
    apdus == [] ||
    exists i: nat :: OccursAt(apdus[0], stream, i) && Embedded(apdus[1..], stream[i + |apdus[0]|..])
  }

  ghost predicate OccursAt(a: Bytes, stream: Bytes, i: nat) {
    i + |a| <= |stream| && stream[i..i + |a|] == a
  }

  lemma EmbeddedShift(apdus: seq<Bytes>, stream: Bytes, k: nat)
    requires k <= |stream| && Embedded(apdus, stream[k..])
    ensures Embedded(apdus, stream)
  {
    if apdus != [] {
      var i: nat :| OccursAt(apdus[0], stream[k..], i) && Embedded(apdus[1..], stream[k..][i + |apdus[0]|..]);
      assert stream[k..][i + |apdus[0]|..] == stream[k + i + |apdus[0]|..];
      assert stream[k..][i..i + |apdus[0]|] == stream[k + i..k + i + |apdus[0]|];
      assert OccursAt(apdus[0], stream, k + i);
    }
  }

  /** Whatever the stream holds, everything delivered is well framed and comes from it, in order, each octet used once. */
  lemma {:induction false} DeliveredFromStream(stream: Bytes)
    ensures forall a :: a in RecvAll(stream) ==> WellFramed(a)
    ensures Embedded(RecvAll(stream), stream)
    decreases |stream|
  {
    if |stream| < 2 {
    } else if stream[0] != START_FRAME || !LegalLength(ApduLength(stream[1])) {
      var k := if stream[0] != START_FRAME && stream[1] == START_FRAME then 1 else 2;
      DeliveredFromStream(stream[k..]);
      EmbeddedShift(RecvAll(stream[k..]), stream, k);
    } else if ApduLength(stream[1]) <= |stream| {
      var length := ApduLength(stream[1]);
      DeliveredFromStream(stream[length..]);
      var apdus := RecvAll(stream);
      assert apdus == [stream[..length]] + RecvAll(stream[length..]);
      assert OccursAt(apdus[0], stream, 0) && apdus[1..] == RecvAll(stream[length..]);
    }
  }

  /** Octets that contain no start character are skipped, whether their number is odd or even. */
  lemma {:induction false} NoiseSkipped(noise: Bytes, tail: Bytes)
    requires START_FRAME !in noise
    requires tail != [] ==> tail[0] == START_FRAME
    ensures RecvAll(noise + tail) == RecvAll(tail)
    decreases |noise|
  {
    var stream := noise + tail;
    if |noise| >= 2 {
      NoiseSkipped(noise[2..], tail);
      assert stream[2..] == noise[2..] + tail;
    } else if |noise| == 1 {
      assert stream[1..] == tail;
    } else {
      assert stream == tail;
    }
  }

  lemma {:induction false} ApdusFramed(apdus: seq<Bytes>, tail: Bytes)
    requires forall a :: a in apdus ==> WellFramed(a)
    ensures RecvAll(Flatten(apdus) + tail) == apdus + RecvAll(tail)
    decreases |apdus|
  {
    if apdus == [] {
      assert Flatten(apdus) + tail == tail;
    } else {
      var a := apdus[0];
      assert WellFramed(a);
      ApdusFramed(apdus[1..], tail);
      var stream := Flatten(apdus) + tail;
      assert stream == a + (Flatten(apdus[1..]) + tail);
      assert stream[..|a|] == a && stream[|a|..] == Flatten(apdus[1..]) + tail;
      assert stream[0] == a[0] && stream[1] == a[1];
      assert RecvAll(stream) == [a] + (apdus[1..] + RecvAll(tail));
    }
  }

  /** The APDUs of a list of frames, as the sender writes them. */
  function EncodeAll(fs: seq<Frame>): (apdus: seq<Bytes>)
    requires forall f :: f in fs ==> Sendable(f)
    ensures |apdus| == |fs| && forall i :: 0 <= i < |fs| ==> apdus[i] == Encode(fs[i])
  {
    seq(|fs|, i requires 0 <= i < |fs| => Encode(fs[i]))
  }

  /**
   * A byte stream carries a list of frames faithfully: after any line noise without a start
   * character, the receive loop and the parser hand over exactly the frames that were sent.
   * This is what lets the session model treat each direction as a queue of frames.
   */
  lemma StreamCarriesFrames(noise: Bytes, fs: seq<Frame>)
    requires START_FRAME !in noise
    requires forall f :: f in fs ==> Sendable(f)
    ensures var apdus := RecvAll(noise + Flatten(EncodeAll(fs)));
            |apdus| == |fs| && forall i :: 0 <= i < |fs| ==> Parse(apdus[i]) == Ok(fs[i])
  {
    var sent := EncodeAll(fs);
    forall i | 0 <= i < |fs| ensures WellFramed(sent[i]) && Parse(sent[i]) == Ok(fs[i]) {
      ParseEncode(fs[i]);
    }
    ApdusFramed(sent, []);
    var stream := Flatten(sent);
    assert stream + [] == stream && RecvAll([]) == [];
    if sent != [] {
      assert stream[0] == sent[0][0];
    }
    NoiseSkipped(noise, stream);
  }
}
