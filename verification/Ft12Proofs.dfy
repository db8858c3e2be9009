/** What the FT1.2 frame format guarantees. */
module Ft12Proofs {
  import opened Octets
  import opened Ft12

  lemma FixedParses(size: nat, control: Octet, linkAddr: Bytes, rest: Bytes)
    requires |linkAddr| == size <= 2
    ensures Parse(size, FixedOctets(control, linkAddr) + rest) == Parsed(Ok(Fixed(control, linkAddr)), 4 + size)
  {
    var s := FixedOctets(control, linkAddr) + rest;
    assert s[2..2 + size] == linkAddr;
  }

  lemma VariableParses(size: nat, length: Octet, start2: Octet, control: Octet, linkAddr: Bytes, asdu: Bytes, rest: Bytes)
    requires |linkAddr| == size <= 2 && 1 + size + |asdu| == length
    ensures Parse(size, VariableOctets(length, control, linkAddr, asdu)[3 := start2] + rest)
            == Parsed(Ok(Variable(control, linkAddr, asdu)), |VariableOctets(length, control, linkAddr, asdu)|)
  {
    var head, tail := [START_VARIABLE, length, length, start2], [Checksum(control, linkAddr, asdu), END_CHAR] + rest;
    var s := VariableOctets(length, control, linkAddr, asdu)[3 := start2] + rest;
    assert s == head + ([control] + linkAddr + asdu) + tail;
    VariableParts(head, control, linkAddr, asdu, tail);
    assert s[5 + size + |asdu|] == tail[0] && s[6 + size + |asdu|] == tail[1];
  }

  /** A marshalled frame at the head of a stream is parsed back and exactly its octets are consumed. */
  lemma ParseWire(size: nat, f: Frame, rest: Bytes)
    requires Wire(size, f).Ok? && size <= 2
    ensures Parse(size, Wire(size, f).value + rest) == Parsed(Ok(f), |Wire(size, f).value|)
  {
    match f {
      case SingleChar =>
      case Fixed(control, linkAddr) => FixedParses(size, control, linkAddr, rest);
      case Variable(control, linkAddr, asdu) =>
        var length: Octet := 1 + size + |asdu|;
        VariableParses(size, length, START_VARIABLE, control, linkAddr, asdu, rest);
        var b := VariableOctets(length, control, linkAddr, asdu);
        assert b[3 := START_VARIABLE] == b;
    }
  }

  /** Frames on the line, one after the other. */
  function WireAll(size: nat, fs: seq<Frame>): Bytes
    requires forall i :: 0 <= i < |fs| ==> Wire(size, fs[i]).Ok?
  {
    if fs == [] then [] else Wire(size, fs[0]).value + WireAll(size, fs[1..])
  }

  /** Every frame of a stream up to the first error or the end. */
  function ParseAll(size: nat, s: Bytes): (seq<Frame>, Bytes)
    decreases |s|
  {
    var p := Parse(size, s);
    if p.frame.Err? then ([], s)
    else
      var (fs, rest) := ParseAll(size, s[p.used..]);
      ([p.frame.value] + fs, rest)
  }

  /** A line that carries any list of frames yields exactly that list with nothing left over. */
  lemma {:induction false} LineCarriesFrames(size: nat, fs: seq<Frame>)
    requires size <= 2 && forall i :: 0 <= i < |fs| ==> Wire(size, fs[i]).Ok?
    ensures ParseAll(size, WireAll(size, fs)) == (fs, [])
  {
    if fs != [] {
      var b, rest := Wire(size, fs[0]).value, WireAll(size, fs[1..]);
      ParseWire(size, fs[0], rest);
      assert (b + rest)[|b|..] == rest;
      LineCarriesFrames(size, fs[1..]);
      assert fs == [fs[0]] + fs[1..];
    }
  }

  /**
   * What is accepted is, octet for octet, a marshalled frame, except that the second start character is not
   * looked at.
   */
  lemma AcceptedIsMarshalled(size: nat, s: Bytes)
    requires Parse(size, s).frame.Ok?
    ensures var p := Parse(size, s);
            && Wire(size, p.frame.value).Ok?
            && var b := Wire(size, p.frame.value).value;
            && |b| == p.used
            && s[..p.used] == if p.frame.value.Variable? then b[3 := s[3]] else b
  {
    match Parse(size, s).frame.value {
      case SingleChar =>
      case Fixed(_, _) => FixedAccepted(size, s);
      case Variable(_, _, _) => VariableAccepted(size, s);
    }
  }

  lemma FixedAccepted(size: nat, s: Bytes)
    requires size <= 2 && s != [] && s[0] == START_FIXED && ParseFixed(size, s).frame.Ok?
    ensures
      var p := ParseFixed(size, s);
      var b := Wire(size, p.frame.value);
      b.Ok? && |b.value| == p.used && s[..p.used] == b.value
  {
    var n := 4 + size;
    assert s[..n] == [s[0], s[1]] + s[2..2 + size] + [s[n - 2], s[n - 1]];
  }

  lemma VariableAccepted(size: nat, s: Bytes)
    requires size <= 2 && s != [] && s[0] == START_VARIABLE && ParseVariable(size, s).frame.Ok?
    ensures
      var p := ParseVariable(size, s);
      var b := Wire(size, p.frame.value);
      b.Ok? && |b.value| == p.used && s[..p.used] == b.value[3 := s[3]]
  {
    var n := ParseVariable(size, s).used;
    ThreePieces(s, 5, 5 + size, n - 2);
    assert s[..n] == s[..n - 2] + [s[n - 2], s[n - 1]];
    assert s[..5] == [s[0], s[1], s[2], s[3], s[4]];
  }

  lemma ThreePieces(s: Bytes, i: nat, j: nat, k: nat)
    requires i <= j <= k <= |s|
    ensures s[..k] == s[..i] + s[i..j] + s[j..k]
  {
  }

  lemma LowDiffers(m: nat, n: nat)
    requires m < n < m + 256 || n < m < n + 256
    ensures Low(m) != Low(n)
  {
  }

  /** One octet of the checked part is changed: the checksum no longer agrees. */
  lemma BodyDamageSeen(control: Octet, linkAddr: Bytes, asdu: Bytes, i: nat, x: Octet)
    requires i < 1 + |linkAddr| + |asdu|
    requires x != if i == 0 then control else if i <= |linkAddr| then linkAddr[i - 1] else asdu[i - 1 - |linkAddr|]
    ensures var n := |linkAddr|;
            Checksum(control, linkAddr, asdu)
            != Checksum(if i == 0 then x else control, if 0 < i <= n then linkAddr[i - 1 := x] else linkAddr,
                        if i > n then asdu[i - 1 - n := x] else asdu)
  {
    var n := |linkAddr|;
    if 0 < i <= n {
      SumUpdate(linkAddr, i - 1, x);
    } else if i > n {
      SumUpdate(asdu, i - 1 - n, x);
    }
    var control', linkAddr' := if i == 0 then x else control, if 0 < i <= n then linkAddr[i - 1 := x] else linkAddr;
    var asdu' := if i > n then asdu[i - 1 - n := x] else asdu;
    LowDiffers(control + Sum(linkAddr) + Sum(asdu), control' + Sum(linkAddr') + Sum(asdu'));
  }

  /** Where the parts of a variable frame lie in a stream. */
  lemma VariableParts(head: Bytes, control: Octet, linkAddr: Bytes, asdu: Bytes, tail: Bytes)
    requires |head| == 4
    ensures var s, n := head + ([control] + linkAddr + asdu) + tail, |linkAddr|;
            && s[..4] == head && s[4] == control && s[5..5 + n] == linkAddr && s[5 + n..5 + n + |asdu|] == asdu
            && s[5 + n + |asdu|..] == tail
  {
    var s := head + ([control] + linkAddr + asdu) + tail;
    assert s == (head + [control]) + linkAddr + (asdu + tail);
    SecondPart(head + [control], linkAddr, asdu + tail);
    assert s == (head + [control] + linkAddr) + asdu + tail;
    SecondPart(head + [control] + linkAddr, asdu, tail);
  }

  /** Changing one octet changes one part. */
  lemma UpdatePart(head: Bytes, body: Bytes, tail: Bytes, rest: Bytes, p: nat, x: Octet)
    requires p < |head| + |body| + |tail|
    ensures var h, n := |head|, |head| + |body|;
            (head + body + tail)[p := x] + rest
            == if p < h then head[p := x] + body + (tail + rest)
               else if p < n then head + body[p - h := x] + (tail + rest)
               else head + body + (tail[p - n := x] + rest)
  {
  }

  lemma UpdateBody(control: Octet, linkAddr: Bytes, asdu: Bytes, i: nat, x: Octet)
    requires i < 1 + |linkAddr| + |asdu|
    ensures var n := |linkAddr|;
            ([control] + linkAddr + asdu)[i := x]
            == [if i == 0 then x else control] + (if 0 < i <= n then linkAddr[i - 1 := x] else linkAddr)
               + (if i > n then asdu[i - 1 - n := x] else asdu)
  {
  }

  /** A variable frame in parts whose checksum or end character is wrong. */
  lemma VariableFails(size: nat, head: Bytes, control: Octet, linkAddr: Bytes, asdu: Bytes, tail: Bytes)
    requires size <= 2 && |linkAddr| == size && |head| == 4 && |tail| >= 2 && 1 + size + |asdu| <= 255
    requires head[0] == START_VARIABLE && head[1] == head[2] == 1 + size + |asdu|
    requires Checksum(control, linkAddr, asdu) != tail[0] || tail[1] != END_CHAR
    ensures Parse(size, head + ([control] + linkAddr + asdu) + tail)
            == Parsed(Err(if tail[1] != END_CHAR then InvalidEndChar else ChecksumMismatch), 7 + size + |asdu|)
  {
    VariableParts(head, control, linkAddr, asdu, tail);
    var s := head + ([control] + linkAddr + asdu) + tail;
    assert s[0] == head[0] && s[1] == head[1] && s[2] == head[2];
    assert s[5 + size + |asdu|] == tail[0] && s[6 + size + |asdu|] == tail[1];
  }

  lemma VariableHeadFails(size: nat, head: Bytes, rest: Bytes)
    requires |head| == 4 && |rest| > 0 && head[0] == START_VARIABLE && head[1] != head[2]
    ensures Parse(size, head + rest)
            == if size > 2 then Parsed(Err(InvalidLinkAddrLen), 0) else Parsed(Err(LengthMismatch), 5)
  {
  }

  /** What is found wrong with a frame of n octets of which octet p was changed, and how much has been read by then. */
  function DamageAt(n: nat, p: nat): (FrameError, nat) {
    if p == n - 1 then (InvalidEndChar, n) else (ChecksumMismatch, n)
  }

  /**
   * Any single octet of a variable frame after the first, changed in any way: the frame is refused,
   * whatever follows it, unless it is the second start character, which goes unnoticed. Unless it is a length
   * octet, the frame is read to its end.
   */
  lemma VariableDamageDetectedExactlyWhen(size: nat, control: Octet, linkAddr: Bytes, asdu: Bytes, p: nat,
      x: Octet, rest: Bytes)
    requires Marshal(size, Variable(control, linkAddr, asdu)).Ok?
    requires var b := Marshal(size, Variable(control, linkAddr, asdu)).value; 1 <= p < |b| && x != b[p]
    ensures var b := Marshal(size, Variable(control, linkAddr, asdu)).value;
            var r := Parse(size, b[p := x] + rest);
            && (r.frame.Err? <==> p != 3) && (p == 3 ==> r == Parsed(Ok(Variable(control, linkAddr, asdu)), |b|))
            && (p < 3 ==> r == Parsed(Err(LengthMismatch), 5))
            && (p > 3 ==> r == Parsed(Err(DamageAt(|b|, p).0), DamageAt(|b|, p).1))
  {
    var length: Octet := 1 + size + |asdu|;
    if p == 3 {
      VariableParses(size, length, x, control, linkAddr, asdu, rest);
    } else {
      VariableDamage(size, length, control, linkAddr, asdu, p, x, rest);
    }
  }

  lemma BodyDamage(size: nat, head: Bytes, control: Octet, linkAddr: Bytes, asdu: Bytes, tail: Bytes, i: nat, x: Octet)
    requires size <= 2 && |linkAddr| == size && |head| == 4 && |tail| >= 2 && 1 + size + |asdu| <= 255
    requires head[0] == START_VARIABLE && head[1] == head[2] == 1 + size + |asdu|
    requires tail[0] == Checksum(control, linkAddr, asdu) && tail[1] == END_CHAR
    requires i < 1 + size + |asdu| && x != ([control] + linkAddr + asdu)[i]
    ensures Parse(size, head + ([control] + linkAddr + asdu)[i := x] + tail)
            == Parsed(Err(ChecksumMismatch), 7 + size + |asdu|)
  {
    BodyDamageSeen(control, linkAddr, asdu, i, x);
    UpdateBody(control, linkAddr, asdu, i, x);
    VariableFails(size, head, if i == 0 then x else control, if 0 < i <= size then linkAddr[i - 1 := x] else linkAddr,
                  if i > size then asdu[i - 1 - size := x] else asdu, tail);
  }

  lemma VariableDamage(size: nat, length: Octet, control: Octet, linkAddr: Bytes, asdu: Bytes, p: nat, x: Octet,
      rest: Bytes)
    requires |linkAddr| == size <= 2 && 1 + size + |asdu| == length
    requires var b := VariableOctets(length, control, linkAddr, asdu); 1 <= p < |b| && p != 3 && x != b[p]
    ensures var b := VariableOctets(length, control, linkAddr, asdu);
            Parse(size, b[p := x] + rest) == if p < 3 then Parsed(Err(LengthMismatch), 5)
                                             else Parsed(Err(DamageAt(|b|, p).0), DamageAt(|b|, p).1)
  {
    var head, body := [START_VARIABLE, length, length, START_VARIABLE], [control] + linkAddr + asdu;
    var tail := [Checksum(control, linkAddr, asdu), END_CHAR];
    assert VariableOctets(length, control, linkAddr, asdu) == head + body + tail;
    UpdatePart(head, body, tail, rest, p, x);
    if p < 4 {
      assert head[p := x] + body + (tail + rest) == head[p := x] + (body + (tail + rest));
      VariableHeadFails(size, head[p := x], body + (tail + rest));
    } else if p < 4 + |body| {
      BodyDamage(size, head, control, linkAddr, asdu, tail + rest, p - 4, x);
    } else {
      VariableFails(size, head, control, linkAddr, asdu, tail[p - 4 - |body| := x] + rest);
    }
  }

  /** In a fixed frame every single octet after the first is guarded, and the frame is read to its end. */
  lemma FixedDamageDetected(size: nat, control: Octet, linkAddr: Bytes, p: nat, x: Octet, rest: Bytes)
    requires Marshal(size, Fixed(control, linkAddr)).Ok?
    requires var b := Marshal(size, Fixed(control, linkAddr)).value; 1 <= p < |b| && x != b[p]
    ensures var b := Marshal(size, Fixed(control, linkAddr)).value;
            Parse(size, b[p := x] + rest) == Parsed(Err(DamageAt(|b|, p).0), DamageAt(|b|, p).1)
  {
    hide Checksum, Parse;
    var b, sum := FixedOctets(control, linkAddr), Checksum(control, linkAddr, []);
    if p < 2 + size {
      var control', linkAddr' := if p == 1 then x else control, if p > 1 then linkAddr[p - 2 := x] else linkAddr;
      BodyDamageSeen(control, linkAddr, [], p - 1, x);
      assert b[p := x] == [START_FIXED, control'] + linkAddr' + [sum, END_CHAR];
      FixedReads(size, control', linkAddr', sum, END_CHAR, rest);
    } else {
      var sum', end := if p == 2 + size then x else sum, if p == 3 + size then x else END_CHAR;
      assert b[p := x] == [START_FIXED, control] + linkAddr + [sum', end];
      FixedReads(size, control, linkAddr, sum', end, rest);
    }
  }

  lemma FixedReads(size: nat, control: Octet, linkAddr: Bytes, sum: Octet, end: Octet, rest: Bytes)
    requires |linkAddr| == size <= 2
    ensures Parse(size, [START_FIXED, control] + linkAddr + [sum, end] + rest)
            == Parsed(if end != END_CHAR then Err(InvalidEndChar)
                      else if Checksum(control, linkAddr, []) != sum then Err(ChecksumMismatch)
                      else Ok(Fixed(control, linkAddr)), 4 + size)
  {
    hide Checksum;
    var s := [START_FIXED, control] + linkAddr + [sum, end] + rest;
    assert s[2..2 + size] == linkAddr;
  }

  /** The largest ASDU of a variable frame, and with it every ASDU the application layer builds. */
  lemma CarriesAsduExactlyUpTo(size: nat, control: Octet, linkAddr: Bytes, asdu: Bytes)
    requires size <= 2 && |linkAddr| == size
    ensures Marshal(size, Variable(control, linkAddr, asdu)).Ok? <==> |asdu| <= MAX_LENGTH_FIELD - 1 - size
    ensures |asdu| <= 249 ==> Marshal(size, Variable(control, linkAddr, asdu)).Ok?
  {
  }
}
