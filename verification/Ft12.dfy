/** The FT1.2 frames of IEC 60870-5-101: control field, building, and parsing from a stream. */
module Ft12 {
  import opened Octets

  const SINGLE_CHAR_ACK: Octet := 0xE5
  const START_FIXED: Octet := 0x10
  const START_VARIABLE: Octet := 0x68
  const END_CHAR: Octet := 0x16
  const MAX_LENGTH_FIELD := 255

  datatype ControlField = ControlField(dir: bool, prm: bool, fcb: bool, fcv: bool, acd: bool, dfc: bool, fun: Octet)

  datatype Frame =
    | SingleChar
    | Fixed(control: Octet, linkAddr: Bytes)
    | Variable(control: Octet, linkAddr: Bytes, asdu: Bytes)

  datatype FrameError =
    | ReadFailed | InvalidStartChar | LengthMismatch | FrameTooShort | FrameLenExceeded
    | InvalidLinkAddrLen | LinkAddrMismatch | InvalidEndChar | ChecksumMismatch

  // ---- control field ----

  function Bit(b: bool, weight: nat): nat {
    if b then weight else 0
  }

  function ParseControlField(b: Octet): ControlField {
    var prm, high, low := (b / 64) % 2 == 1, (b / 32) % 2 == 1, (b / 16) % 2 == 1;
    ControlField(b / 128 == 1, prm, prm && high, prm && low, !prm && high, !prm && low, b % 16)
  }

  function ControlValue(cf: ControlField): Octet {
    Bit(cf.dir, 128) + Bit(cf.prm, 64)
    + (if cf.prm then Bit(cf.fcb, 32) + Bit(cf.fcv, 16) else Bit(cf.acd, 32) + Bit(cf.dfc, 16)) + cf.fun % 16
  }

  /** The bits a message of the other direction would carry are clear, and the function code fits its four bits. */
  predicate Canonical(cf: ControlField) {
    cf.fun < 16 && (if cf.prm then !cf.acd && !cf.dfc else !cf.fcb && !cf.fcv)
  }

  /** Every octet is the value of the control field it parses to. */
  lemma ControlOctetRoundTrip(b: Octet)
    ensures ControlValue(ParseControlField(b)) == b && Canonical(ParseControlField(b))
  {
    OctetBits(b);
  }

  lemma OctetBits(b: Octet)
    ensures b == 128 * (b / 128) + 64 * ((b / 64) % 2) + 32 * ((b / 32) % 2) + 16 * ((b / 16) % 2) + b % 16 && b / 128 < 2
  {
  }

  /** A control field survives exactly when it is canonical. */
  lemma ControlFieldRoundTrip(cf: ControlField)
    ensures ParseControlField(ControlValue(cf)) == cf <==> Canonical(cf)
  {
    hide ParseControlField;
    ParsedBits(cf.dir, cf.prm, if cf.prm then cf.fcb else cf.acd, if cf.prm then cf.fcv else cf.dfc, cf.fun % 16);
  }

  lemma ParsedBits(dir: bool, prm: bool, high: bool, low: bool, fun: nat)
    requires fun < 16
    ensures ParseControlField(Bit(dir, 128) + Bit(prm, 64) + (Bit(high, 32) + Bit(low, 16)) + fun)
            == ControlField(dir, prm, prm && high, prm && low, !prm && high, !prm && low, fun)
  {
    BitsApart(Bit(dir, 1), Bit(prm, 1), Bit(high, 1), Bit(low, 1), fun);
  }

  lemma BitsApart(d: nat, p: nat, h: nat, l: nat, f: nat)
    requires d < 2 && p < 2 && h < 2 && l < 2 && f < 16
    ensures var v := 128 * d + 64 * p + 32 * h + 16 * l + f;
            v / 128 == d && (v / 64) % 2 == p && (v / 32) % 2 == h && (v / 16) % 2 == l && v % 16 == f
  {
  }

  // ---- building ----

  function Checksum(control: Octet, linkAddr: Bytes, asdu: Bytes): Octet {
    Low(control + Sum(linkAddr) + Sum(asdu))
  }

  function FixedOctets(control: Octet, linkAddr: Bytes): Bytes {
    [START_FIXED, control] + linkAddr + [Checksum(control, linkAddr, []), END_CHAR]
  }

  function VariableOctets(length: Octet, control: Octet, linkAddr: Bytes, asdu: Bytes): Bytes {
    [START_VARIABLE, length, length, START_VARIABLE, control] + linkAddr + asdu + [Checksum(control, linkAddr,
        asdu), END_CHAR]
  }

  function Marshal(linkAddrSize: nat, f: Frame): Result<Bytes, FrameError> {
    if linkAddrSize > 2 then Err(InvalidLinkAddrLen)
    else if (if f.SingleChar? then 0 else |f.linkAddr|) != linkAddrSize then Err(LinkAddrMismatch)
    else
      match f
      case SingleChar => Err(InvalidStartChar)
      case Fixed(control, linkAddr) => Ok(FixedOctets(control, linkAddr))
      case Variable(control, linkAddr, asdu) =>
        var length := 1 + linkAddrSize + |asdu|;
        if length > MAX_LENGTH_FIELD then Err(FrameLenExceeded) else Ok(VariableOctets(length, control, linkAddr, asdu))
  }

  /** A frame as it appears on the line; the single character is written as it stands. */
  function Wire(linkAddrSize: nat, f: Frame): Result<Bytes, FrameError> {
    if f.SingleChar? then Ok([SINGLE_CHAR_ACK]) else Marshal(linkAddrSize, f)
  }

  // ---- parsing ----

  /** The frame or the error, and how many octets of the stream were read to get there. */
  datatype Parsed = Parsed(frame: Result<Frame, FrameError>, used: nat)

  function ParseFixed(linkAddrSize: nat, s: Bytes): (r: Parsed)
    requires s != []
    ensures 0 < r.used <= |s|
  {
    var n := 4 + linkAddrSize;
    if |s| < n then Parsed(Err(ReadFailed), |s|)
    else
      var control, linkAddr := s[1], s[2..2 + linkAddrSize];
      if s[n - 1] != END_CHAR then Parsed(Err(InvalidEndChar), n)
      else if Checksum(control, linkAddr, []) != s[n - 2] then Parsed(Err(ChecksumMismatch), n)
      else Parsed(Ok(Fixed(control, linkAddr)), n)
  }

  function ParseVariable(linkAddrSize: nat, s: Bytes): (r: Parsed)
    requires s != []
    ensures 0 < r.used <= |s|
  {
    if |s| < 5 then Parsed(Err(ReadFailed), |s|)
    else if s[1] != s[2] then Parsed(Err(LengthMismatch), 5)
    else if s[1] < 1 + linkAddrSize then Parsed(Err(FrameTooShort), 5)
    else
      var length: nat := s[1];
      var n := length + 6;
      if |s| < n then Parsed(Err(ReadFailed), |s|)
      else
        var control, linkAddr, asdu := s[4], s[5..5 + linkAddrSize], s[5 + linkAddrSize..n - 2];
        if s[n - 1] != END_CHAR then Parsed(Err(InvalidEndChar), n)
        else if Checksum(control, linkAddr, asdu) != s[n - 2] then Parsed(Err(ChecksumMismatch), n)
        else Parsed(Ok(Variable(control, linkAddr, asdu)), n)
  }

  function Parse(linkAddrSize: nat, s: Bytes): (r: Parsed)
    ensures r.used <= |s| && (r.frame.Ok? ==> r.used > 0)
  {
    if linkAddrSize > 2 then Parsed(Err(InvalidLinkAddrLen), 0)
    else if s == [] then Parsed(Err(ReadFailed), 0)
    else if s[0] == SINGLE_CHAR_ACK then Parsed(Ok(SingleChar), 1)
    else if s[0] == START_FIXED then ParseFixed(linkAddrSize, s)
    else if s[0] == START_VARIABLE then ParseVariable(linkAddrSize, s)
    else Parsed(Err(InvalidStartChar), 1)
  }

  // ---- as the program does it ----

  /** The 16-bit accumulator cannot wrap over one frame. */
  method CalculateChecksum(control: Octet, linkAddr: Bytes, asdu: Bytes) returns (sum: Octet)
    requires |linkAddr| + |asdu| <= 256
    ensures sum == Checksum(control, linkAddr, asdu)
  {
    var acc: nat := control;
    for i := 0 to |linkAddr|
      invariant acc == control + Sum(linkAddr[..i]) <= 255 * (i + 1)
    {
      SumSnoc(linkAddr, i);
      acc := (acc + linkAddr[i]) % 0x1_0000;
    }
    assert linkAddr[..|linkAddr|] == linkAddr;
    for i := 0 to |asdu|
      invariant acc == control + Sum(linkAddr) + Sum(asdu[..i]) <= 255 * (|linkAddr| + i + 1)
    {
      SumSnoc(asdu, i);
      acc := (acc + asdu[i]) % 0x1_0000;
    }
    assert asdu[..|asdu|] == asdu;
    return Low(acc);
  }

  lemma SumSnoc(b: Bytes, i: nat)
    requires i < |b|
    ensures Sum(b[..i + 1]) == Sum(b[..i]) + b[i]
  {
    assert b[..i + 1] == b[..i] + [b[i]];
    SumAppend(b[..i], [b[i]]);
    assert Sum([b[i]]) == b[i];
  }

  /** The stream a frame is read from. */
  class Reader {
    const stream: Bytes
    var pos: nat

    ghost predicate Valid()
      reads this
    {
      pos <= |stream|
    }

    constructor (stream: Bytes)
      ensures this.stream == stream && pos == 0 && Valid()
    {
      this.stream, pos := stream, 0;
    }

    /** io.ReadFull: n octets, or what is left and an error. */
    method ReadFull(n: nat) returns (buffer: Option<Bytes>)
      requires Valid()
      modifies this`pos
      ensures Valid()
      ensures if old(pos) + n <= |stream|
              then pos == old(pos) + n && buffer == Some(stream[old(pos)..pos])
              else pos == |stream| && buffer == None
    {
      if pos + n <= |stream| {
        buffer := Some(stream[pos..pos + n]);
        pos := pos + n;
      } else {
        buffer := None;
        pos := |stream|;
      }
    }

    method ParseFixedFrame(linkAddrSize: nat) returns (frame: Result<Frame, FrameError>)
      requires Valid() && pos > 0 && linkAddrSize <= 2
      modifies this`pos
      ensures Valid() && old(pos) <= pos && Parsed(frame, pos - (old(pos) - 1))
          == ParseFixed(linkAddrSize, stream[old(pos) - 1..])
    {
      ghost var s, p := stream[pos - 1..], pos - 1;
      var data := ReadFull(3 + linkAddrSize);
      if data == None {
        return Err(ReadFailed);
      }
      var d := data.value;
      var control, linkAddr := d[0], d[1..1 + linkAddrSize];
      PieceOf(stream, p, |stream|, 1, 4 + linkAddrSize);
      PieceOf(s, 1, 4 + linkAddrSize, 1, 1 + linkAddrSize);
      assert stream[p..|stream|] == s && d == s[1..4 + linkAddrSize] && linkAddr == s[2..2 + linkAddrSize];
      var sum := CalculateChecksum(control, linkAddr, []);
      if d[|d| - 1] != END_CHAR {
        return Err(InvalidEndChar);
      }
      if sum != d[|d| - 2] {
        return Err(ChecksumMismatch);
      }
      return Ok(Fixed(control, linkAddr));
    }

    method ParseVariableFrame(linkAddrSize: nat) returns (frame: Result<Frame, FrameError>)
      requires Valid() && pos > 0 && linkAddrSize <= 2
      modifies this`pos
      ensures Valid() && old(pos) <= pos && Parsed(frame, pos - (old(pos) - 1))
          == ParseVariable(linkAddrSize, stream[old(pos) - 1..])
    {
      ghost var s, p := stream[pos - 1..], pos - 1;
      var header := ReadFull(4);
      if header == None {
        return Err(ReadFailed);
      }
      var h := header.value;
      PieceOf(stream, p, |stream|, 1, 5);
      assert stream[p..|stream|] == s && h == s[1..5];
      if h[0] != h[1] {
        return Err(LengthMismatch);
      }
      if h[0] < 1 + linkAddrSize {
        return Err(FrameTooShort);
      }
      var length: nat := h[0];
      var bodyLen := length + 1;
      var body := ReadFull(bodyLen);
      if body == None {
        return Err(ReadFailed);
      }
      var b := body.value;
      PieceOf(stream, p, |stream|, 5, 5 + bodyLen);
      assert b == s[5..5 + bodyLen];
      var linkAddr, asdu := b[..linkAddrSize], b[linkAddrSize..bodyLen - 2];
      PieceOf(s, 5, 5 + bodyLen, 0, linkAddrSize);
      PieceOf(s, 5, 5 + bodyLen, linkAddrSize, bodyLen - 2);
      assert linkAddr == s[5..5 + linkAddrSize] && asdu == s[5 + linkAddrSize..length + 6 - 2];
      if b[bodyLen - 1] != END_CHAR {
        return Err(InvalidEndChar);
      }
      var sum := CalculateChecksum(h[3], linkAddr, asdu);
      if sum != b[bodyLen - 2] {
        return Err(ChecksumMismatch);
      }
      return Ok(Variable(h[3], linkAddr, asdu));
    }

    method ParseFrame(linkAddrSize: nat) returns (frame: Result<Frame, FrameError>)
      requires Valid()
      modifies this`pos
      ensures Valid() && old(pos) <= pos && Parsed(frame, pos - old(pos)) == Parse(linkAddrSize, stream[old(pos)..])
    {
      if linkAddrSize > 2 {
        return Err(InvalidLinkAddrLen);
      }
      var start := ReadFull(1);
      if start == None {
        return Err(ReadFailed);
      }
      var c := start.value[0];
      if c == SINGLE_CHAR_ACK {
        return Ok(SingleChar);
      } else if c == START_FIXED {
        frame := ParseFixedFrame(linkAddrSize);
      } else if c == START_VARIABLE {
        frame := ParseVariableFrame(linkAddrSize);
      } else {
        return Err(InvalidStartChar);
      }
    }
  }
}
