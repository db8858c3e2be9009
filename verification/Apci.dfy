/** The APCI of IEC 60870-5-104: building and parsing I, S and U frames. */
module Apci {
  import opened Octets
  import opened SeqNo

  const START_FRAME: Octet := 0x68
  const APCI_CTL_FIELD_SIZE: nat := 4
  const ASDU_SIZE_MAX: nat := 249
  const APDU_SIZE_MAX: nat := 255

  datatype UFunction = StartDtActive | StartDtConfirm | StopDtActive | StopDtConfirm | TestFrActive | TestFrConfirm

  /** A parsed APDU. */
  datatype Frame =
    | IFrame(sendSN: SeqNum, rcvSN: SeqNum, asdu: Bytes)
    | SFrame(rcvSN: SeqNum)
    | UFrame(function_: UFunction)

  datatype ApciError = TooShort | LengthField | NoAsdu | UnusedBits | UnknownFunction

  function FunctionCode(f: UFunction): Octet {
    match f
    case StartDtActive => 0x04
    case StartDtConfirm => 0x08
    case StopDtActive => 0x10
    case StopDtConfirm => 0x20
    case TestFrActive => 0x40
    case TestFrConfirm => 0x80
  }

  /** isValidUFunction, returning the function it recognised. */
  function DecodeFunction(code: Octet): Option<UFunction> {
    if code == 0x04 then Some(StartDtActive)
    else if code == 0x08 then Some(StartDtConfirm)
    else if code == 0x10 then Some(StopDtActive)
    else if code == 0x20 then Some(StopDtConfirm)
    else if code == 0x40 then Some(TestFrActive)
    else if code == 0x80 then Some(TestFrConfirm)
    else None
  }

  /** The two octets of a sequence number: the low bit of the first is the format bit. */
  function SeqOctets(n: SeqNum): Bytes {
    [Low(n * 2), Low(n / 128)]
  }

  /** newIFrame: refuses an ASDU longer than 249 octets. */
  function NewIFrame(sendSN: SeqNum, rcvSN: SeqNum, asdu: Bytes): Option<Bytes> {
    if |asdu| > ASDU_SIZE_MAX then None
    else Some([START_FRAME, |asdu| + 4] + SeqOctets(sendSN) + SeqOctets(rcvSN) + asdu)
  }

  function NewSFrame(rcvSN: SeqNum): Bytes {
    [START_FRAME, 4, 0x01, 0x00] + SeqOctets(rcvSN)
  }

  function NewUFrame(which: UFunction): Bytes {
    [START_FRAME, 4, FunctionCode(which) + 3, 0, 0, 0]
  }

  function DecodeSeq(lo: Octet, hi: Octet): SeqNum {
    lo / 2 + hi * 128
  }

  /** parse: the frame an APDU carries, or why it is malformed. */
  function Parse(apdu: Bytes): Result<Frame, ApciError> {
    if |apdu| < 6 then Err(TooShort)
    else if apdu[1] != |apdu| - 2 then Err(LengthField)
    else if apdu[2] % 2 == 0 then
      if apdu[1] <= APCI_CTL_FIELD_SIZE then Err(NoAsdu)
      else if apdu[4] % 2 != 0 then Err(UnusedBits)
      else Ok(IFrame(DecodeSeq(apdu[2], apdu[3]), DecodeSeq(apdu[4], apdu[5]), apdu[6..]))
    else if apdu[2] % 4 == 1 then
      if apdu[1] != APCI_CTL_FIELD_SIZE then Err(LengthField)
      else if apdu[2] != 1 || apdu[3] != 0 || apdu[4] % 2 != 0 then Err(UnusedBits)
      else Ok(SFrame(DecodeSeq(apdu[4], apdu[5])))
    else if apdu[1] != APCI_CTL_FIELD_SIZE then Err(LengthField)
    else if apdu[3] != 0 || apdu[4] != 0 || apdu[5] != 0 then Err(UnusedBits)
    else
      match DecodeFunction(apdu[2] - 3)
      case Some(f) => Ok(UFrame(f))
      case None => Err(UnknownFunction)
  }

  /** What an I frame must carry to be sent and understood: one to 249 octets. */
  predicate Fits(asdu: Bytes) {
    1 <= |asdu| <= ASDU_SIZE_MAX
  }

  predicate Sendable(f: Frame) {
    f.IFrame? ==> Fits(f.asdu)
  }

  /** The octets the program puts on the wire for a frame. */
  function Encode(f: Frame): Bytes
    requires Sendable(f)
  {
    match f
    case IFrame(s, r, asdu) => NewIFrame(s, r, asdu).value
    case SFrame(r) => NewSFrame(r)
    case UFrame(u) => NewUFrame(u)
  }

  lemma SeqRoundTrip(n: SeqNum)
    ensures SeqOctets(n)[0] % 2 == 0
    ensures DecodeSeq(SeqOctets(n)[0], SeqOctets(n)[1]) == n
  {
    var q, r: int := n / 128, n % 128;
    assert n * 2 == 256 * q + 2 * r && 0 <= 2 * r < 256;
    assert Low(n * 2) == 2 * r && Low(n / 128) == q;
  }

  lemma SeqInverse(lo: Octet, hi: Octet)
    requires lo % 2 == 0
    ensures SeqOctets(DecodeSeq(lo, hi)) == [lo, hi]
  {
    var n: int := DecodeSeq(lo, hi);
    assert n * 2 == lo + 256 * hi;
    assert (n * 2) % 256 == lo;
    assert n / 128 == hi;
  }

  /** What parse understands: an ASDU of any length the length octet can announce. */
  predicate Carriable(f: Frame) {
    f.IFrame? ==> 1 <= |f.asdu| <= 251
  }

  /** The octets of a frame behind any first octet: parse does not look at it. */
  function Apdu(start: Octet, f: Frame): Bytes
    requires Carriable(f)
  {
    match f
    case IFrame(s, r, asdu) => [start, |asdu| + 4] + SeqOctets(s) + SeqOctets(r) + asdu
    case SFrame(r) => [start, 4, 1, 0] + SeqOctets(r)
    case UFrame(u) => [start, 4, FunctionCode(u) + 3, 0, 0, 0]
  }

  lemma NumbersApart(b: Bytes, start: Octet, length: Octet, s: Bytes, r: Bytes, asdu: Bytes)
    requires |s| == |r| == 2 && b == [start, length] + s + r + asdu
    ensures |b| == 6 + |asdu| && b[1] == length && b[6..] == asdu
    ensures b[2] == s[0] && b[3] == s[1] && b[4] == r[0] && b[5] == r[1]
  {
  }

  lemma IFrameParsed(b: Bytes, start: Octet, s: Bytes, r: Bytes, asdu: Bytes)
    requires |s| == |r| == 2 && s[0] % 2 == 0 && r[0] % 2 == 0 && 1 <= |asdu| <= 251
    requires b == [start, |asdu| + 4] + s + r + asdu
    ensures Parse(b) == Ok(IFrame(DecodeSeq(s[0], s[1]), DecodeSeq(r[0], r[1]), asdu))
  {
    NumbersApart(b, start, |asdu| + 4, s, r, asdu);
  }

  lemma SFrameParsed(start: Octet, r: SeqNum)
    ensures Parse([start, 4, 1, 0] + SeqOctets(r)) == Ok(SFrame(r))
  {
    SeqRoundTrip(r);
  }

  lemma ApduParsed(start: Octet, f: Frame)
    requires Carriable(f)
    ensures Parse(Apdu(start, f)) == Ok(f)
  {
    match f
    case IFrame(s, r, asdu) =>
      SeqRoundTrip(s);
      SeqRoundTrip(r);
      IFrameParsed(Apdu(start, f), start, SeqOctets(s), SeqOctets(r), asdu);
    case SFrame(r) => SFrameParsed(start, r);
    case UFrame(_) =>
  }

  /** Every frame the builders produce is parsed back to the very numbers and ASDU it was given. */
  lemma ParseEncode(f: Frame)
    requires Sendable(f)
    ensures Parse(Encode(f)) == Ok(f)
    ensures 6 <= |Encode(f)| <= APDU_SIZE_MAX
    ensures Encode(f)[0] == START_FRAME && Encode(f)[1] == |Encode(f)| - 2
  {
    assert Encode(f) == Apdu(START_FRAME, f);
    ApduParsed(START_FRAME, f);
  }

  lemma ParsedIsApdu(apdu: Bytes, f: Frame)
    requires Parse(apdu) == Ok(f)
    ensures Carriable(f) && apdu != [] && apdu == Apdu(apdu[0], f)
  {
    match f
    case IFrame(_, _, asdu) =>
      SeqInverse(apdu[2], apdu[3]);
      SeqInverse(apdu[4], apdu[5]);
      assert apdu == [apdu[0], apdu[1]] + [apdu[2], apdu[3]] + [apdu[4], apdu[5]] + asdu;
    case SFrame(_) =>
      SeqInverse(apdu[4], apdu[5]);
      assert apdu == [apdu[0], apdu[1], apdu[2], apdu[3]] + [apdu[4], apdu[5]];
    case UFrame(_) =>
      assert apdu == [apdu[0], apdu[1], apdu[2], apdu[3], apdu[4], apdu[5]];
  }

  /**
   * The parser accepts nothing else: octets are accepted as f exactly when they are those of f
   * behind any first octet, so no two strings of octets with one start stand for the same frame. Within the
   * legal size and behind 68H they are what the builders produce.
   */
  lemma ParseExact(apdu: Bytes, f: Frame)
    ensures Parse(apdu) == Ok(f) <==> Carriable(f) && apdu != [] && apdu == Apdu(apdu[0], f)
    ensures |apdu| <= APDU_SIZE_MAX && apdu != [] && apdu[0] == START_FRAME
            ==> (Parse(apdu) == Ok(f) <==> Sendable(f) && apdu == Encode(f))
  {
    if Carriable(f) && apdu != [] && apdu == Apdu(apdu[0], f) {
      ApduParsed(apdu[0], f);
    }
    if Parse(apdu) == Ok(f) {
      ParsedIsApdu(apdu, f);
    }
    if Sendable(f) {
      ParseEncode(f);
    }
  }
}
