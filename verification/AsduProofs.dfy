/** The encoder and the decoder of an ASDU agree, and its frame can carry it. */
module AsduProofs {
  import opened Octets
  import opened AsduParams
  import opened AsduCodec
  import Apci
  import Ft12
  import SeqNo

  lemma VariableRoundTrip(isSequence: bool, number: Octet)
    ensures var v := VariableValue(isSequence, number);
            (v / 128 == 1) == isSequence && v % 128 == number <==> number < 128
  {
  }

  lemma CauseRoundTrip(cause: Octet, negative: bool, test: bool)
    requires cause < 64
    ensures var v := CauseValue(cause, negative, test);
            v % 64 == cause && ((v / 64) % 2 == 1) == negative && (v / 128 == 1) == test
  {
  }

  lemma CommonAddrRoundTrip(p: ValidParams, ca: CommonAddr)
    requires p.commonAddrSize == 1 ==> ca == GLOBAL_COMMON_ADDR || ca < 255
    ensures |CommonAddrOctets(p, ca)| == p.commonAddrSize
    ensures CommonAddrOf(CommonAddrOctets(p, ca)) == ca
  {
    if p.commonAddrSize == 2 {
      Capacities();
      LittleJoins(ca, 2);
    }
  }

  /** What the octets of an identifier read as: the identifier, but for an originator there is no room for. */
  function Normal(p: Params, a: Asdu): Asdu {
    a.(orig := if p.causeSize == 1 then 0 else a.orig)
  }

  lemma IdentifierLength(p: ValidParams, a: Asdu)
    ensures |IdentifierOctets(p, a)| == IdentifierSize(p)
  {
  }

  /** The octets of an ASDU, whether or not MarshalBinary would write them. */
  function Wire(p: Params, a: Asdu): Bytes {
    IdentifierOctets(p, a) + a.infoObj
  }

  lemma WireRead(p: ValidParams, a: Asdu)
    requires p.commonAddrSize == 1 ==> a.ca == GLOBAL_COMMON_ADDR || a.ca < 255
    ensures
      var raw := Wire(p, a);
      && |raw| >= IdentifierSize(p)
      && var f := Fields(p, raw);
         && f == a.(isSequence := f.isSequence, number := f.number, cause := f.cause,
                    negative := f.negative, test := f.test, orig := Normal(p, a).orig)
         && f.isSequence == (VariableValue(a.isSequence, a.number) / 128 == 1)
         && f.number == VariableValue(a.isSequence, a.number) % 128
         && f.cause == CauseValue(a.cause, a.negative, a.test) % 64
         && f.negative == ((CauseValue(a.cause, a.negative, a.test) / 64) % 2 == 1)
         && f.test == (CauseValue(a.cause, a.negative, a.test) / 128 == 1)
  {
    var raw, n := Wire(p, a), IdentifierSize(p);
    IdentifierLength(p, a);
    CommonAddrRoundTrip(p, a.ca);
    assert raw[n - p.commonAddrSize..n] == CommonAddrOctets(p, a.ca);
    assert raw[n..] == a.infoObj;
  }

  lemma FieldsRead(p: ValidParams, a: Asdu)
    requires Marshal(p, a).Ok?
    ensures var raw := Marshal(p, a).value;
            var f := Fields(p, raw);
            |raw| >= IdentifierSize(p) && f == a.(isSequence := f.isSequence, number := f.number, cause := f.cause,
                                                 negative := f.negative, test := f.test, orig := Normal(p, a).orig)
            && f.isSequence == (VariableValue(a.isSequence, a.number) / 128 == 1)
            && f.number == VariableValue(a.isSequence, a.number) % 128
            && f.cause == CauseValue(a.cause, a.negative, a.test) % 64
            && f.negative == ((CauseValue(a.cause, a.negative, a.test) / 64) % 2 == 1)
            && f.test == (CauseValue(a.cause, a.negative, a.test) / 128 == 1)
  {
    assert Marshal(p, a).value == Wire(p, a);
    WireRead(p, a);
  }

  /** The identifier survives the wire exactly when count and cause fit their bits. */
  lemma FieldsSurviveExactlyWhen(p: ValidParams, a: Asdu)
    requires Marshal(p, a).Ok?
    ensures Fields(p, Marshal(p, a).value) == Normal(p, a) <==> a.number < 128 && a.cause < 64
  {
    FieldsRead(p, a);
    VariableRoundTrip(a.isSequence, a.number);
    if a.cause < 64 {
      CauseRoundTrip(a.cause, a.negative, a.test);
    }
  }

  /** Is the size of the information objects known to the decoder? */
  predicate SizeKnown(p: Params, a: Asdu) {
    ExpectedInfoObjLen(p, a).Some?
  }

  lemma FixKeeps(p: ValidParams, allowTrailing: bool, a: Asdu)
    requires a.number > 0 && (SizeKnown(p, a) ==> ExpectedInfoObjLen(p, a).value == |a.infoObj|)
    ensures if SizeKnown(p, a) then FixInfoObjSize(p, allowTrailing, a) == Ok(a)
        else FixInfoObjSize(p, allowTrailing, a).Err?
  {
    if SizeKnown(p, a) {
      if SegmentObjSize(p, a.typeId, a.infoObj) == None {
        SizePositive(p, a.isSequence, a.number, GetInfoObjSize(a.typeId).value);
      }
      assert a.infoObj[..|a.infoObj|] == a.infoObj;
    }
  }

  lemma SizePositive(p: ValidParams, isSequence: bool, number: nat, objSize: nat)
    requires number > 0
    ensures ObjectsSize(p, isSequence, number, objSize) > 0
  {
    if !isSequence {
      assert number * (p.infoObjAddrSize + objSize) >= 1 * 1;
    }
  }

  /**
   * Whatever MarshalBinary accepts, UnmarshalBinary accepts and returns unchanged - but for an
   * originator where there is none on the wire - exactly when the size of the type is known and
   * count and cause fit their bits.
   */
  lemma DecoderAgreesExactlyWhen(p: ValidParams, allowTrailing: bool, a: Asdu)
    requires Marshal(p, a).Ok?
    ensures Unmarshal(p, allowTrailing, Marshal(p, a).value) == Ok(Normal(p, a))
            <==> SizeKnown(p, a) && a.number < 128 && a.cause < 64
  {
    IdentifierLength(p, a);
    FieldsSurviveExactlyWhen(p, a);
    FieldsRead(p, a);
    var f := Fields(p, Marshal(p, a).value);
    if f == Normal(p, a) {
      FixKeeps(p, allowTrailing, f);
      assert ExpectedInfoObjLen(p, f) == ExpectedInfoObjLen(p, a);
    } else {
      FixChangesOnlyPayload(p, allowTrailing, f);
    }
  }

  lemma FixChangesOnlyPayload(p: ValidParams, allowTrailing: bool, a: Asdu)
    ensures FixInfoObjSize(p, allowTrailing, a).Ok? ==>
              FixInfoObjSize(p, allowTrailing, a).value == a.(infoObj := FixInfoObjSize(p, allowTrailing,
                  a).value.infoObj)
  {
  }

  lemma IdentifierOfFields(p: ValidParams, raw: Bytes)
    requires IdentifierSize(p) <= |raw|
    ensures IdentifierOctets(p, Fields(p, raw)) == raw[..IdentifierSize(p)]
  {
    var f, n := Fields(p, raw), IdentifierSize(p);
    assert VariableValue(f.isSequence, f.number) == raw[1];
    CauseOctet(raw[2]);
    CommonAddrInverse(p, raw[n - p.commonAddrSize..n]);
    assert raw[..n] == [raw[0], raw[1], raw[2]] + (if p.causeSize == 2 then [raw[3]]
        else []) + raw[n - p.commonAddrSize..n];
  }

  lemma CauseOctet(b: Octet)
    ensures CauseValue(b % 64, (b / 64) % 2 == 1, b / 128 == 1) == b
  {
  }

  lemma CommonAddrInverse(p: ValidParams, octets: Bytes)
    requires |octets| == p.commonAddrSize
    ensures CommonAddrOctets(p, CommonAddrOf(octets)) == octets
  {
    JoinedLittle(octets);
  }

  lemma SizeOfAccepted(p: ValidParams, allowTrailing: bool, f: Asdu)
    requires FixInfoObjSize(p, allowTrailing, f).Ok?
    ensures
      var a := FixInfoObjSize(p, allowTrailing, f).value;
      && a == f.(infoObj := a.infoObj) && a.infoObj <= f.infoObj && (!allowTrailing ==> a.infoObj == f.infoObj)
      && ExpectedInfoObjLen(p, a) == Some(|a.infoObj|) && a.typeId != 0
  {
  }

  lemma MarshalAccepted(p: ValidParams, a: Asdu)
    requires ExpectedInfoObjLen(p, a) == Some(|a.infoObj|) && a.typeId != 0
    requires p.commonAddrSize == 1 ==> a.ca == GLOBAL_COMMON_ADDR || a.ca < 255
    ensures Marshal(p, a) == Ok(Wire(p, a))
            <==> a.cause != 0 && a.ca != 0 && a.number != 0 && |Wire(p, a)| <= ASDU_SIZE_MAX
  {
    IdentifierLength(p, a);
  }

  lemma PrefixSplit(head: Bytes, a: Bytes, raw: Bytes, n: nat)
    requires n <= |raw| && head == raw[..n] && a <= raw[n..]
    ensures head + a <= raw && (a == raw[n..] ==> head + a == raw)
  {
    assert raw == raw[..n] + raw[n..];
  }

  /**
   * What UnmarshalBinary accepts is the encoding of what it returns, up to trailing octets, so the encoding
   * is unique; MarshalBinary writes it again if and only if no field it insists on is zero and it is not too
   * long.
   */
  lemma AcceptedIsMarshalled(p: ValidParams, allowTrailing: bool, raw: Bytes)
    requires Unmarshal(p, allowTrailing, raw).Ok?
    ensures
      var a := Unmarshal(p, allowTrailing, raw).value;
      && Wire(p, a) <= raw && (!allowTrailing ==> Wire(p, a) == raw)
      && (Marshal(p, a) == Ok(Wire(p, a))
          <==> a.cause != 0 && a.ca != 0 && a.number != 0 && |Wire(p, a)| <= ASDU_SIZE_MAX)
  {
    var f, a := Fields(p, raw), Unmarshal(p, allowTrailing, raw).value;
    SizeOfAccepted(p, allowTrailing, f);
    IdentifierOfFields(p, raw);
    PrefixSplit(IdentifierOctets(p, f), a.infoObj, raw, IdentifierSize(p));
    MarshalAccepted(p, a);
  }

  /** A marshalled ASDU is never refused by the frame that has to carry it, on either kind of line. */
  lemma MarshalledFitsFrames(p: ValidParams, a: Asdu, sendSN: SeqNo.SeqNum, rcvSN: SeqNo.SeqNum, control: Octet,
      linkAddr: Bytes)
    requires Marshal(p, a).Ok? && |linkAddr| <= 2
    ensures Apci.Fits(Marshal(p, a).value)
    ensures Apci.NewIFrame(sendSN, rcvSN, Marshal(p, a).value).Some?
    ensures Apci.Parse(Apci.NewIFrame(sendSN, rcvSN, Marshal(p, a).value).value)
        == Ok(Apci.IFrame(sendSN, rcvSN, Marshal(p, a).value))
    ensures Ft12.Marshal(|linkAddr|, Ft12.Variable(control, linkAddr, Marshal(p, a).value)).Ok?
  {
    IdentifierLength(p, a);
    Apci.ParseEncode(Apci.IFrame(sendSN, rcvSN, Marshal(p, a).value));
  }
}
