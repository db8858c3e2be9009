/** An ASDU as the program holds it: fields that decoding overwrites, and a buffer that encoding fills. */
module AsduUnits {
  import opened Octets
  import opened AsduParams
  import opened AsduCodec
  import opened AsduProofs

  class Unit {
    const params: ValidParams
    const allowTrailing: bool
    var typeId: Octet
    var isSequence: bool
    var number: Octet
    var cause: Octet
    var negative: bool
    var test: bool
    var orig: Octet
    var ca: CommonAddr
    var infoObj: Bytes

    function Value(): Asdu
      reads this
    {
      Asdu(typeId, isSequence, number, cause, negative, test, orig, ca, infoObj)
    }

    constructor (params: ValidParams, allowTrailing: bool, a: Asdu)
      ensures this.params == params && this.allowTrailing == allowTrailing && Value() == a
    {
      this.params, this.allowTrailing := params, allowTrailing;
      typeId, isSequence, number, cause, negative := a.typeId, a.isSequence, a.number, a.cause, a.negative;
      test, orig, ca, infoObj := a.test, a.orig, a.ca, a.infoObj;
    }

    method WriteIdentifier(raw: array<Octet>)
      requires raw.Length >= IdentifierSize(params)
      modifies raw
      ensures raw[..IdentifierSize(params)] == IdentifierOctets(params, Value())
    {
      var variable, coa := VariableValue(isSequence, number), CauseValue(cause, negative, test);
      raw[0], raw[1], raw[2] := typeId, variable, coa;
      var offset := 3;
      if params.causeSize == 2 {
        raw[offset] := orig;
        offset := offset + 1;
      }
      ghost var head := [typeId, variable, coa] + (if params.causeSize == 2 then [orig] else []);
      assert raw[..offset] == head;
      WriteCommonAddr(raw, offset);
      assert raw[..IdentifierSize(params)] == raw[..offset] + raw[offset..offset + params.commonAddrSize];
    }

    method WriteCommonAddr(raw: array<Octet>, offset: nat)
      requires raw.Length >= offset + params.commonAddrSize
      modifies raw
      ensures raw[..offset] == old(raw[..offset])
      ensures raw[offset..offset + params.commonAddrSize] == CommonAddrOctets(params, ca)
    {
      WrittenOut(ca);
      if params.commonAddrSize == 1 {
        raw[offset] := if ca == GLOBAL_COMMON_ADDR then 255 else Low(ca);
      } else {
        raw[offset] := Low(ca);
        raw[offset + 1] := Low(ca / 256);
      }
    }

    /** The identifier is written octet by octet, then the payload is copied behind it. */
    method MarshalBinary() returns (data: Result<Bytes, AsduError>)
      ensures data == Marshal(params, Value())
    {
      var refusal := MarshalRefusal(params, Value());
      if refusal.Some? {
        return Err(refusal.value);
      }
      var raw := new Octet[IdentifierSize(params) + |infoObj|];
      WriteIdentifier(raw);
      CopyPayload(raw, IdentifierSize(params));
      assert raw[..] == IdentifierOctets(params, Value()) + infoObj;
      return Ok(raw[..]);
    }

    method CopyPayload(raw: array<Octet>, n: nat)
      requires raw.Length == n + |infoObj|
      modifies raw
      ensures raw[..] == old(raw[..n]) + infoObj
    {
      forall i | 0 <= i < |infoObj| {
        raw[n + i] := infoObj[i];
      }
    }

    method FixInfoObjSize() returns (err: Option<AsduError>)
      modifies this`infoObj
      ensures match AsduCodec.FixInfoObjSize(params, allowTrailing, old(Value()))
              case Ok(a) => err == None && Value() == a
              case Err(e) => err == Some(e) && Value() == old(Value())
    {
      var segment := SegmentObjSize(params, typeId, infoObj);
      if segment.Some? {
        if segment.value == 0 || segment.value > |infoObj| {
          return Some(EndOfInput);
        }
        if segment.value < |infoObj| && !allowTrailing {
          return Some(TrailingOctets);
        }
        infoObj := infoObj[..segment.value];
        return None;
      }
      var objSize := GetInfoObjSize(typeId);
      if objSize == None {
        return Some(TypeIdentifier);
      }
      var size := ObjectsSize(params, isSequence, number, objSize.value);
      if size == 0 {
        return Some(InfoObjIndexFit);
      }
      if size > |infoObj| {
        return Some(EndOfInput);
      }
      if size < |infoObj| && !allowTrailing {
        return Some(TrailingOctets);
      }
      infoObj := infoObj[..size];
      return None;
    }

    /** All fields are overwritten, also when the payload turns out not to fit; too few octets change nothing. */
    method UnmarshalBinary(raw: Bytes) returns (err: Option<AsduError>)
      modifies this
      ensures match Unmarshal(params, allowTrailing, raw)
              case Ok(a) => err == None && Value() == a
              case Err(e) =>
                && err == Some(e)
                && Value() == if IdentifierSize(params) > |raw| then old(Value()) else Fields(params, raw)
    {
      var n := IdentifierSize(params);
      if n > |raw| {
        return Some(EndOfInput);
      }
      typeId, isSequence, number := raw[0], raw[1] / 128 == 1, raw[1] % 128;
      cause, negative, test := raw[2] % 64, (raw[2] / 64) % 2 == 1, raw[2] / 128 == 1;
      orig := if params.causeSize == 1 then 0 else raw[3];
      ca := CommonAddrOf(raw[n - params.commonAddrSize..n]);
      infoObj := raw[n..];
      assert Value() == Fields(params, raw);
      err := FixInfoObjSize();
    }
  }
}
