/**
 * Application service data units: the identifier, the size of the information objects, and both directions of
 * the codec.
 */
module AsduCodec {
  import opened Octets
  import opened AsduParams

  const F_SG_NA_1: Octet := 125

  type CommonAddr = x: nat | x < 0x1_0000

  datatype Asdu = Asdu(
    typeId: Octet, isSequence: bool, number: Octet, cause: Octet, negative: bool, test: bool,
    orig: Octet, ca: CommonAddr, infoObj: Bytes)

  datatype AsduError =
    | CauseZero | CommonAddrZero | BadParam | TypeIdZero | InfoObjCountZero | LengthOutOfRange | InfoObjSizeMismatch
    | EndOfInput | TypeIdentifier | TrailingOctets | InfoObjIndexFit | InfoObjAddrFit | NotAnyObjInfo | TypeIdNotMatch

  /** The octets of one information object after its address, by type identification. */
  function GetInfoObjSize(id: nat): Option<nat> {
    match id
    case 102 => Some(0)
    case 1 | 3 | 45 | 46 | 47 | 70 | 100 | 101 | 105 | 113 => Some(1)
    case 5 | 21 | 104 | 106 => Some(2)
    case 9 | 11 | 48 | 49 | 110 | 111 => Some(3)
    case 2 | 4 | 51 | 122 | 124 => Some(4)
    case 6 | 7 | 13 | 15 | 20 | 50 | 112 | 123 => Some(5)
    case 10 | 12 | 17 | 120 => Some(6)
    case 18 | 19 | 103 | 121 => Some(7)
    case 8 | 14 | 16 | 30 | 31 | 58 | 59 | 60 => Some(8)
    case 32 | 107 => Some(9)
    case 34 | 35 | 38 | 61 | 62 => Some(10)
    case 39 | 40 | 64 => Some(11)
    case 33 | 36 | 37 | 63 => Some(12)
    case 126 => Some(13)
    case _ => None
  }

  // ---- identifier octets ----

  /** v | bit, for a bit of the given weight. */
  function SetBit(v: nat, weight: nat): nat
    requires weight > 0
  {
    if (v / weight) % 2 == 1 then v else v + weight
  }

  function VariableValue(isSequence: bool, number: Octet): Octet {
    Low(if isSequence then SetBit(number, 128) else number)
  }

  function CauseValue(cause: Octet, negative: bool, test: bool): Octet {
    var v := if negative then SetBit(cause, 64) else cause;
    Low(if test then SetBit(v, 128) else v)
  }

  function CommonAddrOctets(p: Params, ca: CommonAddr): Bytes {
    if p.commonAddrSize == 1 then [if ca == GLOBAL_COMMON_ADDR then 255 else Low(ca)] else Little(ca, 2)
  }

  function CommonAddrOf(octets: Bytes): CommonAddr
    requires |octets| == 1 || |octets| == 2
  {
    Capacities();
    if |octets| == 1 then if octets[0] == 255 then GLOBAL_COMMON_ADDR else octets[0] else Joined(octets)
  }

  function IdentifierOctets(p: Params, a: Asdu): Bytes {
    [a.typeId, VariableValue(a.isSequence, a.number), CauseValue(a.cause, a.negative, a.test)]
    + (if p.causeSize == 2 then [a.orig] else []) + CommonAddrOctets(p, a.ca)
  }

  // ---- sizes ----

  /** variableInfoObjSize: a segment carries its own length; None for every other type, 0 when the octet is missing. */
  function SegmentObjSize(p: Params, typeId: nat, infoObj: Bytes): Option<nat> {
    if typeId != F_SG_NA_1 then None
    else if |infoObj| < p.infoObjAddrSize + 4 then Some(0)
    else Some(Added(p.infoObjAddrSize + 4, infoObj[p.infoObjAddrSize + 3]))
  }

  function Added(m: nat, n: nat): nat {
    m + n
  }

  function ObjectsSize(p: Params, isSequence: bool, number: nat, objSize: nat): nat {
    if isSequence then p.infoObjAddrSize + number * objSize else number * (p.infoObjAddrSize + objSize)
  }

  /** expectedInfoObjLen: None when it is not knowable. */
  function ExpectedInfoObjLen(p: Params, a: Asdu): Option<nat> {
    match SegmentObjSize(p, a.typeId, a.infoObj)
    case Some(size) => if size == 0 then None else Some(size)
    case None =>
      match GetInfoObjSize(a.typeId)
      case None => None
      case Some(objSize) => Some(ObjectsSize(p, a.isSequence, a.number, objSize))
  }

  /** FixInfoObjSize: the payload, or its head when trailing octets are allowed. */
  function FixInfoObjSize(p: Params, allowTrailing: bool, a: Asdu): Result<Asdu, AsduError> {
    var segment := SegmentObjSize(p, a.typeId, a.infoObj);
    if segment == None && GetInfoObjSize(a.typeId) == None then Err(TypeIdentifier)
    else
      var size := if segment.Some? then segment.value else ObjectsSize(p, a.isSequence, a.number,
          GetInfoObjSize(a.typeId).value);
      if size == 0 then Err(if segment.Some? then EndOfInput else InfoObjIndexFit)
      else if size > |a.infoObj| then Err(EndOfInput)
      else if size < |a.infoObj| && !allowTrailing then Err(TrailingOctets)
      else Ok(a.(infoObj := a.infoObj[..size]))
  }

  // ---- both directions ----

  function MarshalRefusal(p: Params, a: Asdu): Option<AsduError> {
    if a.cause == 0 then Some(CauseZero)
    else if p.causeSize != 1 && p.causeSize != 2 then Some(BadParam)
    else if a.ca == 0 then Some(CommonAddrZero)
    else if p.commonAddrSize != 1 && p.commonAddrSize != 2 then Some(BadParam)
    else if p.commonAddrSize == 1 && a.ca != GLOBAL_COMMON_ADDR && a.ca >= 255 then Some(BadParam)
    else if a.typeId == 0 then Some(TypeIdZero)
    else if a.number == 0 then Some(InfoObjCountZero)
    else if IdentifierSize(p) + |a.infoObj| > ASDU_SIZE_MAX then Some(LengthOutOfRange)
    else if ExpectedInfoObjLen(p, a).Some? && ExpectedInfoObjLen(p, a).value != |a.infoObj| then Some(InfoObjSizeMismatch)
    else None
  }

  function Marshal(p: Params, a: Asdu): Result<Bytes, AsduError> {
    var refusal := MarshalRefusal(p, a);
    if refusal.Some? then Err(refusal.value) else Ok(IdentifierOctets(p, a) + a.infoObj)
  }

  /** The fields read from the octets, before the payload is checked. */
  function Fields(p: Params, raw: Bytes): Asdu
    requires 1 <= p.causeSize <= 2 && 1 <= p.commonAddrSize <= 2 && IdentifierSize(p) <= |raw|
  {
    var n := IdentifierSize(p);
    Asdu(raw[0], raw[1] / 128 == 1, raw[1] % 128, raw[2] % 64, (raw[2] / 64) % 2 == 1, raw[2] / 128 == 1,
         if p.causeSize == 1 then 0 else raw[3], CommonAddrOf(raw[n - p.commonAddrSize..n]), raw[n..])
  }

  function Unmarshal(p: Params, allowTrailing: bool, raw: Bytes): Result<Asdu, AsduError> {
    if !(1 <= p.causeSize <= 2 && 1 <= p.commonAddrSize <= 2) then Err(BadParam)
    else if IdentifierSize(p) > |raw| then Err(EndOfInput)
    else FixInfoObjSize(p, allowTrailing, Fields(p, raw))
  }
}
