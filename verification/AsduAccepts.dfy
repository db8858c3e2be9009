/** Which ASDUs are written and which octets are read, and what is said of the others. */
module AsduAccepts {
  import opened Octets
  import opened AsduParams
  import opened AsduCodec

  /** The octets that information objects of a type take, if the type is known: a segment says it in its length octet. */
  function TypeOctets(p: Params, typeId: Octet, isSequence: bool, number: Octet, objs: Bytes): Option<nat> {
    if typeId == F_SG_NA_1 then
      var header := p.infoObjAddrSize + 4;
      if |objs| < header then None else Some(header + objs[header - 1])
    else
      match GetInfoObjSize(typeId)
      case None => None
      case Some(size) =>
        Some(if isSequence then p.infoObjAddrSize + number * size else number * (p.infoObjAddrSize + size))
  }

  predicate Widths(p: Params) {
    1 <= p.causeSize <= 2 && 1 <= p.commonAddrSize <= 2
  }

  lemma ExpectedIs(p: Params, a: Asdu)
    ensures ExpectedInfoObjLen(p, a) == TypeOctets(p, a.typeId, a.isSequence, a.number, a.infoObj)
  {
  }

  /**
   * An ASDU is written exactly when nothing that must be given is zero, its address fits, it is no longer than 249
   * octets, and its objects are as long as its type says.
   */
  lemma WrittenExactlyWhen(p: Params, a: Asdu)
    ensures
      Marshal(p, a).Ok? <==>
        && Widths(p) && a.cause != 0 && a.typeId != 0 && a.number != 0 && CommonAddrFits(p, a.ca)
        && 2 + p.causeSize + p.commonAddrSize + |a.infoObj| <= 249
        && var n := TypeOctets(p, a.typeId, a.isSequence, a.number, a.infoObj); n == None || n == Some(|a.infoObj|)
  {
    hide GetInfoObjSize;
    ExpectedIs(p, a);
  }

  /** What is wrong is said field by field, in the order the fields are looked at. */
  lemma WriteRefusalSays(p: Params, a: Asdu)
    ensures
      var r := Marshal(p, a);
      && (a.cause == 0 ==> r == Err(CauseZero))
      && (a.cause != 0 && (p.causeSize < 1 || p.causeSize > 2) ==> r == Err(BadParam))
      && (a.cause != 0 && 1 <= p.causeSize <= 2 && a.ca == 0 ==> r == Err(CommonAddrZero))
      && (a.cause != 0 && 1 <= p.causeSize <= 2 && a.ca != 0 && !(Widths(p) && CommonAddrFits(p, a.ca))
          ==> r == Err(BadParam))
      && (a.cause != 0 && Widths(p) && CommonAddrFits(p, a.ca) ==>
            && (a.typeId == 0 ==> r == Err(TypeIdZero))
            && (a.typeId != 0 && a.number == 0 ==> r == Err(InfoObjCountZero))
            && (a.typeId != 0 && a.number != 0 ==>
                  var n, total := TypeOctets(p, a.typeId, a.isSequence, a.number, a.infoObj),
                                  2 + p.causeSize + p.commonAddrSize + |a.infoObj|;
                  && (total > 249 ==> r == Err(LengthOutOfRange))
                  && (total <= 249 && n.Some? && n.value != |a.infoObj| ==> r == Err(InfoObjSizeMismatch))))
  {
    hide GetInfoObjSize;
    ExpectedIs(p, a);
  }

  /** What the third octet says of the objects that follow the identifier. */
  function Announced(p: Params, raw: Bytes): Option<nat>
    requires Widths(p) && 2 + p.causeSize + p.commonAddrSize <= |raw|
  {
    TypeOctets(p, raw[0], raw[1] >= 128, raw[1] % 128, raw[2 + p.causeSize + p.commonAddrSize..])
  }

  lemma FixIs(p: Params, allowTrailing: bool, a: Asdu)
    ensures
      var r, n := FixInfoObjSize(p, allowTrailing, a), TypeOctets(p, a.typeId, a.isSequence, a.number, a.infoObj);
      match n
      case None => r == Err(if a.typeId == F_SG_NA_1 then EndOfInput else TypeIdentifier)
      case Some(size) =>
        if size == 0 then r == Err(InfoObjIndexFit)
        else if size > |a.infoObj| then r == Err(EndOfInput)
        else if size < |a.infoObj| && !allowTrailing then r == Err(TrailingOctets)
        else r == Ok(a.(infoObj := a.infoObj[..size]))
  {
  }

  /**
   * Octets are read exactly when the identifier is there, the type is known, and the objects it announces are there
   * too, with no octet behind them unless that is allowed.
   */
  lemma ReadExactlyWhen(p: Params, allowTrailing: bool, raw: Bytes)
    ensures
      Unmarshal(p, allowTrailing, raw).Ok? <==>
        && Widths(p) && 2 + p.causeSize + p.commonAddrSize <= |raw| && Announced(p, raw).Some?
        && var n, there := Announced(p, raw).value, |raw| - (2 + p.causeSize + p.commonAddrSize);
           0 < n <= there && (n == there || allowTrailing)
  {
    hide GetInfoObjSize, FixInfoObjSize;
    if Widths(p) && IdentifierSize(p) <= |raw| {
      FixIs(p, allowTrailing, Fields(p, raw));
    }
  }

  /** What is wrong with octets that are not read. */
  lemma ReadRefusalSays(p: Params, allowTrailing: bool, raw: Bytes)
    ensures
      var r, head := Unmarshal(p, allowTrailing, raw), 2 + p.causeSize + p.commonAddrSize;
      && (!Widths(p) ==> r == Err(BadParam))
      && (Widths(p) && |raw| < head ==> r == Err(EndOfInput))
      && (Widths(p) && head <= |raw| ==>
            match Announced(p, raw)
            case None => r == Err(if raw[0] == F_SG_NA_1 then EndOfInput else TypeIdentifier)
            case Some(n) =>
              && (n == 0 ==> r == Err(InfoObjIndexFit))
              && (n > |raw| - head ==> r == Err(EndOfInput))
              && (0 < n < |raw| - head && !allowTrailing ==> r == Err(TrailingOctets)))
  {
    hide GetInfoObjSize, FixInfoObjSize;
    if Widths(p) && IdentifierSize(p) <= |raw| {
      FixIs(p, allowTrailing, Fields(p, raw));
    }
  }
}
