/** The system parameters of the application layer: the widths of the address and cause fields. */
module AsduParams {

  const ASDU_SIZE_MAX := 249
  const GLOBAL_COMMON_ADDR := 65535

  datatype Params = Params(causeSize: nat, commonAddrSize: nat, infoObjAddrSize: nat)

  predicate InStandard(p: Params) {
    1 <= p.causeSize <= 2 && 1 <= p.commonAddrSize <= 2 && 1 <= p.infoObjAddrSize <= 3
  }

  /** Parameters that Params.Valid accepts. */
  type ValidParams = p: Params | InStandard(p) witness Params(2, 2, 3)

  function IdentifierSize(p: Params): nat {
    2 + p.causeSize + p.commonAddrSize
  }

  predicate InfoObjAddrFits(p: Params, ioa: nat) {
    match p.infoObjAddrSize
    case 1 => ioa <= 255
    case 2 => ioa <= 65535
    case 3 => ioa <= 16777215
    case _ => false
  }

  /** What MarshalBinary demands of the common address. */
  predicate CommonAddrFits(p: Params, ca: nat) {
    0 < ca <= GLOBAL_COMMON_ADDR && (p.commonAddrSize == 1 ==> ca == GLOBAL_COMMON_ADDR || ca < 255)
  }

  function AtMost(n: nat, bound: nat): nat {
    if n > bound then bound else n
  }

  /** The largest segment payload an ASDU can carry; LOS is a single octet. */
  function MaxSegmentSize(p: Params): nat {
    var n := ASDU_SIZE_MAX - IdentifierSize(p) - p.infoObjAddrSize - 4;
    if n < 0 then 0 else AtMost(n, 255)
  }
}
