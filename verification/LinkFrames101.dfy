/** The requests and answers of the link layer as FT1.2 frames. */
module LinkFrames101 {
  import opened Octets
  import opened Ft12
  import opened Ft12Proofs
  import opened Link101

  function PrimCode(f: PrimFc): (c: nat)
    ensures c < 16
  {
    match f
    case ResetLink => 0
    case ResetUser => 1
    case TestLink => 2
    case UserDataConf => 3
    case UserDataNoConf => 4
    case ReqAccess => 8
    case ReqStatus => 9
    case ReqData1 => 10
    case ReqData2 => 11
    case OtherFc => 15
  }

  function PrimOf(c: nat): PrimFc {
    if c == 0 then ResetLink else if c == 1 then ResetUser else if c == 2 then TestLink
    else if c == 3 then UserDataConf else if c == 4 then UserDataNoConf else if c == 8 then ReqAccess
    else if c == 9 then ReqStatus else if c == 10 then ReqData1 else if c == 11 then ReqData2 else OtherFc
  }

  function SecCode(f: SecFc): (c: nat)
    ensures c < 16
  {
    match f
    case ConfAck => 0
    case ConfNack => 1
    case UserData => 8
    case NoData => 9
    case RespStatus => 11
    case LinkNF => 14
    case LinkNI => 15
  }

  function SecOf(c: nat): Option<SecFc> {
    if c == 0 then Some(ConfAck) else if c == 1 then Some(ConfNack) else if c == 8 then Some(UserData)
    else if c == 9 then Some(NoData) else if c == 11 then Some(RespStatus) else if c == 14 then Some(LinkNF)
    else if c == 15 then Some(LinkNI) else None
  }

  /** encodeLinkAddr: low octet first. */
  function AddrOctets(size: nat, a: Addr): Bytes {
    if size <= 2 then Little(a, size) else []
  }

  /** GetLinkAddress */
  function AddrOf(octets: Bytes): Addr {
    if |octets| <= 2 then Joined(octets) else 0
  }

  predicate AddrFits(size: nat, a: Addr) {
    (size == 1 && a < 256) || (size == 2 && a < 65536)
  }

  predicate CarriesData(fun: PrimFc) {
    fun == UserDataConf || fun == UserDataNoConf
  }

  /** User data goes in a variable frame, everything else in a fixed one. */
  function RequestFrame(size: nat, r: Request): Frame {
    var control := ControlValue(ControlField(false, true, r.fcv && r.fcb, r.fcv, false, false, PrimCode(r.fun)));
    if CarriesData(r.fun) then Variable(control, AddrOctets(size, r.addr), r.asdu)
    else Fixed(control, AddrOctets(size, r.addr))
  }

  function ResponseFrame(size: nat, r: Response): Frame {
    var control := ControlValue(ControlField(false, false, false, false, r.acd, r.dfc, SecCode(r.fun)));
    if r.fun == UserData then Variable(control, AddrOctets(size, r.addr), r.asdu)
    else Fixed(control, AddrOctets(size, r.addr))
  }

  /** How the secondary reads a frame. */
  function AsRequest(f: Frame): Option<Request> {
    if f.SingleChar? then None
    else
      var cf := ParseControlField(f.control);
      if !cf.prm then None
      else Some(Request(AddrOf(f.linkAddr), PrimOf(cf.fun), cf.fcv, cf.fcb, if f.Variable? then f.asdu else []))
  }

  /** The answer of one of this library's stations that a frame stands for. */
  function AsResponse(f: Frame): Option<Response> {
    if f.SingleChar? then None
    else
      var cf := ParseControlField(f.control);
      var fun := SecOf(cf.fun);
      if cf.prm || fun == None then None
      else Some(Response(AddrOf(f.linkAddr), fun.value, cf.acd, cf.dfc, if f.Variable? then f.asdu else []))
  }

  lemma AddrRoundTrip(size: nat, a: Addr)
    requires AddrFits(size, a)
    ensures AddrOf(AddrOctets(size, a)) == a && |AddrOctets(size, a)| == size
  {
    Capacities();
    LittleJoins(a, size);
  }

  /** A broadcast is what goes to the address whose octets are all ones. */
  lemma BroadcastIsAllOnes(size: nat, a: Addr)
    requires AddrFits(size, a)
    ensures Broadcast(a, size) <==> AddrOctets(size, a) == if size == 1 then [0xFF] else [0xFF, 0xFF]
  {
    WrittenOut(a);
    if size == 2 {
      assert AddrOctets(size, a)[0] == a % 256 && AddrOctets(size, a)[1] == a / 256 % 256;
    } else {
      assert AddrOctets(size, a)[0] == a % 256;
    }
  }

  /** What the primary sends is what the station reads from the line. */
  lemma RequestCrossesLine(size: nat, r: Request, rest: Bytes)
    requires AddrFits(size, r.addr) && r.fun != OtherFc && (r.fcb ==> r.fcv)
    requires if CarriesData(r.fun) then |r.asdu| <= MAX_LENGTH_FIELD - 1 - size else r.asdu == []
    ensures Marshal(size, RequestFrame(size, r)).Ok?
    ensures var p := Parse(size, Marshal(size, RequestFrame(size, r)).value + rest);
            p.frame.Ok? && AsRequest(p.frame.value) == Some(r)
  {
    AddrRoundTrip(size, r.addr);
    ControlFieldRoundTrip(ControlField(false, true, r.fcv && r.fcb, r.fcv, false, false, PrimCode(r.fun)));
    var f := RequestFrame(size, r);
    assert Marshal(size, f).Ok?;
    ParseWire(size, f, rest);
  }

  /** What a station answers is what the primary reads from the line. */
  lemma ResponseCrossesLine(size: nat, r: Response, rest: Bytes)
    requires AddrFits(size, r.addr)
    requires if r.fun == UserData then |r.asdu| <= MAX_LENGTH_FIELD - 1 - size else r.asdu == []
    ensures Marshal(size, ResponseFrame(size, r)).Ok?
    ensures var p := Parse(size, Marshal(size, ResponseFrame(size, r)).value + rest);
            p.frame == Ok(ResponseFrame(size, r)) && AsResponse(p.frame.value) == Some(r)
  {
    AddrRoundTrip(size, r.addr);
    ControlFieldRoundTrip(ControlField(false, false, false, false, r.acd, r.dfc, SecCode(r.fun)));
    var f := ResponseFrame(size, r);
    assert Marshal(size, f).Ok?;
    ParseWire(size, f, rest);
  }
}
