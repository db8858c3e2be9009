/** The secondary station as the program runs it. */
module Servers101 {
  import opened Octets
  import opened Link101

  class Server {
    const linkAddress: Addr
    const linkAddrSize: nat
    const maxSendQueueSize: nat
    var linkActive: bool
    var fcbExpected: bool
    var lastResp: Option<Response>
    var class1: seq<Bytes>
    var class2: seq<Bytes>
    var sendFrame: seq<Response>
    var handlerPayload: seq<Bytes>

    ghost function St(): Sec
      reads this
    {
      Sec(fcbExpected, lastResp, linkActive, class1, class2)
    }

    /** The new state, what was put on the line and what was handed to the application. */
    twostate predicate Did(d: SecDone)
      reads this
    {
      && St() == d.st
      && sendFrame == old(sendFrame) + (if d.resp.Some? then [d.resp.value] else [])
      && handlerPayload == old(handlerPayload) + d.handed
    }

    constructor (linkAddress: Addr, linkAddrSize: nat, maxSendQueueSize: nat)
      ensures this.linkAddress == linkAddress && this.linkAddrSize == linkAddrSize
      ensures this.maxSendQueueSize == maxSendQueueSize
      ensures St() == SEC_START && sendFrame == [] && handlerPayload == []
    {
      this.linkAddress, this.linkAddrSize, this.maxSendQueueSize := linkAddress, linkAddrSize, maxSendQueueSize;
      linkActive, fcbExpected, lastResp := false, true, None;
      class1, class2, sendFrame, handlerPayload := [], [], [], [];
    }

    /** Periodic and background data go to class 2, everything else to class 1. */
    method Send(asdu: Bytes, periodic: bool) returns (ok: bool)
      modifies this`class1, this`class2
      ensures ok == (|if periodic then old(class2) else old(class1)| < maxSendQueueSize)
      ensures class1 == old(class1) + (if ok && !periodic then [asdu] else [])
      ensures class2 == old(class2) + (if ok && periodic then [asdu] else [])
    {
      if periodic {
        ok := |class2| < maxSendQueueSize;
        if ok { class2 := class2 + [asdu]; }
      } else {
        ok := |class1| < maxSendQueueSize;
        if ok { class1 := class1 + [asdu]; }
      }
    }

    method SendResp(r: Response)
      modifies this`lastResp, this`sendFrame
      ensures lastResp == Some(r) && sendFrame == old(sendFrame) + [r]
    {
      lastResp := Some(r);
      sendFrame := sendFrame + [r];
    }

    method SendLinkAck()
      modifies this`lastResp, this`sendFrame
      ensures lastResp == Some(LinkAck(linkAddress, St())) && sendFrame == old(sendFrame) + [LinkAck(linkAddress, St())]
    {
      SendResp(Response(linkAddress, ConfAck, class1 != [], false, []));
    }

    method PopClassData(wantClass1: bool) returns (a: Option<Bytes>)
      modifies this`class1, this`class2
      ensures var (s, pop) := Link101.PopClassData(old(St()), wantClass1);
              St() == s && a == (if pop.Some? then Some(pop.value.asdu) else None)
    {
      if wantClass1 && class1 != [] {
        a, class1 := Some(class1[0]), class1[1..];
      } else if class2 != [] {
        a, class2 := Some(class2[0]), class2[1..];
      } else if class1 != [] {
        a, class1 := Some(class1[0]), class1[1..];
      } else {
        a := None;
      }
    }

    method RespondClassData(wantClass1: bool)
      modifies this
      ensures Did(Link101.RespondClassData(linkAddress, old(St()), wantClass1))
    {
      var a := PopClassData(wantClass1);
      match a {
        case None => SendResp(Response(linkAddress, NoData, false, false, []));
        case Some(asdu) => SendResp(Response(linkAddress, UserData, class1 != [], false, asdu));
      }
    }

    method Serve(req: Request)
      modifies this
      ensures Did(SecServe(linkAddress, old(St()), req))
    {
      match req.fun {
        case ResetLink =>
          fcbExpected := true;
          lastResp := None;
          SendLinkAck();
          linkActive := true;
        case ResetUser | TestLink => SendLinkAck();
        case UserDataConf =>
          if req.fcv {
            handlerPayload := handlerPayload + [req.asdu];
            SendLinkAck();
          }
        case UserDataNoConf => handlerPayload := handlerPayload + [req.asdu];
        case ReqAccess | ReqStatus => SendResp(Response(linkAddress, RespStatus, class1 != [], false, []));
        case ReqData1 => RespondClassData(true);
        case ReqData2 => RespondClassData(false);
        case OtherFc => SendResp(Response(linkAddress, LinkNI, false, false, []));
      }
    }

    method HandleIncomingFrame(req: Request)
      modifies this
      ensures Did(SecReceive(linkAddress, linkAddrSize, old(St()), req))
    {
      if linkAddrSize > 0 {
        if Broadcast(req.addr, linkAddrSize) {
          if req.fun == UserDataNoConf {
            handlerPayload := handlerPayload + [req.asdu];
          }
          return;
        }
        if req.addr != linkAddress {
          return;
        }
      }
      if req.fcv {
        if req.fcb != fcbExpected {
          if lastResp.Some? {
            sendFrame := sendFrame + [lastResp.value];
          } else {
            SendLinkAck();
          }
          return;
        }
        fcbExpected := !fcbExpected;
      }
      Serve(req);
    }
  }
}
