/** What a station answers to which request, and from which of its buffers. */
module LinkAnswers101 {
  import opened Octets
  import opened Link101
  import opened LinkNet101
  import opened LinkProof101
  import opened LinkTheorems101

  /** A request for this station that it has not taken before. */
  predicate Fresh(own: Addr, size: nat, s: Sec, req: Request) {
    && !(size > 0 && Broadcast(req.addr, size)) && (size > 0 ==> req.addr == own)
    && (req.fcv ==> req.fcb == s.fcbExpected)
  }

  /** The class a poll is answered from: the one it asks for while there is any, the other when there is none. */
  predicate FromClass1(s: Sec, fun: PrimFc)
    requires fun == ReqData1 || fun == ReqData2
  {
    if fun == ReqData1 then s.class1 != [] else s.class2 == []
  }

  /** The oldest ASDU of that class leaves its buffer, and nothing else does. */
  lemma PollPops(own: Addr, size: nat, s: Sec, req: Request)
    requires Fresh(own, size, s, req) && (req.fun == ReqData1 || req.fun == ReqData2)
    ensures
      var d := SecReceive(own, size, s, req);
      && (d.popped == [] <==> s.class1 == [] && s.class2 == [])
      && (d.popped == [] ==>
            && d.st.class1 == [] && d.st.class2 == []
            && d.resp == Some(Response(own, NoData, false, false, [])))
      && (d.popped != [] ==>
            && d.popped == [Pop(FromClass1(s, req.fun), d.popped[0].asdu)]
            && d.resp.Some? && d.resp.value.fun == UserData && d.resp.value.asdu == d.popped[0].asdu
            && if FromClass1(s, req.fun)
               then s.class1 == [d.popped[0].asdu] + d.st.class1 && d.st.class2 == s.class2
               else s.class2 == [d.popped[0].asdu] + d.st.class2 && d.st.class1 == s.class1)
  {
  }

  /** What each request is answered with; unconfirmed data has no answer, nor has confirmed data without a frame count. */
  function AnswerTo(req: Request, popped: bool): Option<SecFc> {
    match req.fun
    case ResetLink | ResetUser | TestLink => Some(ConfAck)
    case UserDataConf => if req.fcv then Some(ConfAck) else None
    case UserDataNoConf => None
    case ReqAccess | ReqStatus => Some(RespStatus)
    case ReqData1 | ReqData2 => Some(if popped then UserData else NoData)
    case OtherFc => Some(LinkNI)
  }

  /**
   * A fresh request: the kind of answer, with access demand shown exactly while class 1 data is left; user data is handed
   * over, and nothing but a poll takes anything out of the buffers; the answer is kept for a repetition.
   */
  predicate Answered(own: Addr, s: Sec, req: Request, d: SecDone) {
    && (d.resp.Some? <==> AnswerTo(req, d.popped != []).Some?)
    && (d.resp.Some? ==>
          && d.resp.value.fun == AnswerTo(req, d.popped != []).value && d.resp.value.addr == own
          && !d.resp.value.dfc && (d.resp.value.acd <==> d.st.class1 != [] && req.fun != OtherFc)
          && d.st.lastResp == d.resp)
    && d.handed == (if req.fun == UserDataNoConf || (req.fun == UserDataConf && req.fcv) then [req.asdu] else [])
    && (req.fun != ReqData1 && req.fun != ReqData2 ==>
          d.popped == [] && d.st.class1 == s.class1 && d.st.class2 == s.class2)
    && (d.st.active <==> s.active || req.fun == ResetLink)
  }

  lemma PollAnswered(own: Addr, s: Sec, req: Request)
    requires req.fun == ReqData1 || req.fun == ReqData2
    ensures Answered(own, s, req, SecServe(own, s, req))
  {
    var (t, pop) := Link101.PopClassData(s, req.fun == ReqData1);
    assert pop == None ==> t.class1 == [];
  }

  lemma OtherAnswered(own: Addr, s: Sec, req: Request)
    requires req.fun != ReqData1 && req.fun != ReqData2
    ensures Answered(own, s, req, SecServe(own, s, req))
  {
  }

  /** The frame count bit moves on with every counted frame, and starts anew with the link. */
  lemma FreshAnswered(own: Addr, size: nat, s: Sec, req: Request)
    requires Fresh(own, size, s, req)
    ensures Answered(own, s, req, SecReceive(own, size, s, req))
    ensures SecReceive(own, size, s, req).st.fcbExpected
            <==> if req.fun == ResetLink then true else if req.fcv then !s.fcbExpected else s.fcbExpected
  {
    hide Answered;
    var t := if req.fcv then s.(fcbExpected := !s.fcbExpected) else s;
    assert SecReceive(own, size, s, req) == SecServe(own, t, req);
    if req.fun == ReqData1 || req.fun == ReqData2 {
      PollAnswered(own, t, req);
    } else {
      OtherAnswered(own, t, req);
    }
    SameBuffers(own, s, t, req, SecServe(own, t, req));
  }

  lemma SameBuffers(own: Addr, s: Sec, t: Sec, req: Request, d: SecDone)
    requires t == s.(fcbExpected := t.fcbExpected) && Answered(own, t, req, d)
    ensures Answered(own, s, req, d)
  {
  }

  /**
   * A repetition is answered with the answer kept, or acknowledged if none is kept, and nothing is handed over or taken
   * out of the buffers.
   */
  lemma RepetitionAnswered(own: Addr, size: nat, s: Sec, req: Request)
    requires !(size > 0 && Broadcast(req.addr, size)) && (size > 0 ==> req.addr == own)
    requires req.fcv && req.fcb != s.fcbExpected
    ensures
      var d := SecReceive(own, size, s, req);
      && d.handed == [] && d.popped == [] && d.resp.Some? && d.st == s.(lastResp := d.resp)
      && d.resp.value == (if s.lastResp.Some? then s.lastResp.value
                          else Response(own, ConfAck, s.class1 != [], false, []))
  {
  }

  /** A frame for another station changes nothing and is not answered; a broadcast hands over unconfirmed data only. */
  lemma OthersIgnored(own: Addr, size: nat, s: Sec, req: Request)
    requires size > 0 && (Broadcast(req.addr, size) || req.addr != own)
    ensures
      var d := SecReceive(own, size, s, req);
      && d.st == s && d.resp == None && d.popped == []
      && d.handed == (if Broadcast(req.addr, size) && req.fun == UserDataNoConf then [req.asdu] else [])
  {
  }

  /**
   * On every run, a poll that reaches its station for the first time takes out of it the oldest ASDU of the class it
   * asks for, of the other class only when there is none, and none only when both are empty.
   */
  lemma PollServesClass(size: nat, order: seq<Addr>, es: seq<Event>, s: Net, a: Addr)
    requires (forall b :: b in order ==> !Broadcast(b, size)) && s == Play(size, order, es)
    requires s.line.Down? && a == s.line.req.addr && a in s.sts
    requires s.line.req.fun == ReqData1 || s.line.req.fun == ReqData2
    requires s.line.req.fcb == s.sts[a].fcbExpected
    ensures
      var before, after := s.sts[a], Step(size, s, Reach);
      && a in s.hist && a in after.hist
      && var n := s.hist[a].popped;
         if before.class1 == [] && before.class2 == [] then after.hist[a].popped == n
         else
           after.hist[a].popped
           == n + [if FromClass1(before, s.line.req.fun) then Pop(true, before.class1[0])
                   else Pop(false, before.class2[0])]
  {
    hide SecReceive, Sound;
    assert Wired(size, s) && a in s.sts.Keys;
    var d := SecReceive(a, size, s.sts[a], s.line.req);
    PollPops(a, size, s.sts[a], s.line.req);
    assert Step(size, s, Reach).hist[a] == Served(s.hist[a], d);
  }
}
