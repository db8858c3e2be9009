/** What the primary makes of any frame on the line, its stations' or not. */
module LinkReception101 {
  import opened Octets
  import opened Link101
  import opened Clients101
  import Ft12
  import LinkFrames101

  /** A frame as the receive loop hands it over; decodes tells whether its ASDU, if it has one, is one. */
  function AsReceived(f: Ft12.Frame, decodes: bool): Received {
    if f.SingleChar? then SingleChar
    else
      var cf := Ft12.ParseControlField(f.control);
      if cf.prm then FromPrimary
      else
        FromStation(f.Variable?, LinkFrames101.SecOf(cf.fun), LinkFrames101.AddrOf(f.linkAddr), cf.acd, cf.dfc,
                    if f.Variable? && decodes then Some(f.asdu) else None)
  }

  /** An answer of this library's stations, read from the line, counts as that answer. */
  lemma AnswerReceived(size: nat, r: Response, rest: Bytes)
    requires LinkFrames101.AddrFits(size, r.addr)
    requires if r.fun == UserData then |r.asdu| <= Ft12.MAX_LENGTH_FIELD - 1 - size else r.asdu == []
    ensures Ft12.Marshal(size, LinkFrames101.ResponseFrame(size, r)).Ok?
    ensures var p := Ft12.Parse(size, Ft12.Marshal(size, LinkFrames101.ResponseFrame(size, r)).value + rest);
            p.frame.Ok? && AsReceived(p.frame.value, true).FromStation? && CountsAs(AsReceived(p.frame.value, true)) == r
  {
    hide Ft12.Parse;
    LinkFrames101.ResponseCrossesLine(size, r, rest);
    LinkFrames101.AddrRoundTrip(size, r.addr);
    Ft12.ControlFieldRoundTrip(
      Ft12.ControlField(false, false, false, false, r.acd, r.dfc, LinkFrames101.SecCode(r.fun)));
  }

  /** Control octets of a fixed frame that confirm, that refuse, and of a variable one that confirms or brings data. */
  predicate Confirms(control: Octet, variable: bool) {
    control / 64 % 2 == 0 && (if variable then control % 16 in {8, 9, 11} else control % 16 in {0, 9, 11})
  }

  predicate Refuses(control: Octet, variable: bool) {
    control / 64 % 2 == 0 && !variable && control % 16 in {14, 15}
  }

  predicate BringsData(control: Octet, variable: bool) {
    control / 64 % 2 == 0 && variable && control % 16 in {8, 11}
  }

  /**
   * What a frame of a station does, read off its control octet: the outstanding frame is done with if and only if the
   * station was the one asked and the frame confirms or refuses. (An access demand is polled for at once.)
   */
  lemma FrameDoes(p: Prim, f: Ft12.Frame, decodes: bool)
    requires !f.SingleChar? && f.control / 32 % 2 == 0 && p.lastSent.Some?
    ensures
      var a, d, v := LinkFrames101.AddrOf(f.linkAddr), OnFrame(p, AsReceived(f, decodes)), f.Variable?;
      && d.out == []
      && (d.p.lastSent == None
          <==> a in p.secs && a == p.lastSent.value.addr && (Confirms(f.control, v) || Refuses(f.control, v)))
      && (d.p.lastSent.Some? ==> d.p.lastSent == p.lastSent && d.p.retryCount == p.retryCount)
  {
  }

  /** An ASDU is handed over if and only if a station of the table brings one that decodes. */
  lemma FrameHandsOver(p: Prim, f: Ft12.Frame, decodes: bool)
    ensures
      OnFrame(p, AsReceived(f, decodes)).dispatched
      == if !f.SingleChar? && LinkFrames101.AddrOf(f.linkAddr) in p.secs && BringsData(f.control, f.Variable?) && decodes
         then [f.asdu] else []
  {
  }

  /** A frame that neither confirms nor refuses, of whatever code, tells only whether the buffer is full and data wait. */
  lemma OtherFramesNoted(p: Prim, f: Ft12.Frame, decodes: bool)
    requires !f.SingleChar? && p.lastSent.Some? && LinkFrames101.AddrOf(f.linkAddr) in p.secs
    requires f.control / 64 % 2 == 0 && !Confirms(f.control, f.Variable?) && !Refuses(f.control, f.Variable?)
    ensures
      var a := LinkFrames101.AddrOf(f.linkAddr);
      var v := p.secs[a];
      OnFrame(p, AsReceived(f, decodes))
      == PrimDone(p.(secs := p.secs[a := v.(dfc := f.control / 16 % 2 == 1,
                                            wantClass1 := v.wantClass1 || f.control / 32 % 2 == 1)]), [], [])
  {
    var a := LinkFrames101.AddrOf(f.linkAddr);
    var v := p.secs[a].(dfc := f.control / 16 % 2 == 1);
    assert p.secs[a := v][a := v.(wantClass1 := true)] == p.secs[a := v.(wantClass1 := true)];
  }

  /** Frames of a primary, and of stations that are not in the table, change nothing. */
  lemma StrangersIgnored(p: Prim, f: Ft12.Frame, decodes: bool)
    requires !f.SingleChar? && (f.control / 64 % 2 == 1 || LinkFrames101.AddrOf(f.linkAddr) !in p.secs)
    ensures OnFrame(p, AsReceived(f, decodes)) == PrimDone(p, [], [])
  {
  }
}
