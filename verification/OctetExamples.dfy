/** What goes on the wire, octet by octet, in the cases the repository's own tests spell out. */
module OctetExamples {
  import opened Octets
  import opened AsduParams
  import opened AsduCodec
  import opened InfoObjects
  import Apci
  import Ft12
  import LinkFrames101
  import Link101
  import Time56

  const WIDE: ValidParams := Params(2, 2, 3)
  const NARROW: ValidParams := Params(1, 1, 1)

  // ---- IEC 60870-5-104 ----

  lemma ApduExamples()
    ensures
      var r := Apci.NewIFrame(6, 7, [1, 2]);
      r.Some? && r.value == [0x68, 0x06, 0x0c, 0x00, 0x0e, 0x00, 0x01, 0x02]
    ensures
      var r := Apci.NewIFrame(0x1234, 0x7fff, [0x64]);
      r.Some? && r.value == [0x68, 0x05, 0x68, 0x24, 0xfe, 0xff, 0x64]
    ensures Apci.NewSFrame(6) == [0x68, 0x04, 0x01, 0x00, 0x0c, 0x00]
    ensures Apci.NewUFrame(Apci.StartDtActive) == [0x68, 0x04, 0x07, 0x00, 0x00, 0x00]
    ensures Apci.NewUFrame(Apci.StartDtConfirm) == [0x68, 0x04, 0x0b, 0x00, 0x00, 0x00]
    ensures Apci.NewUFrame(Apci.StopDtActive) == [0x68, 0x04, 0x13, 0x00, 0x00, 0x00]
    ensures Apci.NewUFrame(Apci.StopDtConfirm) == [0x68, 0x04, 0x23, 0x00, 0x00, 0x00]
    ensures Apci.NewUFrame(Apci.TestFrActive) == [0x68, 0x04, 0x43, 0x00, 0x00, 0x00]
    ensures Apci.NewUFrame(Apci.TestFrConfirm) == [0x68, 0x04, 0x83, 0x00, 0x00, 0x00]
  {
  }

  // ---- IEC 60870-5-101 ----

  /** A request for the status of station 1. */
  lemma StatusExample()
    ensures
      var r := Ft12.Marshal(1, LinkFrames101.RequestFrame(1, Link101.Request(1, Link101.ReqStatus, false, false, [])));
      r.Ok? && r.value == [0x10, 0x49, 0x01, 0x4a, 0x16]
  {
    WrittenOut(1);
    SumOf(0x01, 0, 0);
  }

  /** Its answer, with access demand. */
  lemma DemandExample()
    ensures
      var r := Ft12.Marshal(1, LinkFrames101.ResponseFrame(1, Link101.Response(1, Link101.RespStatus, true, false, [])));
      r.Ok? && r.value == [0x10, 0x2b, 0x01, 0x2c, 0x16]
  {
    WrittenOut(1);
    SumOf(0x01, 0, 0);
  }

  /** A poll of station 0x1234 with FCB set. */
  lemma PollExample()
    ensures
      var r := Ft12.Marshal(2, LinkFrames101.RequestFrame(2, Link101.Request(0x1234, Link101.ReqData2, true, true, [])));
      r.Ok? && r.value == [0x10, 0x7b, 0x34, 0x12, 0xc1, 0x16]
  {
    WrittenOut(0x1234);
    SumOf(0x34, 0x12, 0);
  }

  lemma SumOf(a: Octet, b: Octet, c: Octet)
    ensures Sum([a]) == a && Sum([a, b]) == a + b && Sum([a, b, c]) == a + b + c
  {
    assert [a, b, c][1..] == [b, c] && [b, c][1..] == [c] && [a, b][1..] == [b];
    assert Sum([c]) == c && Sum([b]) == b && Sum([b, c]) == b + c;
  }

  /** The single character. */
  lemma SingleExample(rest: Bytes)
    ensures Ft12.Wire(1, Ft12.SingleChar) == Ok([0xe5])
    ensures Ft12.Parse(1, [0xe5] + rest) == Ft12.Parsed(Ok(Ft12.SingleChar), 1)
  {
  }

  /** Confirmed user data, one octet: length, start again, control, address, data, sum, end. */
  lemma VariableExample()
    ensures
      var r := Ft12.Marshal(
        1, LinkFrames101.RequestFrame(1, Link101.Request(3, Link101.UserDataConf, true, false, [0x64])));
      r.Ok? && r.value == [0x68, 0x03, 0x03, 0x68, 0x53, 0x03, 0x64, 0xba, 0x16]
  {
    WrittenOut(3);
    SumOf(0x03, 0, 0);
    SumOf(0x64, 0, 0);
  }

  /** The control octet of a request: 40H for the direction, 20H and 10H for a set and a valid FCB, then the function. */
  function RequestControl(fun: Link101.PrimFc, fcv: bool, fcb: bool): Octet {
    LinkFrames101.RequestFrame(1, Link101.Request(1, fun, fcv, fcb, [])).control
  }

  lemma RequestControls()
    ensures RequestControl(Link101.ResetLink, false, false) == 0x40
    ensures RequestControl(Link101.ResetUser, false, false) == 0x41
    ensures RequestControl(Link101.TestLink, true, false) == 0x52
    ensures RequestControl(Link101.UserDataConf, true, true) == 0x73
    ensures RequestControl(Link101.UserDataNoConf, false, false) == 0x44
    ensures RequestControl(Link101.ReqAccess, false, false) == 0x48
    ensures RequestControl(Link101.ReqStatus, false, false) == 0x49
    ensures RequestControl(Link101.ReqData1, true, false) == 0x5a
    ensures RequestControl(Link101.ReqData2, true, true) == 0x7b
  {
  }

  /** The control octet of an answer: 20H for access demand, 10H for a full buffer, then the function. */
  function ResponseControl(fun: Link101.SecFc, acd: bool, dfc: bool): Octet {
    LinkFrames101.ResponseFrame(1, Link101.Response(1, fun, acd, dfc, [])).control
  }

  lemma ResponseControls()
    ensures ResponseControl(Link101.ConfAck, false, false) == 0x00
    ensures ResponseControl(Link101.ConfNack, false, true) == 0x11
    ensures ResponseControl(Link101.UserData, true, false) == 0x28
    ensures ResponseControl(Link101.NoData, false, false) == 0x09
    ensures ResponseControl(Link101.RespStatus, false, false) == 0x0b
    ensures ResponseControl(Link101.LinkNF, false, false) == 0x0e
    ensures ResponseControl(Link101.LinkNI, false, false) == 0x0f
  {
  }

  /** Function codes that are not assigned, and frames of the other direction. */
  lemma UnassignedCodes(code: nat, linkAddr: Bytes)
    requires code < 16
    ensures code !in {0, 1, 2, 3, 4, 8, 9, 10, 11} ==>
              var r := LinkFrames101.AsRequest(Ft12.Fixed(0x40 + code, linkAddr));
              r.Some? && r.value.fun == Link101.OtherFc
    ensures code !in {0, 1, 8, 9, 11, 14, 15} <==> LinkFrames101.AsResponse(Ft12.Fixed(code, linkAddr)) == None
    ensures LinkFrames101.AsRequest(Ft12.Fixed(code, linkAddr)) == None
    ensures LinkFrames101.AsResponse(Ft12.Fixed(0x40 + code, linkAddr)) == None
  {
  }

  // ---- ASDU ----

  lemma IdentifierExamples()
    ensures IdentifierOctets(NARROW, Asdu(1, false, 2, 6, false, false, 0, 0x80, [])) == [0x01, 0x02, 0x06, 0x80]
    ensures IdentifierOctets(NARROW, Asdu(1, false, 2, 6, false, false, 0, 65535, [])) == [0x01, 0x02, 0x06, 0xff]
    ensures IdentifierOctets(WIDE, Asdu(1, true, 1, 6, true, false, 9, 0x6080, []))
            == [0x01, 0x81, 0x46, 0x09, 0x80, 0x60]
    ensures IdentifierOctets(WIDE, Asdu(1, false, 1, 6, false, true, 0, 0x6080, []))
            == [0x01, 0x01, 0x86, 0x00, 0x80, 0x60]
  {
    WrittenOut(0x6080);
  }

  const TWO_POINTS := [Info(1, Point(true), 0x10, []), Info(2, Point(false), 0x10, [])]

  lemma TwoObjects(l: Layout, isSequence: bool, x: Info, y: Info)
    requires Typed(l, x) && Typed(l, y)
    ensures ListOctets(WIDE, l, isSequence, true, [x, y])
            == ObjectOctets(WIDE, l, true, x) + ObjectOctets(WIDE, l, !isSequence, y)
  {
    assert [x, y][1..] == [y] && [y][1..] == [];
    assert ListOctets(WIDE, l, isSequence, false, []) == [];
    assert ListOctets(WIDE, l, isSequence, false, [y]) == ObjectOctets(WIDE, l, !isSequence, y) + [];
  }

  /** Single points, each with its address, or as a sequence. */
  lemma PointExamples()
    ensures ListOctets(WIDE, Layout(Points, 0), false, true, TWO_POINTS)
            == [0x01, 0x00, 0x00, 0x11, 0x02, 0x00, 0x00, 0x10]
    ensures ListOctets(WIDE, Layout(Points, 0), true, true, TWO_POINTS) == [0x01, 0x00, 0x00, 0x11, 0x10]
  {
    WrittenOut(1);
    WrittenOut(2);
    TwoObjects(Layout(Points, 0), false, TWO_POINTS[0], TWO_POINTS[1]);
    TwoObjects(Layout(Points, 0), true, TWO_POINTS[0], TWO_POINTS[1]);
  }

  /** The types of the four values: plain, with a short and with a long time tag; 21 has no quality descriptor. */
  lemma TypesOfValues(id: nat)
    ensures LayoutOf(id).Some? && LayoutOf(id).value.kind == Points <==> id in {1, 2, 30}
    ensures LayoutOf(id).Some? && LayoutOf(id).value.kind == Steps <==> id in {5, 6, 32}
    ensures LayoutOf(id).Some? && LayoutOf(id).value.kind == Normals <==> id in {9, 10, 34}
    ensures LayoutOf(id).Some? && LayoutOf(id).value.kind == NormalsBare <==> id == 21
    ensures LayoutOf(id).Some? && LayoutOf(id).value.kind == Counters <==> id in {15, 16, 37}
    ensures LayoutOf(id).Some? ==>
              LayoutOf(id).value.tagSize == if id in {2, 6, 10, 16} then 3 else if id in {30, 32, 34, 37} then 7 else 0
  {
  }

  lemma ElementExamples()
    ensures ElementOctets(Layout(Steps, 0), Info(1, Step(1, false), 0x10, [])) == [0x01, 0x10]
    ensures ElementOctets(Layout(Steps, 0), Info(1, Step(-64, true), 0x80, [])) == [0xc0, 0x80]
    ensures StepOf(0xc0) == Step(-64, true) && StepOf(0x40) == Step(-64, false) && StepOf(0x87) == Step(7, true)
    ensures ElementOctets(Layout(Normals, 0), Info(1, Normalized(2), 0x10, [])) == [0x02, 0x00, 0x10]
    ensures ElementOctets(Layout(NormalsBare, 0), Info(1, Normalized(-2), 0, [])) == [0xfe, 0xff]
  {
    WrittenOut(2);
    WrittenOut(0xfffe);
  }

  lemma FourOctets(n: nat)
    ensures Little(n, 4) == [Low(n), Low(n / 256), Low(n / 0x1_0000), Low(n / 0x100_0000)]
  {
    WrittenOut(n / 256);
    assert n / 256 / 256 == n / 0x1_0000 && n / 256 / 0x1_0000 == n / 0x100_0000;
    assert Little(n, 4) == [Low(n)] + Little(n / 256, 3);
  }

  /** A counter reading, then sequence number, carry, adjusted, invalid. */
  lemma CounterExample()
    ensures ElementOctets(Layout(Counters, 0), Info(1, Counter(0x0102_0304, 5, true, false, true), 0, []))
            == [0x04, 0x03, 0x02, 0x01, 0xa5]
    ensures ElementOctets(Layout(Counters, 0), Info(1, Counter(-1, 31, false, true, false), 0, []))
            == [0xff, 0xff, 0xff, 0xff, 0x5f]
  {
    FourOctets(0x0102_0304);
    FourOctets(0xffff_ffff);
  }

  /** The time tag follows the element. */
  lemma TaggedExample(tag: Bytes)
    requires |tag| == 3
    ensures ObjectOctets(WIDE, Layout(Points, 3), true, Info(1, Point(true), 0x10, tag)) == [0x01, 0x00, 0x00, 0x11] + tag
  {
    WrittenOut(1);
  }

  // ---- CP56Time2a ----

  /** 2019-06-05 04:03:00.513, a Wednesday, and 2019-12-15 14:13:03.083, a Sunday, in a zone without offset. */
  lemma TimeExamples(z: Time56.Clock, a: Time56.Instant, b: Time56.Instant)
    requires z.wall(a.sec) == Some(Time56.Wall(2019, 6, 5, 4, 3, 0)) && z.weekday(a.sec) == 3 && !z.dst(a.sec)
    requires z.wall(b.sec) == Some(Time56.Wall(2019, 12, 15, 14, 13, 3)) && z.weekday(b.sec) == 7 && z.dst(b.sec)
    requires a.nsec == 513_000_000 && b.nsec == 83_000_000
    ensures Time56.Cp56(z, a) == [0x01, 0x02, 0x03, 0x04, 0x65, 0x06, 0x13]
    ensures Time56.Cp56(z, b) == [0x0b, 0x0c, 0x0d, 0x8e, 0xef, 0x0c, 0x13]
  {
  }
}
