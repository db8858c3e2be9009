/** What is read from the octets of a list of information objects, compared with what was written. */
module ObjectProofs {
  import opened Octets
  import opened AsduParams
  import opened AsduCodec
  import opened AsduProofs
  import opened InfoObjects

  // ---- primitives ----

  lemma IoaRoundTrip(p: ValidParams, ioa: nat)
    requires InfoObjAddrFits(p, ioa)
    ensures IoaOf(p, IoaOctets(p, ioa)) == ioa
  {
    Capacities();
    LittleJoins(ioa, p.infoObjAddrSize);
    assert Little(ioa, p.infoObjAddrSize)[..p.infoObjAddrSize] == Little(ioa, p.infoObjAddrSize);
  }

  lemma SignedRoundTrip(v: int, range: nat)
    requires -(range as int) <= 2 * v < range
    ensures Unsigned(v, range) < range && Signed(Unsigned(v, range), range) == v
  {
  }

  lemma StepRoundTrip(val: int, transient: bool)
    ensures StepOf(StepOctet(val, transient)) == Step(val, transient) <==> -64 <= val < 64
  {
    StepBits(val % 128, transient);
    assert -64 <= StepOf(StepOctet(val, transient)).val < 64;
    if 0 <= val < 64 {
      assert val % 128 == val;
    } else if -64 <= val < 0 {
      assert val % 128 == val + 128;
    }
  }

  lemma StepBits(r: nat, transient: bool)
    requires r < 128
    ensures var b := r + Flag(transient, 128);
            (b / 128 == 1) == transient && (b / 64) % 2 == r / 64 && b % 64 == r % 64
  {
  }

  lemma FlagsRoundTrip(v: Value)
    requires v.Counter?
    ensures CounterWith(v.reading, CounterFlags(v)) == v.(seqNumber := v.seqNumber % 32)
  {
  }

  // ---- one element ----

  /** The fields an element of the type has room for. */
  predicate Carried(l: Layout, x: Info)
    requires Typed(l, x)
  {
    match l.kind
    case Points => x.qds % 16 == 0
    case Steps => -64 <= x.value.val < 64
    case Normals => true
    case NormalsBare => x.qds == 0
    case Counters => x.qds == 0 && x.value.seqNumber < 32
  }

  /** An element reads as it was written exactly when the type has room for its fields. */
  lemma ElementSurvivesExactlyWhen(l: Layout, x: Info)
    requires Typed(l, x)
    ensures ElementOf(l, ElementOctets(l, x)) == (x.value, x.qds) <==> Carried(l, x)
  {
    match l.kind {
      case Points => PointSurvives(l, x);
      case Steps => StepSurvives(l, x);
      case Normals => NormalSurvives(l, x);
      case NormalsBare => NormalSurvives(l, x);
      case Counters => CounterSurvives(l, x);
    }
  }

  lemma PointSurvives(l: Layout, x: Info)
    requires Typed(l, x) && l.kind == Points
    ensures ElementOf(l, ElementOctets(l, x)) == (x.value, x.qds) <==> Carried(l, x)
  {
    PointRoundTrip(x.value.on, x.qds);
  }

  lemma StepSurvives(l: Layout, x: Info)
    requires Typed(l, x) && l.kind == Steps
    ensures ElementOf(l, ElementOctets(l, x)) == (x.value, x.qds) <==> Carried(l, x)
  {
    StepRoundTrip(x.value.val, x.value.transient);
  }

  lemma NormalSurvives(l: Layout, x: Info)
    requires Typed(l, x) && (l.kind == Normals || l.kind == NormalsBare)
    ensures ElementOf(l, ElementOctets(l, x)) == (x.value, x.qds) <==> Carried(l, x)
  {
    NormalRoundTrip(x.value.n);
    assert ElementOctets(l, x)[..2] == Little(Unsigned(x.value.n, 0x1_0000), 2);
  }

  lemma CounterSurvives(l: Layout, x: Info)
    requires Typed(l, x) && l.kind == Counters
    ensures ElementOf(l, ElementOctets(l, x)) == (x.value, x.qds) <==> Carried(l, x)
  {
    CounterRoundTrip(x.value);
    SameSeqNumber(x.value);
  }

  lemma SameSeqNumber(v: Value)
    requires v.Counter?
    ensures v.(seqNumber := v.seqNumber % 32) == v <==> v.seqNumber < 32
  {
  }

  lemma PointRoundTrip(on: bool, qds: Octet)
    ensures var b: nat := Flag(on, 1) + qds / 16 * 16;
            (b % 2 == 1) == on && b / 16 * 16 == qds / 16 * 16 && (qds / 16 * 16 == qds <==> qds % 16 == 0)
  {
  }

  lemma NormalRoundTrip(n: Int16)
    ensures Signed(Joined(Little(Unsigned(n, 0x1_0000), 2)), 0x1_0000) == n
  {
    Capacities();
    SignedRoundTrip(n, 0x1_0000);
    LittleJoins(Unsigned(n, 0x1_0000), 2);
  }

  lemma CounterRoundTrip(v: Value)
    requires v.Counter?
    ensures CounterOf(CounterOctets(v)) == v.(seqNumber := v.seqNumber % 32)
  {
    var u := Unsigned(v.reading, 0x1_0000_0000);
    Capacities();
    SignedRoundTrip(v.reading, 0x1_0000_0000);
    LittleJoins(u, 4);
    assert CounterOctets(v)[..4] == Little(u, 4);
    FlagsRoundTrip(v);
  }

  // ---- lists ----

  /** What the decoder makes of an object whose address it takes to be ioa. */
  function Seen(l: Layout, x: Info, ioa: nat): (r: Info)
    requires Typed(l, x)
    ensures r.ioa == ioa && r.tag == x.tag
  {
    var (value, qds) := ElementOf(l, ElementOctets(l, x));
    Info(ioa, value, qds, x.tag)
  }

  /** The list the decoder makes: in a sequence it counts the addresses up from the first. */
  function SeenList(l: Layout, isSequence: bool, first: bool, next: nat, xs: seq<Info>): seq<Info>
    requires forall i :: 0 <= i < |xs| ==> Typed(l, xs[i])
    decreases |xs|
  {
    if xs == [] then []
    else
      var ioa := if !isSequence || first then xs[0].ioa else next;
      [Seen(l, xs[0], ioa)] + SeenList(l, isSequence, false, ioa + 1, xs[1..])
  }

  lemma ThirdPart(a: Bytes, b: Bytes, c: Bytes, d: Bytes)
    ensures var s := (a + (b + c)) + d;
            && s[..|a|] == a && s[|a|..|a| + |b|] == b && s[|a| + |b|..|a| + |b| + |c|] == c
  {
  }

  lemma TakeWritten(p: ValidParams, l: Layout, withAddr: bool, next: nat, x: Info, rest: Bytes)
    requires Typed(l, x) && (withAddr ==> InfoObjAddrFits(p, x.ioa))
    ensures TakeObject(p, l, withAddr, next, ObjectOctets(p, l, withAddr, x) + rest)
        == Seen(l, x, if withAddr then x.ioa else next)
  {
    ThirdPart(if withAddr then IoaOctets(p, x.ioa) else [], ElementOctets(l, x), x.tag, rest);
    if withAddr {
      IoaRoundTrip(p, x.ioa);
    }
    TakeIs(p, l, withAddr, next, ObjectOctets(p, l, withAddr, x) + rest, ElementOctets(l, x), x.tag,
        if withAddr then x.ioa else next);
  }

  lemma {:induction false} ListLength(p: ValidParams, l: Layout, isSequence: bool, first: bool, xs: seq<Info>)
    requires forall i :: 0 <= i < |xs| ==> Typed(l, xs[i])
    ensures |ListOctets(p, l, isSequence, first, xs)| == Need(p, l, isSequence, first, |xs|)
    decreases |xs|
  {
    if xs != [] {
      ListLength(p, l, isSequence, false, xs[1..]);
    }
  }

  lemma ListSplits(p: ValidParams, l: Layout, isSequence: bool, first: bool, xs: seq<Info>, rest: Bytes)
    requires xs != [] && forall i :: 0 <= i < |xs| ==> Typed(l, xs[i])
    ensures ListOctets(p, l, isSequence, first, xs) + rest
            == ObjectOctets(p, l, !isSequence || first, xs[0]) + (ListOctets(p, l, isSequence, false, xs[1..]) + rest)
  {
  }

  /** The octets s hold the list ys, followed by rest. */
  ghost predicate Holds(p: ValidParams, l: Layout, isSequence: bool, first: bool, next: nat, n: nat, s: Bytes,
      ys: seq<Info>, rest: Bytes) {
    |s| >= Need(p, l, isSequence, first, n) && TakeList(p, l, isSequence, first, next, n, s) == (ys, rest)
  }

  lemma HoldsOneMore(p: ValidParams, l: Layout, isSequence: bool, first: bool, next: nat, m: nat, head: Bytes,
                     x: Info, s: Bytes, ys: seq<Info>, rest: Bytes, whole: Bytes, all: seq<Info>)
    requires |head| == Flag(!isSequence || first, p.infoObjAddrSize) + ObjSize(l)
    requires whole == head + s && x == TakeObject(p, l, !isSequence || first, next, whole) && all == [x] + ys
    requires Holds(p, l, isSequence, false, x.ioa + 1, m, s, ys, rest)
    ensures Holds(p, l, isSequence, first, next, m + 1, whole, all, rest)
  {
    assert whole[|head|..] == s;
  }

  /** The first object read is the first one written. */
  lemma HeadTaken(p: ValidParams, l: Layout, withAddr: bool, next: nat, x: Info, ioa: nat, s: Bytes)
      returns (head: Bytes, y: Info)
    requires Typed(l, x) && (withAddr ==> InfoObjAddrFits(p, x.ioa)) && ioa == if withAddr then x.ioa else next
    ensures head == ObjectOctets(p, l, withAddr, x) && |head| == Flag(withAddr, p.infoObjAddrSize) + ObjSize(l)
    ensures y == Seen(l, x, ioa) && y.ioa == ioa && y == TakeObject(p, l, withAddr, next, head + s)
  {
    head, y := ObjectOctets(p, l, withAddr, x), Seen(l, x, ioa);
    TakeWritten(p, l, withAddr, next, x, s);
  }

  lemma WrittenOneMore(p: ValidParams, l: Layout, isSequence: bool, first: bool, next: nat, m: nat, x: Info,
                       ioa: nat, s: Bytes, ys: seq<Info>, rest: Bytes, whole: Bytes, all: seq<Info>)
    requires Typed(l, x) && (!isSequence || first ==> InfoObjAddrFits(p, x.ioa))
    requires ioa == if !isSequence || first then x.ioa else next
    requires Holds(p, l, isSequence, false, ioa + 1, m, s, ys, rest)
    requires whole == ObjectOctets(p, l, !isSequence || first, x) + s && all == [Seen(l, x, ioa)] + ys
    ensures Holds(p, l, isSequence, first, next, m + 1, whole, all, rest)
  {
    hide Holds, Seen, ElementOctets;
    var head, y := HeadTaken(p, l, !isSequence || first, next, x, ioa, s);
    HoldsOneMore(p, l, isSequence, first, next, m, head, y, s, ys, rest, whole, all);
  }

  /** The octets of the list xs, followed by rest, read as SeenList says. */
  ghost predicate ReadsBack(p: ValidParams, l: Layout, isSequence: bool, first: bool, next: nat, xs: seq<Info>,
                            rest: Bytes)
    requires forall i :: 0 <= i < |xs| ==> Typed(l, xs[i])
  {
    Holds(p, l, isSequence, first, next, |xs|, ListOctets(p, l, isSequence, first, xs) + rest,
          SeenList(l, isSequence, first, next, xs), rest)
  }

  lemma SeenSplits(l: Layout, isSequence: bool, first: bool, next: nat, xs: seq<Info>, ioa: nat)
    requires xs != [] && forall i :: 0 <= i < |xs| ==> Typed(l, xs[i])
    requires ioa == if !isSequence || first then xs[0].ioa else next
    ensures SeenList(l, isSequence, first, next, xs)
            == [Seen(l, xs[0], ioa)] + SeenList(l, isSequence, false, ioa + 1, xs[1..])
  {
  }

  lemma ReadsBackOneMore(p: ValidParams, l: Layout, isSequence: bool, first: bool, next: nat, xs: seq<Info>,
                         rest: Bytes, ioa: nat)
    requires xs != [] && forall i :: 0 <= i < |xs| ==> Typed(l, xs[i])
    requires !isSequence || first ==> InfoObjAddrFits(p, xs[0].ioa)
    requires ioa == if !isSequence || first then xs[0].ioa else next
    requires ReadsBack(p, l, isSequence, false, ioa + 1, xs[1..], rest)
    ensures ReadsBack(p, l, isSequence, first, next, xs, rest)
  {
    var tail: Bytes := ListOctets(p, l, isSequence, false, xs[1..]) + rest;
    var ys := SeenList(l, isSequence, false, ioa + 1, xs[1..]);
    ListSplits(p, l, isSequence, first, xs, rest);
    SeenSplits(l, isSequence, first, next, xs, ioa);
    WrittenOneMore(p, l, isSequence, first, next, |xs[1..]|, xs[0], ioa, tail, ys, rest,
                   ListOctets(p, l, isSequence, first, xs) + rest, SeenList(l, isSequence, first, next, xs));
  }

  lemma NothingRead(p: ValidParams, l: Layout, isSequence: bool, first: bool, next: nat, rest: Bytes)
    ensures ReadsBack(p, l, isSequence, first, next, [], rest)
  {
    assert ListOctets(p, l, isSequence, first, []) + rest == rest;
  }

  /** Reading as many objects as were written consumes exactly the octets that were written. */
  lemma {:induction false} TakeListWritten(p: ValidParams, l: Layout, isSequence: bool, first: bool, next: nat,
                                           xs: seq<Info>, rest: Bytes)
    requires forall i :: 0 <= i < |xs| ==> Typed(l, xs[i])
    requires AddrsFit(p, isSequence, first, xs)
    ensures ReadsBack(p, l, isSequence, first, next, xs, rest)
    decreases |xs|
  {
    if xs == [] {
      NothingRead(p, l, isSequence, first, next, rest);
    } else {
      var ioa := if !isSequence || first then xs[0].ioa else next;
      TakeListWritten(p, l, isSequence, false, ioa + 1, xs[1..], rest);
      ReadsBackOneMore(p, l, isSequence, first, next, xs, rest, ioa);
    }
  }

  lemma {:induction false} SeenListAt(l: Layout, isSequence: bool, first: bool, next: nat, xs: seq<Info>)
    requires forall i :: 0 <= i < |xs| ==> Typed(l, xs[i])
    ensures var ys := SeenList(l, isSequence, first, next, xs);
            && |ys| == |xs|
            && forall i :: 0 <= i < |xs| ==>
                 ys[i] == Seen(l, xs[i], if !isSequence then xs[i].ioa else (if first then xs[0].ioa else next) + i)
    decreases |xs|
  {
    if xs != [] {
      var ioa, tail := if !isSequence || first then xs[0].ioa else next, xs[1..];
      var ys, rest := SeenList(l, isSequence, first, next, xs), SeenList(l, isSequence, false, ioa + 1, tail);
      SeenSplits(l, isSequence, first, next, xs, ioa);
      SeenListAt(l, isSequence, false, ioa + 1, tail);
      assert forall i :: 0 < i < |xs| ==> xs[i] == tail[i - 1] && ys[i] == rest[i - 1];
    }
  }

  ghost predicate AllCarried(l: Layout, xs: seq<Info>)
    requires forall i :: 0 <= i < |xs| ==> Typed(l, xs[i])
  {
    forall i :: 0 <= i < |xs| ==> Carried(l, xs[i])
  }

  predicate Consecutive(xs: seq<Info>) {
    forall i :: 0 <= i < |xs| ==> xs[i].ioa == xs[0].ioa + i
  }

  /**
   * The decoder sees the list that was written exactly when every element has room and a sequence counts its
   * addresses up.
   */
  lemma ListSurvivesExactlyWhen(l: Layout, isSequence: bool, xs: seq<Info>)
    requires forall i :: 0 <= i < |xs| ==> Typed(l, xs[i])
    ensures SeenList(l, isSequence, true, 0, xs) == xs <==> AllCarried(l, xs) && (isSequence ==> Consecutive(xs))
  {
    SeenListAt(l, isSequence, true, 0, xs);
    var ys := SeenList(l, isSequence, true, 0, xs);
    forall i | 0 <= i < |xs|
      ensures ys[i] == xs[i] <==> Carried(l, xs[i]) && (isSequence ==> xs[i].ioa == xs[0].ioa + i)
    {
      ElementSurvivesExactlyWhen(l, xs[i]);
    }
    if ys == xs {
      assert forall i :: 0 <= i < |xs| ==> ys[i] == xs[i];
    }
  }

  // ---- the whole way ----

  /** The layouts agree with the size table. */
  lemma LayoutSize(typeId: nat)
    requires LayoutOf(typeId).Some?
    ensures GetInfoObjSize(typeId) == Some(ObjSize(LayoutOf(typeId).value)) && typeId != F_SG_NA_1 && typeId != 0
  {
  }

  lemma {:induction false} NeedIsObjectsSize(p: ValidParams, l: Layout, isSequence: bool, first: bool, n: nat)
    ensures Need(p, l, isSequence, first, n)
            == if isSequence then (if first && n > 0 then p.infoObjAddrSize else 0) + n * ObjSize(l)
               else n * (p.infoObjAddrSize + ObjSize(l))
    decreases n
  {
    if n > 0 {
      NeedIsObjectsSize(p, l, isSequence, false, n - 1);
      Distribute(n, ObjSize(l));
      Distribute(n, p.infoObjAddrSize + ObjSize(l));
    }
  }

  lemma Distribute(n: nat, m: nat)
    requires n > 0
    ensures n * m == m + (n - 1) * m
  {
  }

  lemma ListMarshals(p: ValidParams, l: Layout, a: Asdu)
    requires LayoutOf(a.typeId) == Option.Some(l) && |a.infoObj| == Need(p, l, a.isSequence, true, a.number)
    requires CheckValid(p, a.typeId, a.isSequence, a.number) == None
    requires 0 < a.cause < 64 && CommonAddrFits(p, a.ca)
    ensures Marshal(p, a).Ok? && SizeKnown(p, a)
  {
    LayoutSize(a.typeId);
    NeedIsObjectsSize(p, l, a.isSequence, true, a.number);
  }

  /**
   * A list the encoder accepts makes an ASDU that can be marshalled; the ASDU comes back unchanged
   * from the wire, and the decoder reads the list from it with no octet left over.
   */
  lemma EncodedListCrosses(p: ValidParams, a: Asdu, xs: seq<Info>, allowTrailing: bool)
    requires LayoutOf(a.typeId).Some? && forall i :: 0 <= i < |xs| ==> Typed(LayoutOf(a.typeId).value, xs[i])
    requires EncodeList(p, a.typeId, a.isSequence, xs) == Result.Ok(a.infoObj) && a.number == |xs|
    requires 0 < a.cause < 64 && CommonAddrFits(p, a.ca) && a.orig == 0
    ensures Marshal(p, a).Ok? && Unmarshal(p, allowTrailing, Marshal(p, a).value) == Result.Ok(a)
    ensures var l := LayoutOf(a.typeId).value;
            && |a.infoObj| == Need(p, l, a.isSequence, true, a.number)
            && TakeList(p, l, a.isSequence, true, 0, a.number, a.infoObj) == (SeenList(l, a.isSequence, true, 0, xs), [])
  {
    var l := LayoutOf(a.typeId).value;
    assert a.infoObj + [] == a.infoObj;
    TakeListWritten(p, l, a.isSequence, true, 0, xs, []);
    ListLength(p, l, a.isSequence, true, xs);
    ListMarshals(p, l, a);
    DecoderAgreesExactlyWhen(p, allowTrailing, a);
  }

  lemma AcceptedSize(p: ValidParams, allowTrailing: bool, f: Asdu)
    requires LayoutOf(f.typeId).Some? && FixInfoObjSize(p, allowTrailing, f).Ok?
    ensures
      var a := FixInfoObjSize(p, allowTrailing, f).value;
      && a == f.(infoObj := a.infoObj) && (a.number == 0 ==> a.isSequence && |a.infoObj| == p.infoObjAddrSize)
      && |a.infoObj| == ObjectsSize(p, a.isSequence, a.number, ObjSize(LayoutOf(a.typeId).value))
  {
    LayoutSize(f.typeId);
  }

  /**
   * What UnmarshalBinary accepts has room for the objects it announces, whoever wrote it, and the decode loop
   * leaves no octet unread if and only if it announces any: a sequence of no objects is accepted with the
   * octets of an address, which nobody reads.
   */
  lemma AcceptedIsReadWhollyExactlyWhen(p: ValidParams, allowTrailing: bool, raw: Bytes)
    requires Unmarshal(p, allowTrailing, raw).Ok?
    requires LayoutOf(Unmarshal(p, allowTrailing, raw).value.typeId).Some?
    ensures
      var a := Unmarshal(p, allowTrailing, raw).value;
      var l := LayoutOf(a.typeId).value;
      && |a.infoObj| >= Need(p, l, a.isSequence, true, a.number)
      && (TakeList(p, l, a.isSequence, true, 0, a.number, a.infoObj).1 == [] <==> a.number > 0)
      && (a.number == 0 ==> a.isSequence && |a.infoObj| == p.infoObjAddrSize)
  {
    var a := Unmarshal(p, allowTrailing, raw).value;
    var l := LayoutOf(a.typeId).value;
    AcceptedSize(p, allowTrailing, Fields(p, raw));
    NeedIsObjectsSize(p, l, a.isSequence, true, a.number);
  }

  lemma EmptyFits(p: ValidParams, allowTrailing: bool, a: Asdu)
    requires a.typeId == 1 && a.isSequence && a.number == 0 && |a.infoObj| == p.infoObjAddrSize
    ensures FixInfoObjSize(p, allowTrailing, a) == Result.Ok(a)
  {
    assert a.infoObj[..|a.infoObj|] == a.infoObj;
  }

  /** Single points, a sequence of none. */
  lemma EmptySequenceAccepted(p: ValidParams, allowTrailing: bool, address: Bytes)
    requires |address| == p.infoObjAddrSize
    ensures
      var a := Asdu(1, true, 0, 20, false, false, 0, 1, address);
      Unmarshal(p, allowTrailing, Wire(p, a)) == Result.Ok(a)
  {
    var a := Asdu(1, true, 0, 20, false, false, 0, 1, address);
    WireRead(p, a);
    EmptyFits(p, allowTrailing, a);
  }

  // ---- segments ----

  /** The information object of F_SG_NA_1: address, name of file, name of section, length of segment, segment. */
  function SegmentOctets(p: ValidParams, ioa: nat, nof: nat, nos: Octet, segment: Bytes): Bytes {
    IoaOctets(p, ioa) + Little(nof, 2) + [nos, Low(|segment|)] + segment
  }

  /** GetFileSegment: address, name of file, name of section and segment. */
  function SegmentOf(p: ValidParams, infoObj: Bytes): (nat, nat, Octet, Bytes)
    requires |infoObj| >= p.infoObjAddrSize + 4
  {
    var w := p.infoObjAddrSize;
    var rest, los: nat := infoObj[w + 4..], infoObj[w + 3];
    (IoaOf(p, infoObj[..w]), Joined(infoObj[w..w + 2]), infoObj[w + 2],
        rest[..if los > |rest| then |rest| else los])
  }

  lemma SegmentParts(addr: Bytes, nof: Bytes, nos: Octet, los: Octet, segment: Bytes, b: Bytes)
    requires |nof| == 2 && b == addr + nof + [nos, los] + segment
    ensures var w := |addr|;
            && b[..w] == addr && b[w..w + 2] == nof && b[w + 2] == nos && b[w + 3] == los
                && b[w + 4..] == segment
  {
  }

  /** Every segment the Sender may cut crosses the wire: it is marshalled, accepted and read back as it was. */
  lemma SegmentCrosses(p: ValidParams, ioa: nat, nof: nat, nos: Octet, segment: Bytes, ca: CommonAddr,
      allowTrailing: bool)
    requires InfoObjAddrFits(p, ioa) && nof < 0x1_0000 && |segment| <= MaxSegmentSize(p) && CommonAddrFits(p, ca)
    ensures var a := Asdu(F_SG_NA_1, false, 1, 13, false, false, 0, ca, SegmentOctets(p, ioa, nof, nos, segment));
            && Marshal(p, a).Ok? && Unmarshal(p, allowTrailing, Marshal(p, a).value) == Result.Ok(a)
            && SegmentOf(p, a.infoObj) == (ioa, nof, nos, segment)
  {
    var b := SegmentOctets(p, ioa, nof, nos, segment);
    var a := Asdu(F_SG_NA_1, false, 1, 13, false, false, 0, ca, b);
    SegmentParts(IoaOctets(p, ioa), Little(nof, 2), nos, Low(|segment|), segment, b);
    SegmentReads(p, ioa, nof, nos, segment, b);
    SegmentMarshals(p, a, |segment|);
    DecoderAgreesExactlyWhen(p, allowTrailing, a);
  }

  lemma SegmentReads(p: ValidParams, ioa: nat, nof: nat, nos: Octet, segment: Bytes, b: Bytes)
    requires InfoObjAddrFits(p, ioa) && nof < 0x1_0000 && |segment| <= 255
    requires
      var w := p.infoObjAddrSize;
      && |b| == w + 4 + |segment| && b[..w] == IoaOctets(p, ioa) && b[w..w + 2] == Little(nof, 2)
      && b[w + 2] == nos && b[w + 3] == |segment| && b[w + 4..] == segment
    ensures SegmentOf(p, b) == (ioa, nof, nos, segment)
  {
    IoaRoundTrip(p, ioa);
    Capacities();
    LittleJoins(nof, 2);
    assert segment[..|segment|] == segment;
  }

  lemma SegmentMarshals(p: ValidParams, a: Asdu, n: nat)
    requires a.typeId == F_SG_NA_1 && a.number == 1 && a.cause == 13 && CommonAddrFits(p, a.ca)
    requires n <= MaxSegmentSize(p) && |a.infoObj| == p.infoObjAddrSize + 4 + n && a.infoObj[p.infoObjAddrSize + 3] == n
    ensures Marshal(p, a).Ok? && SizeKnown(p, a)
  {
  }
}
