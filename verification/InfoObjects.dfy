/**
 * Lists of information objects: single points, step positions, normalized values and counters, one
 * address each or one address for the whole sequence.
 */
module InfoObjects {
  import opened Octets
  import opened AsduParams
  import opened AsduCodec

  type Int16 = x: int | -0x8000 <= x < 0x8000
  type Int32 = x: int | -0x8000_0000 <= x < 0x8000_0000

  datatype Value =
    | Point(on: bool)
    | Step(val: int, transient: bool)
    | Normalized(n: Int16)
    | Counter(reading: Int32, seqNumber: Octet, carry: bool, adjusted: bool, invalid: bool)

  /** One information object; the time tag is carried as the octets the time codec makes of it. */
  datatype Info = Info(ioa: nat, value: Value, qds: Octet, tag: Bytes)

  datatype Kind = Points | Steps | Normals | NormalsBare | Counters

  /** The element and the size of the time tag of a type identification. */
  datatype Layout = Layout(kind: Kind, tagSize: nat)

  function LayoutOf(typeId: nat): Option<Layout> {
    if typeId == 1 then Some(Layout(Points, 0)) else if typeId == 2 then Some(Layout(Points, 3))
    else if typeId == 30 then Some(Layout(Points, 7))
    else if typeId == 5 then Some(Layout(Steps, 0)) else if typeId == 6 then Some(Layout(Steps, 3))
    else if typeId == 32 then Some(Layout(Steps, 7))
    else if typeId == 9 then Some(Layout(Normals, 0)) else if typeId == 10 then Some(Layout(Normals, 3))
    else if typeId == 34 then Some(Layout(Normals, 7)) else if typeId == 21 then Some(Layout(NormalsBare, 0))
    else if typeId == 15 then Some(Layout(Counters, 0)) else if typeId == 16 then Some(Layout(Counters, 3))
    else if typeId == 37 then Some(Layout(Counters, 7))
    else None
  }

  function ElementSize(kind: Kind): nat {
    match kind
    case Points => 1
    case Steps => 2
    case Normals => 3
    case NormalsBare => 2
    case Counters => 5
  }

  function ObjSize(l: Layout): nat {
    ElementSize(l.kind) + l.tagSize
  }

  predicate Typed(l: Layout, x: Info) {
    && |x.tag| == l.tagSize
    && match l.kind
       case Points => x.value.Point?
       case Steps => x.value.Step?
       case Normals | NormalsBare => x.value.Normalized?
       case Counters => x.value.Counter?
  }

  // ---- primitives ----

  /** Two's complement in the given range, as the octets see it. */
  function Unsigned(v: int, range: nat): nat
    requires -(range as int) <= v
  {
    if v < 0 then v + range else v
  }

  function Signed(u: nat, range: nat): int {
    if 2 * u < range then u else u - range
  }

  function IoaOctets(p: ValidParams, ioa: nat): (r: Bytes)
    ensures |r| == p.infoObjAddrSize
  {
    Little(ioa, p.infoObjAddrSize)
  }

  function IoaOf(p: ValidParams, b: Bytes): nat
    requires |b| >= p.infoObjAddrSize
  {
    Joined(b[..p.infoObjAddrSize])
  }

  function Flag(b: bool, weight: nat): nat {
    if b then weight else 0
  }

  function StepOctet(val: int, transient: bool): Octet {
    val % 128 + Flag(transient, 128)
  }

  function StepOf(b: Octet): Value {
    Step(if (b / 64) % 2 == 0 then b % 64 else b % 64 - 64, b / 128 == 1)
  }

  function CounterFlags(v: Value): Octet
    requires v.Counter?
  {
    v.seqNumber % 32 + Flag(v.carry, 32) + Flag(v.adjusted, 64) + Flag(v.invalid, 128)
  }

  function CounterWith(reading: Int32, flags: Octet): Value {
    Counter(reading, flags % 32, (flags / 32) % 2 == 1, (flags / 64) % 2 == 1, flags / 128 == 1)
  }

  function CounterOctets(v: Value): (r: Bytes)
    requires v.Counter?
    ensures |r| == 5
  {
    Little(Unsigned(v.reading, 0x1_0000_0000), 4) + [CounterFlags(v)]
  }

  function CounterOf(b: Bytes): Value
    requires |b| >= 5
  {
    Capacities();
    CounterWith(Signed(Joined(b[..4]), 0x1_0000_0000), b[4])
  }

  // ---- one object ----

  function ElementOctets(l: Layout, x: Info): (r: Bytes)
    requires Typed(l, x)
    ensures |r| == ElementSize(l.kind)
  {
    match l.kind
    case Points => [Flag(x.value.on, 1) + x.qds / 16 * 16]
    case Steps => [StepOctet(x.value.val, x.value.transient), x.qds]
    case Normals => Little(Unsigned(x.value.n, 0x1_0000), 2) + [x.qds]
    case NormalsBare => Little(Unsigned(x.value.n, 0x1_0000), 2)
    case Counters => CounterOctets(x.value)
  }

  /** The value and the quality descriptor read from the octets. */
  function ElementOf(l: Layout, b: Bytes): (Value, Octet)
    requires |b| >= ElementSize(l.kind)
  {
    Capacities();
    match l.kind
    case Points => (Point(b[0] % 2 == 1), b[0] / 16 * 16)
    case Steps => (StepOf(b[0]), b[1])
    case Normals => (Normalized(Signed(Joined(b[..2]), 0x1_0000)), b[2])
    case NormalsBare => (Normalized(Signed(Joined(b[..2]), 0x1_0000)), 0)
    case Counters =>
      (CounterOf(b), 0)
  }

  function ObjectOctets(p: ValidParams, l: Layout, withAddr: bool, x: Info): (r: Bytes)
    requires Typed(l, x)
    ensures |r| == Flag(withAddr, p.infoObjAddrSize) + ObjSize(l)
  {
    (if withAddr then IoaOctets(p, x.ioa) else []) + (ElementOctets(l, x) + x.tag)
  }

  // ---- lists ----

  /** Objects one after the other; in a sequence only the first carries its address. */
  function ListOctets(p: ValidParams, l: Layout, isSequence: bool, first: bool, xs: seq<Info>): Bytes
    requires forall i :: 0 <= i < |xs| ==> Typed(l, xs[i])
    decreases |xs|
  {
    if xs == [] then []
    else ObjectOctets(p, l, !isSequence || first, xs[0]) + ListOctets(p, l, isSequence, false, xs[1..])
  }

  /** The octets n objects take. */
  function Need(p: ValidParams, l: Layout, isSequence: bool, first: bool, n: nat): nat
    decreases n
  {
    if n == 0 then 0 else Flag(!isSequence || first, p.infoObjAddrSize) + ObjSize(l) + Need(p, l, isSequence,
        false, n - 1)
  }

  function TakeObject(p: ValidParams, l: Layout, withAddr: bool, next: nat, s: Bytes): Info
    requires |s| >= Flag(withAddr, p.infoObjAddrSize) + ObjSize(l)
  {
    var w := Flag(withAddr, p.infoObjAddrSize);
    var e := ElementSize(l.kind);
    var (value, qds) := ElementOf(l, s[w..w + e]);
    Info(if withAddr then IoaOf(p, s[..w]) else next, value, qds, s[w + e..w + e + l.tagSize])
  }

  lemma TakeIs(p: ValidParams, l: Layout, withAddr: bool, next: nat, s: Bytes, element: Bytes, tag: Bytes, ioa: nat)
    requires |s| >= Flag(withAddr, p.infoObjAddrSize) + ObjSize(l) && |element| == ElementSize(l.kind)
    requires var w, e := Flag(withAddr, p.infoObjAddrSize), ElementSize(l.kind);
             && s[w..w + e] == element && s[w + e..w + e + l.tagSize] == tag
             && ioa == if withAddr then IoaOf(p, s[..w]) else next
    ensures TakeObject(p, l, withAddr, next, s) == Info(ioa, ElementOf(l, element).0, ElementOf(l, element).1, tag)
  {
  }

  /** n objects from the head of the octets, and what is left; next is the address that follows in a sequence. */
  function TakeList(p: ValidParams, l: Layout, isSequence: bool, first: bool, next: nat, n: nat,
      s: Bytes): (r: (seq<Info>, Bytes))
    requires |s| >= Need(p, l, isSequence, first, n)
    ensures |r.0| == n && |r.1| == |s| - Need(p, l, isSequence, first, n)
    decreases n
  {
    if n == 0 then ([], s)
    else
      var withAddr := !isSequence || first;
      var x := TakeObject(p, l, withAddr, next, s);
      var (xs, rest) := TakeList(p, l, isSequence, false, x.ioa + 1, n - 1, s[Flag(withAddr,
          p.infoObjAddrSize) + ObjSize(l)..]);
      ([x] + xs, rest)
  }

  /** The addresses that are written must fit; a sequence writes only the first. */
  predicate AddrsFit(p: Params, isSequence: bool, first: bool, xs: seq<Info>)
    decreases |xs|
  {
    xs == [] || ((!isSequence || first ==> InfoObjAddrFits(p, xs[0].ioa)) && AddrsFit(p, isSequence, false, xs[1..]))
  }

  /** checkValid and SetVariableNumber */
  function CheckValid(p: ValidParams, typeId: nat, isSequence: bool, n: nat): Option<AsduError> {
    if n == 0 then Some(NotAnyObjInfo)
    else
      match GetInfoObjSize(typeId)
      case None => Some(TypeIdentifier)
      case Some(objSize) =>
        if IdentifierSize(p) + ObjectsSize(p, isSequence, n, objSize) > ASDU_SIZE_MAX then Some(LengthOutOfRange)
        else if n >= 128 then Some(InfoObjIndexFit)
        else None
  }

  function EncodeList(p: ValidParams, typeId: Octet, isSequence: bool, xs: seq<Info>): Result<Bytes, AsduError>
    requires LayoutOf(typeId).Some? ==> forall i :: 0 <= i < |xs| ==> Typed(LayoutOf(typeId).value, xs[i])
  {
    var refused := CheckValid(p, typeId, isSequence, |xs|);
    if refused.Some? then Err(refused.value)
    else if !InfoObjAddrFits(p, xs[0].ioa) then Err(InfoObjAddrFit)
    else if LayoutOf(typeId) == None then Err(TypeIdNotMatch)
    else if !AddrsFit(p, isSequence, true, xs) then Err(InfoObjAddrFit)
    else Ok(ListOctets(p, LayoutOf(typeId).value, isSequence, true, xs))
  }

  // ---- as the program does it ----

  /**
   * The information objects of an ASDU under construction or being read: InfoObj grows at the end and is read
   * from its head.
   */
  class ObjectBuffer {
    const params: ValidParams
    var infoObj: Bytes

    constructor (params: ValidParams, infoObj: Bytes)
      ensures this.params == params && this.infoObj == infoObj
    {
      this.params, this.infoObj := params, infoObj;
    }

    method AppendBytes(b: Bytes)
      modifies this
      ensures infoObj == old(infoObj) + b
    {
      infoObj := infoObj + b;
    }

    method AppendInfoObjAddr(ioa: nat) returns (ok: bool)
      modifies this
      ensures ok == InfoObjAddrFits(params, ioa)
      ensures infoObj == old(infoObj) + (if ok then IoaOctets(params, ioa) else [])
    {
      WrittenOut(ioa);
      if params.infoObjAddrSize == 1 {
        if ioa > 255 { return false; }
        infoObj := infoObj + [ioa];
      } else if params.infoObjAddrSize == 2 {
        if ioa > 65535 { return false; }
        infoObj := infoObj + [Low(ioa), Low(ioa / 256)];
      } else {
        if ioa > 16777215 { return false; }
        infoObj := infoObj + [Low(ioa), Low(ioa / 256), Low(ioa / 0x1_0000)];
      }
      return true;
    }

    method DecodeInfoObjAddr() returns (ioa: nat)
      requires |infoObj| >= params.infoObjAddrSize
      modifies this
      ensures ioa == IoaOf(params, old(infoObj)[..params.infoObjAddrSize])
      ensures infoObj == old(infoObj)[params.infoObjAddrSize..]
    {
      var b := infoObj;
      infoObj := infoObj[params.infoObjAddrSize..];
      assert b[..params.infoObjAddrSize][..params.infoObjAddrSize] == b[..params.infoObjAddrSize];
      if params.infoObjAddrSize == 1 {
        ReadOut(b[0], 0, 0);
        assert b[..1] == [b[0]];
        ioa := b[0];
      } else if params.infoObjAddrSize == 2 {
        ReadOut(b[0], b[1], 0);
        assert b[..2] == [b[0], b[1]];
        ioa := (b[0] as int) + 256 * (b[1] as int);
      } else {
        ReadOut(b[0], b[1], b[2]);
        assert b[..3] == [b[0], b[1], b[2]];
        ioa := (b[0] as int) + 256 * (b[1] as int) + 0x1_0000 * (b[2] as int);
      }
    }

    method Decode(n: nat) returns (b: Bytes)
      requires |infoObj| >= n
      modifies this
      ensures b == old(infoObj)[..n] && infoObj == old(infoObj)[n..]
    {
      b, infoObj := infoObj[..n], infoObj[n..];
    }

    /** One turn of the encode loops. */
    method AppendObject(layout: Option<Layout>, withAddr: bool, v: Info) returns (err: Option<AsduError>)
      requires layout.Some? ==> Typed(layout.value, v)
      modifies this
      ensures err == if withAddr && !InfoObjAddrFits(params, v.ioa) then Some(InfoObjAddrFit)
                     else if layout == None then Some(TypeIdNotMatch) else None
      ensures err == None ==> infoObj == old(infoObj) + ObjectOctets(params, layout.value, withAddr, v)
    {
      if withAddr {
        var ok := AppendInfoObjAddr(v.ioa);
        if !ok {
          return Some(InfoObjAddrFit);
        }
      }
      if layout == None {
        return Some(TypeIdNotMatch);
      }
      AppendBytes(ElementOctets(layout.value, v));
      AppendBytes(v.tag);
      return None;
    }

    /** The loop of single, step, measuredValueNormal and integratedTotals. */
    method EncodeLoop(layout: Option<Layout>, isSequence: bool, infos: seq<Info>) returns (err: Option<AsduError>)
      requires infoObj == [] && infos != []
      requires layout.Some? ==> forall i :: 0 <= i < |infos| ==> Typed(layout.value, infos[i])
      modifies this
      ensures err == if !InfoObjAddrFits(params, infos[0].ioa) then Some(InfoObjAddrFit)
                     else if layout == None then Some(TypeIdNotMatch)
                     else if !AddrsFit(params, isSequence, true, infos) then Some(InfoObjAddrFit) else None
      ensures err == None ==> infoObj == ListOctets(params, layout.value, isSequence, true, infos)
    {
      err := None;
      assert infos[0..] == infos && infoObj + ListOctets0(params, layout, isSequence, true, infos)
          == ListOctets0(params, layout, isSequence, true, infos);
      var once := false;
      for i := 0 to |infos|
        invariant once == (i > 0) && (i > 0 ==> layout.Some? && InfoObjAddrFits(params, infos[0].ioa)) && err == None
        invariant AddrsFit(params, isSequence, true, infos) == AddrsFit(params, isSequence, i == 0, infos[i..])
        invariant infoObj + ListOctets0(params, layout, isSequence, i == 0, infos[i..])
            == ListOctets0(params, layout, isSequence, true, infos)
      {
        ghost var before := infoObj;
        AddrsUnfold(params, isSequence, infos, i);
        err := AppendObject(layout, !isSequence || !once, infos[i]);
        if err.Some? {
          return;
        }
        once := true;
        ListUnfolds(params, layout.value, isSequence, infos, i, before);
      }
      assert infos[|infos|..] == [] && infoObj + [] == infoObj;
    }

    method EncodeObjects(typeId: Octet, isSequence: bool, infos: seq<Info>) returns (err: Option<AsduError>)
      requires infoObj == []
      requires LayoutOf(typeId).Some? ==> forall i :: 0 <= i < |infos| ==> Typed(LayoutOf(typeId).value, infos[i])
      modifies this
      ensures match EncodeList(params, typeId, isSequence, infos)
              case Ok(octets) => err == None && infoObj == octets
              case Err(e) => err == Some(e)
    {
      err := CheckValid(params, typeId, isSequence, |infos|);
      if err == None {
        err := EncodeLoop(LayoutOf(typeId), isSequence, infos);
      }
    }

    /** One turn of the decode loops. */
    method DecodeObject(layout: Layout, withAddr: bool, next: nat) returns (x: Info)
      requires |infoObj| >= Flag(withAddr, params.infoObjAddrSize) + ObjSize(layout)
      modifies this
      ensures x == TakeObject(params, layout, withAddr, next, old(infoObj))
      ensures infoObj == old(infoObj)[Flag(withAddr, params.infoObjAddrSize) + ObjSize(layout)..]
    {
      ghost var s, w, e := infoObj, Flag(withAddr, params.infoObjAddrSize), ElementSize(layout.kind);
      var infoObjAddr := next;
      if withAddr {
        infoObjAddr := DecodeInfoObjAddr();
      }
      assert infoObj == s[w..];
      var element := Decode(ElementSize(layout.kind));
      assert element == s[w..w + e] && infoObj == s[w + e..];
      var tag := Decode(layout.tagSize);
      var (value, qds) := ElementOf(layout, element);
      TakeIs(params, layout, withAddr, next, s, element, tag, infoObjAddr);
      return Info(infoObjAddr, value, qds, tag);
    }

    /** The same, in the middle of a list of which got was read. */
    method DecodeNext(layout: Layout, isSequence: bool, first: bool, next: nat, ghost left: nat,
        ghost got: seq<Info>, ghost whole: seq<Info>)
        returns (x: Info)
      requires left > 0 && Reading(params, layout, isSequence, first, next, left, infoObj, got, whole)
      modifies this
      ensures Reading(params, layout, isSequence, false, x.ioa + 1, left - 1, infoObj, got + [x], whole)
    {
      ghost var s := infoObj;
      ReadingFits(params, layout, isSequence, first, left, s);
      x := DecodeObject(layout, !isSequence || first, next);
      ReadingOn(params, layout, isSequence, first, next, left, s, got, whole, x, infoObj);
    }

    /** The loop of the Get decoders; InfoObj is restored on exit. */
    method GetObjects(layout: Layout, isSequence: bool, number: nat) returns (infos: seq<Info>)
      requires |infoObj| >= Need(params, layout, isSequence, true, number)
      modifies this
      ensures infoObj == old(infoObj)
      ensures infos == TakeList(params, layout, isSequence, true, 0, number, old(infoObj)).0
    {
      var saved := infoObj;
      infos := [];
      var once := false;
      var next: nat := 0;
      ghost var whole := TakeList(params, layout, isSequence, true, 0, number, infoObj).0;
      assert infos + whole == whole;
      ghost var left := number;
      for i := 0 to number
        invariant left == number - i
        invariant Reading(params, layout, isSequence, !once, next, left, infoObj, infos, whole)
      {
        var x := DecodeNext(layout, isSequence, !once, next, left, infos, whole);
        once, next, infos, left := true, x.ioa + 1, infos + [x], left - 1;
      }
      assert infos + [] == infos;
      infoObj := saved;
    }
  }

  /** ListOctets when the type has a layout. */
  function ListOctets0(p: ValidParams, l: Option<Layout>, isSequence: bool, first: bool, xs: seq<Info>): Bytes
    requires l.Some? ==> forall i :: 0 <= i < |xs| ==> Typed(l.value, xs[i])
  {
    if l == None then [] else ListOctets(p, l.value, isSequence, first, xs)
  }

  lemma AddrsUnfold(p: ValidParams, isSequence: bool, xs: seq<Info>, i: nat)
    requires i < |xs|
    ensures AddrsFit(p, isSequence, i == 0, xs[i..])
            == ((!isSequence || i == 0 ==> InfoObjAddrFits(p, xs[i].ioa)) && AddrsFit(p, isSequence, false, xs[i + 1..]))
  {
    assert xs[i..][1..] == xs[i + 1..];
  }

  lemma ListUnfolds(p: ValidParams, l: Layout, isSequence: bool, xs: seq<Info>, i: nat, before: Bytes)
    requires i < |xs| && forall k :: 0 <= k < |xs| ==> Typed(l, xs[k])
    ensures before + ListOctets(p, l, isSequence, i == 0, xs[i..])
            == (before + ObjectOctets(p, l, !isSequence || i == 0, xs[i]))
               + ListOctets(p, l, isSequence, false, xs[i + 1..])
  {
    var head, tail := ObjectOctets(p, l, !isSequence || i == 0, xs[i]), ListOctets(p, l, isSequence, false, xs[i + 1..]);
    ListHead(p, l, isSequence, xs, i);
    Assoc(before, head, tail);
  }

  lemma ListHead(p: ValidParams, l: Layout, isSequence: bool, xs: seq<Info>, i: nat)
    requires i < |xs| && forall k :: 0 <= k < |xs| ==> Typed(l, xs[k])
    ensures ListOctets(p, l, isSequence, i == 0, xs[i..])
            == ObjectOctets(p, l, !isSequence || i == 0, xs[i]) + ListOctets(p, l, isSequence, false, xs[i + 1..])
  {
    assert xs[i..][1..] == xs[i + 1..];
  }

  /** What was read so far and what the rest of the octets holds make up the whole list. */
  ghost predicate Reading(p: ValidParams, l: Layout, isSequence: bool, first: bool, next: nat, n: nat, s: Bytes,
                          before: seq<Info>, whole: seq<Info>) {
    |s| >= Need(p, l, isSequence, first, n) && before + TakeList(p, l, isSequence, first, next, n, s).0 == whole
  }

  lemma ReadingFits(p: ValidParams, l: Layout, isSequence: bool, first: bool, n: nat, s: Bytes)
    requires n > 0 && |s| >= Need(p, l, isSequence, first, n)
    ensures |s| >= Flag(!isSequence || first, p.infoObjAddrSize) + ObjSize(l)
  {
  }

  lemma ReadingOn(p: ValidParams, l: Layout, isSequence: bool, first: bool, next: nat, n: nat, s: Bytes,
                  before: seq<Info>, whole: seq<Info>, x: Info, tail: Bytes)
    requires n > 0 && Reading(p, l, isSequence, first, next, n, s, before, whole)
    requires |s| >= Flag(!isSequence || first, p.infoObjAddrSize) + ObjSize(l)
    requires x == TakeObject(p, l, !isSequence || first, next, s)
    requires tail == s[Flag(!isSequence || first, p.infoObjAddrSize) + ObjSize(l)..]
    ensures Reading(p, l, isSequence, false, x.ioa + 1, n - 1, tail, before + [x], whole)
  {
    hide TakeObject, ObjSize;
    var rest := TakeList(p, l, isSequence, false, x.ioa + 1, n - 1, tail).0;
    assert TakeList(p, l, isSequence, first, next, n, s).0 == [x] + rest;
    Assoc(before, [x], rest);
  }
}
