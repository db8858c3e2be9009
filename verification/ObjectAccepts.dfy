/** Which lists of information objects the encoder accepts, and why it refuses the others. */
module ObjectAccepts {
  import opened Octets
  import opened AsduParams
  import opened AsduCodec
  import opened InfoObjects
  import opened ObjectProofs

  /** Every address that is written fits its width: all of them, or the first of a sequence. */
  ghost predicate WrittenAddressesFit(p: ValidParams, isSequence: bool, xs: seq<Info>) {
    forall i :: 0 <= i < (if isSequence then 1 else |xs|) && i < |xs| ==> xs[i].ioa < Capacity(p.infoObjAddrSize)
  }

  lemma FitsCapacity(p: ValidParams, ioa: nat)
    ensures InfoObjAddrFits(p, ioa) <==> ioa < Capacity(p.infoObjAddrSize)
  {
    Capacities();
  }

  lemma {:induction false} AddrsFitAll(p: ValidParams, isSequence: bool, first: bool, xs: seq<Info>)
    ensures AddrsFit(p, isSequence, first, xs)
            <==> forall i :: 0 <= i < |xs| && (!isSequence || (first && i == 0)) ==> InfoObjAddrFits(p, xs[i].ioa)
    decreases |xs|
  {
    if xs != [] {
      AddrsFitAll(p, isSequence, false, xs[1..]);
      assert forall i :: 0 < i < |xs| ==> xs[i] == xs[1..][i - 1];
      assert forall i :: 0 <= i < |xs| - 1 ==> xs[1..][i] == xs[i + 1];
    }
  }

  lemma AddressesFit(p: ValidParams, isSequence: bool, xs: seq<Info>)
    ensures AddrsFit(p, isSequence, true, xs) <==> WrittenAddressesFit(p, isSequence, xs)
  {
    AddrsFitAll(p, isSequence, true, xs);
    forall i | 0 <= i < |xs|
      ensures InfoObjAddrFits(p, xs[i].ioa) <==> xs[i].ioa < Capacity(p.infoObjAddrSize)
    {
      FitsCapacity(p, xs[i].ioa);
    }
  }

  /** The octets the objects would take. */
  lemma OctetsOfList(p: ValidParams, l: Layout, isSequence: bool, xs: seq<Info>)
    requires xs != [] && forall i :: 0 <= i < |xs| ==> Typed(l, xs[i])
    ensures |ListOctets(p, l, isSequence, true, xs)| == ObjectsSize(p, isSequence, |xs|, ObjSize(l))
  {
    ListLength(p, l, isSequence, true, xs);
    NeedIsObjectsSize(p, l, isSequence, true, |xs|);
  }

  /**
   * A list is accepted exactly when it has one to 127 objects, the type has a layout, the addresses that are written fit
   * and the whole ASDU is no longer than 249 octets; the result is then its octets.
   */
  lemma AcceptedExactlyWhen(p: ValidParams, typeId: Octet, isSequence: bool, xs: seq<Info>)
    requires LayoutOf(typeId).Some? ==> forall i :: 0 <= i < |xs| ==> Typed(LayoutOf(typeId).value, xs[i])
    ensures EncodeList(p, typeId, isSequence, xs).Ok?
            <==>
              && 1 <= |xs| <= 127 && LayoutOf(typeId).Some? && WrittenAddressesFit(p, isSequence, xs)
              && 2 + p.causeSize + p.commonAddrSize
                 + |ListOctets(p, LayoutOf(typeId).value, isSequence, true, xs)| <= 249
    ensures EncodeList(p, typeId, isSequence, xs).Ok?
            ==> EncodeList(p, typeId, isSequence, xs).value
                == ListOctets(p, LayoutOf(typeId).value, isSequence, true, xs)
  {
    hide GetInfoObjSize, ListOctets, AddrsFit, WrittenAddressesFit;
    AddressesFit(p, isSequence, xs);
    if xs != [] {
      FirstAddress(p, isSequence, xs);
      if LayoutOf(typeId).Some? {
        LayoutSize(typeId);
        OctetsOfList(p, LayoutOf(typeId).value, isSequence, xs);
      }
    }
  }

  lemma FirstAddress(p: ValidParams, isSequence: bool, xs: seq<Info>)
    requires xs != []
    ensures AddrsFit(p, isSequence, true, xs) ==> InfoObjAddrFits(p, xs[0].ioa)
  {
  }

  /** What is wrong is said in this order: nothing to send, the type, the length, the count, an address. */
  lemma RefusalSays(p: ValidParams, typeId: Octet, isSequence: bool, xs: seq<Info>)
    requires LayoutOf(typeId).Some? ==> forall i :: 0 <= i < |xs| ==> Typed(LayoutOf(typeId).value, xs[i])
    ensures
      var r := EncodeList(p, typeId, isSequence, xs);
      && (xs == [] ==> r == Result.Err(NotAnyObjInfo))
      && (xs != [] && GetInfoObjSize(typeId) == None ==> r == Result.Err(TypeIdentifier))
      && (LayoutOf(typeId) == None ==> r.Err?)
      && (xs != [] && LayoutOf(typeId).Some? ==>
            var n := 2 + p.causeSize + p.commonAddrSize
                     + |ListOctets(p, LayoutOf(typeId).value, isSequence, true, xs)|;
            && (n > 249 ==> r == Result.Err(LengthOutOfRange))
            && (n <= 249 && |xs| > 127 ==> r == Result.Err(InfoObjIndexFit))
            && (n <= 249 && |xs| <= 127 && !WrittenAddressesFit(p, isSequence, xs) ==> r == Result.Err(InfoObjAddrFit)))
  {
    hide GetInfoObjSize, ListOctets, AddrsFit, WrittenAddressesFit;
    AddressesFit(p, isSequence, xs);
    if xs != [] {
      FirstAddress(p, isSequence, xs);
      if LayoutOf(typeId).Some? {
        LayoutSize(typeId);
        OctetsOfList(p, LayoutOf(typeId).value, isSequence, xs);
      }
    }
  }
}
