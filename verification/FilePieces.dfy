/** Sections, segments and their checksums. */
module FilePieces {
  import opened AsduParams
  import opened Octets
  import opened FileTransfer

  /** Sections and segments put back together are the data they were cut from, none is empty or too long. */
  lemma {:induction false} CutJoins(data: Bytes, n: nat)
    requires n > 0
    ensures Flatten(Cut(data, n)) == data
    ensures forall i :: 0 <= i < |Cut(data, n)| ==> 0 < |Cut(data, n)[i]| <= n
    ensures forall i :: 0 <= i < |Cut(data, n)| - 1 ==> |Cut(data, n)[i]| == n
  {
    if |data| > n {
      CutJoins(data[n..], n);
      assert data == data[..n] + data[n..];
    } else if data != [] {
      assert Flatten([data]) == data + Flatten([]);
    }
  }

  /** The number of pieces: the quotient, rounded up. */
  lemma {:induction false} CutCount(data: Bytes, n: nat)
    requires n > 0
    ensures (|Cut(data, n)| - 1) * n < |data| || data == []
    ensures |data| <= |Cut(data, n)| * n
  {
    if |data| > n {
      CutCount(data[n..], n);
    }
  }

  lemma SectionsJoin(data: Bytes, n: nat)
    requires n > 0
    ensures Flatten(SplitSections(data, n)) == data && |SplitSections(data, n)| > 0
    ensures forall i :: 0 <= i < |SplitSections(data, n)| ==> |SplitSections(data, n)[i]| <= n
  {
    CutJoins(data, n);
    if data == [] {
      assert Flatten([[]]) == [] + Flatten<Octet>([]);
    }
  }

  lemma TimesMonotone(a: int, b: int, n: nat)
    requires a <= b
    ensures a * n <= b * n
  {
    assert 0 <= (b - a) * n;
  }

  /** More than k sections exactly when the data exceeds k sections' worth. */
  lemma SectionsAtMost(data: Bytes, n: nat, k: nat)
    requires n > 0 && k > 0
    ensures |SplitSections(data, n)| <= k <==> |data| <= k * n
  {
    if data == [] {
      TimesMonotone(0, k, n);
    } else {
      CutCount(data, n);
      var m := |Cut(data, n)|;
      if m <= k {
        TimesMonotone(m, k, n);
      } else {
        TimesMonotone(k, m - 1, n);
      }
    }
  }

  /** Every segment of a section fits an ASDU for all parameters in the standard's range. */
  lemma SegmentsFit(p: ValidParams, section: Bytes)
    ensures 236 <= MaxSegmentSize(p) <= 240
    ensures forall i :: 0 <= i < |Cut(section, MaxSegmentSize(p))| ==>
              IdentifierSize(p) + p.infoObjAddrSize + 4 + |Cut(section, MaxSegmentSize(p))[i]| <= ASDU_SIZE_MAX
  {
    CutJoins(section, MaxSegmentSize(p));
  }

  lemma LowSum(a: nat, b: nat)
    ensures Low(Low(a) + Low(b)) == Low(a + b)
  {
  }

  /** The checksum over the sections, added up in octets, is the checksum of the whole file. */
  lemma {:induction false} ChecksumOfSections(sections: seq<Bytes>)
    ensures ChecksumOver(sections) == Checksum(Flatten(sections))
  {
    if sections != [] {
      var n := |sections| - 1;
      ChecksumOfSections(sections[..n]);
      assert sections == sections[..n] + [sections[n]];
      FlattenSnoc(sections[..n], sections[n]);
      SumAppend(Flatten(sections[..n]), sections[n]);
      LowSum(Sum(Flatten(sections[..n])), Sum(sections[n]));
    }
  }

  /** Damage to a single octet never escapes the checksum. */
  lemma OneOctetDetected(b: Bytes, i: nat, x: Octet)
    requires i < |b| && x != b[i]
    ensures Checksum(b[i := x]) != Checksum(b)
  {
    SumUpdate(b, i, x);
  }

  /** Two swapped octets do. */
  lemma SwapEscapes(b: Bytes, i: nat, j: nat)
    requires i < |b| && j < |b|
    ensures Checksum(b[i := b[j]][j := b[i]]) == Checksum(b)
  {
    SumUpdate(b, i, b[j]);
    SumUpdate(b[i := b[j]], j, b[i]);
  }

  /** Pieces of the same lengths that join to the same whole are the same pieces. */
  lemma {:induction false} FlattenInjective(a: seq<Bytes>, b: seq<Bytes>)
    requires |a| == |b| && forall i :: 0 <= i < |a| ==> |a[i]| == |b[i]|
    requires Flatten(a) == Flatten(b)
    ensures a == b
  {
    if a != [] {
      var n := |a[0]|;
      assert Flatten(a)[..n] == a[0] && Flatten(b)[..n] == b[0];
      assert Flatten(a)[n..] == Flatten(a[1..]) && Flatten(b)[n..] == Flatten(b[1..]);
      FlattenInjective(a[1..], b[1..]);
      assert a == [a[0]] + a[1..] && b == [b[0]] + b[1..];
    }
  }

  /** Sections with the checksums of the originals make a file with the checksum of the original. */
  lemma {:induction false} SameChecksums(a: seq<Bytes>, b: seq<Bytes>)
    requires |a| == |b| && forall i :: 0 <= i < |a| ==> Checksum(a[i]) == Checksum(b[i])
    ensures ChecksumOver(a) == ChecksumOver(b)
  {
    if a != [] {
      SameChecksums(a[..|a| - 1], b[..|b| - 1]);
    }
  }
}
