/** 15-bit sequence numbers of IEC 60870-5-104, kept by the program in uint16 variables. */
module SeqNo {

  const MODULUS: nat := 32768

  type SeqNum = x: int | 0 <= x < 32768

  /** The sequence number carried on the wire for the n-th frame. */
  function Wrap(n: nat): SeqNum {
    n % MODULUS
  }

  /** The number d places ahead. */
  function Ahead(s: SeqNum, d: nat): SeqNum {
    (s + d) % MODULUS
  }

  /** (s + 1) & 32767 */
  function Next(s: SeqNum): SeqNum {
    if s == 32767 then 0 else s + 1
  }

  /** (ackNo - 1) & 32767 */
  function Previous(s: SeqNum): SeqNum {
    if s == 0 then 32767 else s - 1
  }

  /** seqNoCount: how many numbers lie in [nextAckNo, nextSeqNo). */
  function SeqNoCount(nextAckNo: SeqNum, nextSeqNo: SeqNum): nat {
    if nextAckNo > nextSeqNo then nextSeqNo + 32768 - nextAckNo else nextSeqNo - nextAckNo
  }

  /** The definitions above are what wrapping uint16 arithmetic and the mask 32767 compute. */
  lemma Uint16Arithmetic(a: SeqNum, s: SeqNum)
    ensures Next(s) == (s + 1) % 65536 % 32768
    ensures Previous(s) == (s - 1 + 65536) % 65536 % 32768
    ensures SeqNoCount(a, s) == ((if a > s then (s + 32768) % 65536 else s) - a + 65536) % 65536
  {
  }

  /** The count is the modular distance: the only number below 32768 that leads from one to the other. */
  lemma SeqNoCountIsDistance(a: SeqNum, s: SeqNum, d: nat)
    requires d < MODULUS
    ensures Ahead(a, d) == s <==> d == SeqNoCount(a, s)
  {
  }

  /** On a window no wider than 32767 the wire numbers count exactly what the unbounded ones do. */
  lemma CountUnwraps(a: nat, s: nat)
    requires a <= s <= a + 32767
    ensures SeqNoCount(Wrap(a), Wrap(s)) == s - a
  {
    SeqNoCountIsDistance(Wrap(a), Wrap(s), s - a);
    assert Ahead(Wrap(a), s - a) == Wrap(s);
  }

  /** Two unbounded numbers less than 32768 apart are equal exactly when their wire forms are. */
  lemma WrapInjective(a: nat, b: nat)
    requires a <= b < a + MODULUS
    ensures Wrap(a) == Wrap(b) <==> a == b
  {
    CountUnwraps(a, b);
  }

  lemma WrapNext(a: nat)
    ensures Next(Wrap(a)) == Wrap(a + 1)
    ensures Previous(Wrap(a + 1)) == Wrap(a)
  {
  }
}
