/** Octets and octet strings, shared by every layer. */
module Octets {

  type Octet = x: int | 0 <= x < 256
  type Bytes = seq<Octet>

  datatype Option<+T> = None | Some(value: T)

  datatype Result<+T, +E> = Ok(value: T) | Err(error: E)

  /** The low octet of a natural number: Go's byte(n). */
  function Low(n: nat): Octet {
    n % 256
  }

  /** The low octets of a number, lowest first: byte(n), byte(n>>8) and so on. */
  function Little(n: nat, width: nat): (r: Bytes)
    ensures |r| == width
  {
    if width == 0 then [] else [Low(n)] + Little(n / 256, width - 1)
  }

  /** How many numbers fit a width. */
  function Capacity(width: nat): nat {
    if width == 0 then 1 else 256 * Capacity(width - 1)
  }

  lemma Capacities()
    ensures Capacity(1) == 0x100 && Capacity(2) == 0x1_0000 && Capacity(3) == 0x100_0000 && Capacity(4) == 0x1_0000_0000
  {
    assert Capacity(1) == 256 * Capacity(0) && Capacity(2) == 256 * Capacity(1) && Capacity(3) == 256 * Capacity(2);
  }

  /** The number whose octets these are. */
  function Joined(b: Bytes): (r: nat)
    ensures r < Capacity(|b|)
  {
    if b == [] then 0 else b[0] + 256 * Joined(b[1..])
  }

  /** One, two or three octets as the program writes them. */
  lemma WrittenOut(n: nat)
    ensures Little(n, 1) == [Low(n)] && Little(n, 2) == [Low(n), Low(n / 256)]
    ensures Little(n, 3) == [Low(n), Low(n / 256), Low(n / 0x1_0000)]
  {
    assert Little(n / 256, 1) == [Low(n / 256)] && Little(n / 256 / 256, 1) == [Low(n / 256 / 256)];
    assert Little(n / 256, 2) == [Low(n / 256)] + Little(n / 256 / 256, 1);
    assert n / 256 / 256 == n / 0x1_0000;
  }

  /** And as it reads them. */
  lemma ReadOut(a: Octet, b: Octet, c: Octet)
    ensures Joined([a]) == a && Joined([a, b]) == a + 256 * b && Joined([a, b, c]) == a + 256 * b + 0x1_0000 * c
  {
    assert [a, b, c][1..] == [b, c] && [b, c][1..] == [c] && [a, b][1..] == [b] && [a][1..] == [];
    assert Joined([c]) == c && Joined([b]) == b && Joined([b, c]) == b + 256 * c;
  }

  /** A number that fits the width is the one its octets join to. */
  lemma {:induction false} LittleJoins(n: nat, width: nat)
    requires n < Capacity(width)
    ensures Joined(Little(n, width)) == n
  {
    if width > 0 {
      LittleJoins(n / 256, width - 1);
      assert Little(n, width)[1..] == Little(n / 256, width - 1);
    }
  }

  /** And octets are those of the number they join to. */
  lemma {:induction false} JoinedLittle(b: Bytes)
    ensures Little(Joined(b), |b|) == b
  {
    if b != [] {
      var n := Joined(b);
      assert n % 256 == b[0] && n / 256 == Joined(b[1..]);
      JoinedLittle(b[1..]);
    }
  }

  /** All pieces, joined in order. */
  function Flatten<T>(pieces: seq<seq<T>>): seq<T> {
    if pieces == [] then [] else pieces[0] + Flatten(pieces[1..])
  }

  lemma {:induction false} FlattenAppend<T>(a: seq<seq<T>>, b: seq<seq<T>>)
    ensures Flatten(a + b) == Flatten(a) + Flatten(b)
  {
    if a == [] {
      assert a + b == b;
    } else {
      FlattenAppend(a[1..], b);
      assert (a + b)[0] == a[0] && (a + b)[1..] == a[1..] + b;
      Assoc(a[0], Flatten(a[1..]), Flatten(b));
    }
  }

  lemma Assoc<T>(a: seq<T>, b: seq<T>, c: seq<T>)
    ensures (a + b) + c == a + (b + c)
  {
  }

  /** A piece of a piece. */
  lemma PieceOf<T>(t: seq<T>, from: nat, to: nat, i: nat, j: nat)
    requires from <= to <= |t| && i <= j && from + j <= to
    ensures t[from..to][i..j] == t[from + i..from + j]
  {
    var a, b := t[from..to][i..j], t[from + i..from + j];
    assert |a| == |b| && forall k :: 0 <= k < |a| ==> a[k] == b[k];
  }

  /** What stands second in a concatenation. */
  lemma SecondPart<T>(a: seq<T>, b: seq<T>, c: seq<T>)
    ensures (a + b + c)[|a|..|a| + |b|] == b
  {
  }

  lemma FlattenSnoc<T>(a: seq<seq<T>>, x: seq<T>)
    ensures Flatten(a + [x]) == Flatten(a) + x
  {
    FlattenAppend(a, [x]);
    assert Flatten([x]) == x;
  }

  /** Arithmetic sum of the octets. */
  function Sum(b: Bytes): nat {
    if b == [] then 0 else b[0] + Sum(b[1..])
  }

  lemma {:induction false} SumAppend(a: Bytes, b: Bytes)
    ensures Sum(a + b) == Sum(a) + Sum(b)
  {
    if a == [] {
      assert a + b == b;
    } else {
      SumAppend(a[1..], b);
      assert (a + b)[1..] == a[1..] + b;
    }
  }

  /** Replacing one octet moves the sum by exactly the difference. */
  lemma SumUpdate(a: Bytes, i: nat, x: Octet)
    requires i < |a|
    ensures Sum(a[i := x]) == Sum(a) - a[i] + x
  {
    assert a == a[..i] + ([a[i]] + a[i + 1..]);
    assert a[i := x] == a[..i] + ([x] + a[i + 1..]);
    SumAppend(a[..i], [a[i]] + a[i + 1..]);
    SumAppend(a[..i], [x] + a[i + 1..]);
  }
}
