/** Bytes, fixed-width unsigned integers and the two byte-order reversals the server uses. */
module Bytes {

  type byte = x: int | 0 <= x < 0x100
  type uint16 = x: int | 0 <= x < 0x1_0000
  type uint32 = x: int | 0 <= x < 0x1_0000_0000
  type uint64 = x: int | 0 <= x < 0x1_0000_0000_0000_0000

  function Pow256(n: nat): (p: nat)
    ensures p > 0
  {
    if n == 0 then 1 else 0x100 * Pow256(n - 1)
  }

  // The in-memory image of an unsigned integer of width n on a little-endian host.
  function LittleEndian(v: nat, n: nat): (s: seq<byte>)
    ensures |s| == n
  {
    if n == 0 then [] else [v % 0x100] + LittleEndian(v / 0x100, n - 1)
  }

  function FromLittleEndian(s: seq<byte>): nat {
    if s == [] then 0 else s[0] + 0x100 * FromLittleEndian(s[1..])
  }

  function Reverse<T>(s: seq<T>): (r: seq<T>)
    ensures |r| == |s|
  {
    if s == [] then [] else Reverse(s[1..]) + [s[0]]
  }

  function FromBigEndian(s: seq<byte>): nat {
    FromLittleEndian(Reverse(s))
  }

  function BigEndian(v: nat, n: nat): (s: seq<byte>)
    ensures |s| == n
  {
    Reverse(LittleEndian(v, n))
  }

  /* ------------------------- facts about the images ------------------------- */

  lemma FromLittleEndianBound(s: seq<byte>)
    ensures FromLittleEndian(s) < Pow256(|s|)
  {
  }

  lemma {:induction false} LittleEndianOfFrom(s: seq<byte>)
    ensures LittleEndian(FromLittleEndian(s), |s|) == s
  {
    if s != [] {
      LittleEndianOfFrom(s[1..]);
      var v := FromLittleEndian(s);
      assert v % 0x100 == s[0] && v / 0x100 == FromLittleEndian(s[1..]);
    }
  }

  lemma {:induction false} FromOfLittleEndian(v: nat, n: nat)
    requires v < Pow256(n)
    ensures FromLittleEndian(LittleEndian(v, n)) == v
  {
    if n != 0 {
      FromOfLittleEndian(v / 0x100, n - 1);
      assert LittleEndian(v, n)[1..] == LittleEndian(v / 0x100, n - 1);
    }
  }

  // The images at their literal positions.
  lemma LittleImage(a: byte, b: byte, c: byte, d: byte)
    ensures LittleEndian(a, 1) == [a] && LittleEndian(a + 0x100 * b, 2) == [a, b]
    ensures LittleEndian(a + 0x100 * b + 0x1_0000 * c + 0x100_0000 * d, 4) == [a, b, c, d]
  {
    ImageValues(a, b, c, d);
    LittleEndianOfFrom([a]);
    LittleEndianOfFrom([a, b]);
    LittleEndianOfFrom([a, b, c, d]);
  }

  lemma BigImage(a: byte, b: byte, c: byte, d: byte)
    ensures BigEndian(0x100 * a + b, 2) == [a, b]
    ensures BigEndian(0x100_0000 * a + 0x1_0000 * b + 0x100 * c + d, 4) == [a, b, c, d]
  {
    ImageValues(a, b, c, d);
    BigEndianOfFrom([a, b]);
    BigEndianOfFrom([a, b, c, d]);
  }

  lemma ImageStep(v: nat, n: nat)
    requires n > 0
    ensures LittleEndian(v, n) == [v % 0x100] + LittleEndian(v / 0x100, n - 1) && LittleEndian(v, 0) == []
  {
  }

  lemma ReversedFour<T>(a: T, b: T, c: T, d: T)
    ensures Reverse([a, b]) == [b, a] && Reverse([a, b, c, d]) == [d, c, b, a]
  {
    assert [a, b, c, d][1..] == [b, c, d] && [b, c, d][1..] == [c, d] && [c, d][1..] == [d] && [d][1..] == [];
    assert [a, b][1..] == [b] && [b][1..] == [];
    assert Reverse([d]) == [d] && Reverse([c, d]) == [d, c] && Reverse([b, c, d]) == [d, c, b];
    assert Reverse([b]) == [b];
  }

  // And what they are read as.
  lemma ImageValues(a: byte, b: byte, c: byte, d: byte)
    ensures FromLittleEndian([a]) == a && FromLittleEndian([a, b]) == a + 0x100 * b
    ensures FromBigEndian([a, b]) == 0x100 * a + b
    ensures FromBigEndian([a, b, c, d]) == 0x100_0000 * a + 0x1_0000 * b + 0x100 * c + d
    ensures FromLittleEndian([a, b, c, d]) == a + 0x100 * b + 0x1_0000 * c + 0x100_0000 * d
  {
    ReversedFour(a, b, c, d);
    ValueOfFour(a, b, c, d);
    ValueOfFour(d, c, b, a);
  }

  lemma ValueOfFour(a: byte, b: byte, c: byte, d: byte)
    ensures FromLittleEndian([a]) == a && FromLittleEndian([a, b]) == a + 0x100 * b
    ensures FromLittleEndian([b, a]) == b + 0x100 * a
    ensures FromLittleEndian([a, b, c, d]) == a + 0x100 * b + 0x1_0000 * c + 0x100_0000 * d
  {
    ValueStep(d, []);
    ValueStep(c, [d]);
    ValueStep(b, [c, d]);
    ValueStep(a, [b, c, d]);
    ValueStep(b, []);
    ValueStep(a, [b]);
    ValueStep(a, []);
    ValueStep(b, [a]);
  }

  lemma ValueStep(a: byte, s: seq<byte>)
    ensures FromLittleEndian([a] + s) == a + 0x100 * FromLittleEndian(s)
    ensures FromLittleEndian([]) == 0 && [a] + [] == [a]
  {
    assert ([a] + s)[1..] == s;
  }

  lemma ByteImage(b: byte)
    ensures LittleEndian(b, 1) == [b] && FromLittleEndian([b]) == b
  {
    assert [b][1..] == [];
  }

  lemma {:induction false} FromLittleEndianSnoc(s: seq<byte>, x: byte)
    ensures FromLittleEndian(s + [x]) == FromLittleEndian(s) + x * Pow256(|s|)
  {
    if s == [] {
    } else {
      FromLittleEndianSnoc(s[1..], x);
      assert (s + [x])[1..] == s[1..] + [x];
      var p := Pow256(|s| - 1);
      assert 0x100 * (x * p) == x * (0x100 * p);
    }
  }

  lemma {:induction false} ReverseAt<T>(s: seq<T>, k: nat)
    requires k < |s|
    ensures Reverse(s)[k] == s[|s| - 1 - k]
  {
    if k < |s| - 1 { ReverseAt(s[1..], k); }
  }

  lemma ReverseTwice<T>(s: seq<T>)
    ensures Reverse(Reverse(s)) == s
  {
    forall k: nat | k < |s| ensures Reverse(Reverse(s))[k] == s[k] {
      ReverseAt(Reverse(s), k);
      ReverseAt(s, |s| - 1 - k);
    }
  }

  // The numeric value of swap_endian<T>(v) for sizeof(T) == n.
  function SwapEndian(v: nat, n: nat): nat {
    FromLittleEndian(Reverse(LittleEndian(v, n)))
  }

  lemma SwapEndianBytes(v: nat, n: nat)
    ensures LittleEndian(SwapEndian(v, n), n) == BigEndian(v, n)
    ensures SwapEndian(v, n) < Pow256(n)
  {
    LittleEndianOfFrom(Reverse(LittleEndian(v, n)));
    FromLittleEndianBound(Reverse(LittleEndian(v, n)));
  }

  // Reading a field in host order and swapping it yields its big-endian value.
  lemma SwapAfterRead(s: seq<byte>)
    ensures SwapEndian(FromLittleEndian(s), |s|) == FromBigEndian(s)
  {
    LittleEndianOfFrom(s);
  }

  lemma SwapEndianTwice(v: nat, n: nat)
    requires v < Pow256(n)
    ensures SwapEndian(SwapEndian(v, n), n) == v
  {
    SwapEndianBytes(v, n);
    ReverseTwice(LittleEndian(v, n));
    FromOfLittleEndian(v, n);
  }

  lemma BigEndianOfFrom(s: seq<byte>)
    ensures BigEndian(FromBigEndian(s), |s|) == s
    ensures FromBigEndian(s) < Pow256(|s|)
  {
    LittleEndianOfFrom(Reverse(s));
    ReverseTwice(s);
    FromLittleEndianBound(Reverse(s));
  }

  lemma FromOfBigEndian(v: nat, n: nat)
    requires v < Pow256(n)
    ensures FromBigEndian(BigEndian(v, n)) == v
  {
    ReverseTwice(LittleEndian(v, n));
    FromOfLittleEndian(v, n);
  }

  lemma Widths()
    ensures Pow256(1) == 0x100 && Pow256(2) == 0x1_0000 && Pow256(4) == 0x1_0000_0000
    ensures Pow256(8) == 0x1_0000_0000_0000_0000
  {
    assert Pow256(3) == 0x100_0000 && Pow256(5) == 0x100_0000_0000;
    assert Pow256(6) == 0x1_0000_0000_0000 && Pow256(7) == 0x100_0000_0000_0000;
  }

  /* ------------------------- the two reversals as code ------------------------- */

  /** swap_endian<T>: the bytes of u are copied back to front into dest. */
  method SwapEndianCopy(u: nat, n: nat) returns (r: nat)
    requires u < Pow256(n)
    ensures r < Pow256(n)
    ensures LittleEndian(r, n) == Reverse(LittleEndian(u, n))
    ensures r == SwapEndian(u, n)
  {
    var source := LittleEndian(u, n);
    var dest := new byte[n](_ => 0);
    var k := 0;
    while k < n
      invariant 0 <= k <= n
      invariant forall j :: 0 <= j < k ==> dest[j] == source[n - j - 1]
    {
      dest[k] := source[n - k - 1];
      k := k + 1;
    }
    forall j: nat | j < n ensures dest[..][j] == Reverse(source)[j] {
      ReverseAt(source, j);
    }
    assert dest[..] == Reverse(source);
    r := FromLittleEndian(dest[..]);
    SwapEndianBytes(u, n);
  }

  /** ByteConverter::convert<n> at val + at: swap the two end bytes, then recurse two narrower. */
  method Convert(val: array<byte>, at: nat, n: nat)
    requires at + n <= val.Length
    modifies val
    ensures val[..] == ReversedWithin(old(val[..]), at, n)
    decreases n
  {
    ghost var was := val[..];
    if n <= 1 {
      ReverseShort(was[at..at + n]);
      assert was == was[..at] + was[at..at + n] + was[at + n..];
      return;
    }
    val[at], val[at + n - 1] := val[at + n - 1], val[at];
    assert val[..] == SwappedEnds(was, at, n);
    Convert(val, at + 1, n - 2);
    ConvertStep(was, at, n);
  }

  // s with the n elements from at on reversed in place.
  function ReversedWithin<T>(s: seq<T>, at: nat, n: nat): (r: seq<T>)
    requires at + n <= |s|
    ensures |r| == |s|
  {
    s[..at] + Reverse(s[at..at + n]) + s[at + n..]
  }

  function SwappedEnds<T>(s: seq<T>, at: nat, n: nat): (r: seq<T>)
    requires 2 <= n && at + n <= |s|
    ensures |r| == |s|
  {
    s[at := s[at + n - 1]][at + n - 1 := s[at]]
  }

  lemma ReverseShort<T>(s: seq<T>)
    requires |s| <= 1
    ensures Reverse(s) == s
  {
    if |s| == 1 { assert Reverse(s[1..]) == []; }
  }

  lemma {:induction false} ReverseSnoc<T>(s: seq<T>, x: T)
    ensures Reverse(s + [x]) == [x] + Reverse(s)
  {
    if s == [] {
      ReverseShort([x]);
      assert [] + [x] == [x];
    } else {
      ReverseSnoc(s[1..], x);
      assert (s + [x])[1..] == s[1..] + [x];
    }
  }

  lemma ConvertStep<T>(s: seq<T>, at: nat, n: nat)
    requires 2 <= n && at + n <= |s|
    ensures ReversedWithin(SwappedEnds(s, at, n), at + 1, n - 2) == ReversedWithin(s, at, n)
  {
    var m := SwappedEnds(s, at, n);
    var inner := s[at + 1..at + n - 1];
    assert m[at + 1..at + 1 + (n - 2)] == inner;
    assert s[at..at + n] == [s[at]] + (inner + [s[at + n - 1]]);
    ReverseSnoc(inner, s[at + n - 1]);
    assert Reverse(s[at..at + n]) == [s[at + n - 1]] + Reverse(inner) + [s[at]];
    assert m[..at + 1] == s[..at] + [s[at + n - 1]];
    assert m[at + n - 1..] == [s[at]] + s[at + n..];
  }

  // ByteConverter::apply on the in-memory image of v and swap_endian(v) agree, and doing either
  // twice changes nothing.
  lemma ReversalsAgree(v: nat, n: nat)
    requires v < Pow256(n)
    ensures var image := LittleEndian(v, n);
            && FromLittleEndian(ReversedWithin(image, 0, n)) == SwapEndian(v, n)
            && ReversedWithin(ReversedWithin(image, 0, n), 0, n) == image
            && SwapEndian(SwapEndian(v, n), n) == v
  {
    var image := LittleEndian(v, n);
    assert image[0..n] == image;
    assert ReversedWithin(image, 0, n) == Reverse(image);
    var r := Reverse(image);
    assert r[0..n] == r;
    assert ReversedWithin(r, 0, n) == Reverse(r);
    ReverseTwice(image);
    SwapEndianTwice(v, n);
  }
}
