/** The packed form of a 64-bit value: a mask byte naming the non-zero bytes, then those bytes. */
module PackedGuid {
  import opened Bytes
  import opened Sequences
  import opened Wrappers

  function Pow2(n: nat): (p: nat)
    ensures p > 0
  {
    if n == 0 then 1 else 2 * Pow2(n - 1)
  }

  // Bit i is set exactly when b[i] is not zero.
  function Mask(b: seq<byte>): (m: nat)
    ensures m < Pow2(|b|)
  {
    if b == [] then 0 else (if b[0] != 0 then 1 else 0) + 2 * Mask(b[1..])
  }

  function Payload(b: seq<byte>): seq<byte> {
    if b == [] then [] else (if b[0] != 0 then [b[0]] else []) + Payload(b[1..])
  }

  // mask shifted right by i, one bit at a time.
  function Shift(mask: nat, i: nat): nat {
    if i == 0 then mask else Shift(mask, i - 1) / 2
  }

  predicate Bit(mask: nat, i: nat) {
    Shift(mask, i) % 2 == 1
  }

  // Reads n bytes described by the low n bits of mask from the front of s: the bytes and how many
  // of s they took, or None when s is too short.
  function Unpack(mask: nat, n: nat, s: seq<byte>): (r: Option<(seq<byte>, nat)>)
    ensures r.Some? ==> |r.value.0| == n && r.value.1 <= |s|
  {
    if n == 0 then Some(([], 0))
    else if mask % 2 == 1 then
      if s == [] then None else Push(s[0], 1, Unpack(mask / 2, n - 1, s[1..]))
    else Push(0, 0, Unpack(mask / 2, n - 1, s))
  }

  function Push(x: byte, took: nat, r: Option<(seq<byte>, nat)>): Option<(seq<byte>, nat)> {
    match r
    case None => None
    case Some((b, k)) => Some(([x] + b, k + took))
  }

  lemma Pow2At8()
    ensures Pow2(8) == 0x100
  {
    assert Pow2(4) == 16;
  }

  function Pack(g: uint64): (s: seq<byte>) {
    var b := LittleEndian(g, 8);
    Pow2At8();
    [Mask(b)] + Payload(b)
  }

  function UnpackGuid(s: seq<byte>): (r: Option<(nat, nat)>) {
    if s == [] then None
    else match Unpack(s[0], 8, s[1..])
      case None => None
      case Some((b, k)) => Some((FromLittleEndian(b), k + 1))
  }

  // The number of bits set among the low n bits of mask.
  function Ones(mask: nat, n: nat): nat {
    if n == 0 then 0 else mask % 2 + Ones(mask / 2, n - 1)
  }

  // Reading fails exactly when fewer bytes are left than bits are set, and otherwise takes that many.
  lemma {:induction false} UnpackFailsIff(mask: nat, n: nat, s: seq<byte>)
    ensures Unpack(mask, n, s).None? <==> |s| < Ones(mask, n)
    ensures Unpack(mask, n, s).Some? ==> Unpack(mask, n, s).value.1 == Ones(mask, n)
  {
    if n > 0 {
      UnpackFailsIff(mask / 2, n - 1, s);
      if s != [] { UnpackFailsIff(mask / 2, n - 1, s[1..]); }
    }
  }

  /* ------------------------- round trip and canonicity ------------------------- */

  lemma MaskHalves(b: seq<byte>)
    requires b != []
    ensures Mask(b) / 2 == Mask(b[1..])
    ensures Mask(b) % 2 == 1 <==> b[0] != 0
  {
    var m := Mask(b[1..]);
    assert Mask(b) == (if b[0] != 0 then 1 else 0) + 2 * m;
  }

  lemma UnpackSet(mask: nat, n: nat, s: seq<byte>, b: seq<byte>, k: nat)
    requires n > 0 && mask % 2 == 1 && s != []
    requires Unpack(mask / 2, n - 1, s[1..]) == Some((b, k))
    ensures Unpack(mask, n, s) == Some(([s[0]] + b, k + 1))
  {
  }

  lemma UnpackClear(mask: nat, n: nat, s: seq<byte>, b: seq<byte>, k: nat)
    requires n > 0 && mask % 2 == 0
    requires Unpack(mask / 2, n - 1, s) == Some((b, k))
    ensures Unpack(mask, n, s) == Some(([0] + b, k))
  {
  }

  lemma UnpackOfPackSet(b: seq<byte>, t: seq<byte>)
    requires b != [] && b[0] != 0
    requires Unpack(Mask(b[1..]), |b| - 1, Payload(b[1..]) + t) == Some((b[1..], |Payload(b[1..])|))
    ensures Unpack(Mask(b), |b|, Payload(b) + t) == Some((b, |Payload(b)|))
  {
    MaskHalves(b);
    assert Payload(b) == [b[0]] + Payload(b[1..]);
    assert (Payload(b) + t)[1..] == Payload(b[1..]) + t;
    UnpackSet(Mask(b), |b|, Payload(b) + t, b[1..], |Payload(b[1..])|);
    assert b == [b[0]] + b[1..];
  }

  lemma UnpackOfPackClear(b: seq<byte>, t: seq<byte>)
    requires b != [] && b[0] == 0
    requires Unpack(Mask(b[1..]), |b| - 1, Payload(b[1..]) + t) == Some((b[1..], |Payload(b[1..])|))
    ensures Unpack(Mask(b), |b|, Payload(b) + t) == Some((b, |Payload(b)|))
  {
    MaskHalves(b);
    assert Payload(b) == Payload(b[1..]);
    UnpackClear(Mask(b), |b|, Payload(b) + t, b[1..], |Payload(b[1..])|);
    assert b == [b[0]] + b[1..];
  }

  lemma {:induction false} UnpackOfPack(b: seq<byte>, t: seq<byte>)
    ensures Unpack(Mask(b), |b|, Payload(b) + t) == Some((b, |Payload(b)|))
  {
    if b != [] {
      UnpackOfPack(b[1..], t);
      if b[0] != 0 { UnpackOfPackSet(b, t); } else { UnpackOfPackClear(b, t); }
    }
  }

  lemma {:induction false} PayloadLength(b: seq<byte>)
    ensures |Payload(b)| + multiset(b)[0] == |b|
    ensures 0 !in Payload(b)
  {
    if b != [] {
      PayloadLength(b[1..]);
      assert b == [b[0]] + b[1..];
      assert multiset(b) == multiset([b[0]]) + multiset(b[1..]);
    }
  }

  // Reading undoes writing, whatever follows, and consumes 1 + (number of non-zero bytes) bytes.
  lemma GuidRoundTrip(g: uint64, t: seq<byte>)
    ensures UnpackGuid(Pack(g) + t) == Some((g, |Pack(g)|))
    ensures |Pack(g)| == 1 + 8 - multiset(LittleEndian(g, 8))[0]
  {
    var b := LittleEndian(g, 8);
    var p := Pack(g);
    assert p == [p[0]] + Payload(b) && p[0] == Mask(b);
    UnpackOfPack(b, t);
    assert (p + t)[1..] == Payload(b) + t;
    assert g < Pow256(8) by { Widths(); }
    FromOfLittleEndian(g, 8);
    PackSize(g);
  }

  lemma PackSize(g: uint64)
    ensures |Pack(g)| == 1 + 8 - multiset(LittleEndian(g, 8))[0]
  {
    PayloadLength(LittleEndian(g, 8));
  }

  lemma {:induction false} PackOfUnpack(mask: nat, n: nat, s: seq<byte>)
    requires mask < Pow2(n) && Unpack(mask, n, s).Some?
    ensures var (b, k) := Unpack(mask, n, s).value;
            0 !in s[..k] <==> Mask(b) == mask && Payload(b) == s[..k]
  {
    var (b, k) := Unpack(mask, n, s).value;
    if n != 0 {
      var rest := if mask % 2 == 1 then s[1..] else s;
      PackOfUnpack(mask / 2, n - 1, rest);
      var (b1, k1) := Unpack(mask / 2, n - 1, rest).value;
      var x := if mask % 2 == 1 then s[0] else 0;
      assert b == [x] + b1 && b[1..] == b1 && b[0] == x;
      MaskHalves(b);
      if mask % 2 == 1 {
        PackOfUnpackBit(mask, s, b, k, b1, k1);
      } else {
        assert Payload(b) == Payload(b1);
      }
    }
  }

  lemma PackOfUnpackBit(mask: nat, s: seq<byte>, b: seq<byte>, k: nat, b1: seq<byte>, k1: nat)
    requires mask % 2 == 1 && s != [] && k == k1 + 1 && k1 < |s|
    requires b == [s[0]] + b1
    requires 0 !in s[1..][..k1] <==> Mask(b1) == mask / 2 && Payload(b1) == s[1..][..k1]
    ensures 0 !in s[..k] <==> Mask(b) == mask && Payload(b) == s[..k]
  {
    MaskHalves(b);
    assert b[1..] == b1;
    var front := s[..k];
    assert front == [s[0]] + s[1..][..k1];
    if s[0] == 0 {
      assert front[0] == 0;
      assert Mask(b) % 2 == 0;
    } else {
      assert Payload(b) == [s[0]] + Payload(b1);
      assert Payload(b)[1..] == Payload(b1) && front[1..] == s[1..][..k1];
      assert 0 in front <==> 0 in s[1..][..k1];
    }
  }

  // Conversely, re-encoding a decoded value gives the same bytes exactly when the encoding was
  // canonical, that is, when none of its payload bytes is zero.
  lemma GuidCanonical(s: seq<byte>)
    requires UnpackGuid(s).Some?
    ensures var (g, k) := UnpackGuid(s).value;
            && g < 0x1_0000_0000_0000_0000
            && 1 <= k <= |s|
            && (0 !in s[1..k] <==> Pack(g) == s[..k])
  {
    Pow2At8();
    Widths();
    var (b, k) := Unpack(s[0], 8, s[1..]).value;
    PackOfUnpack(s[0], 8, s[1..]);
    FromLittleEndianBound(b);
    LittleEndianOfFrom(b);
    assert s[..k + 1] == [s[0]] + s[1..][..k];
    assert s[1..k + 1] == s[1..][..k];
    var p := Pack(FromLittleEndian(b));
    assert p[0] == Mask(b) && p[1..] == Payload(b);
    assert s[..k + 1][1..] == s[1..][..k];
  }

  /* ------------------------- facts for the two loops ------------------------- */

  lemma {:induction false} MaskSnoc(a: seq<byte>, b: byte)
    ensures Mask(a + [b]) == Mask(a) + if b != 0 then Pow2(|a|) else 0
  {
    if a == [] {
      assert a + [b] == [b] && Mask([b][1..]) == 0;
    } else {
      MaskSnoc(a[1..], b);
      ConsConcat(a, [b]);
    }
  }

  lemma {:induction false} PayloadSnoc(a: seq<byte>, b: byte)
    ensures Payload(a + [b]) == Payload(a) + if b != 0 then [b] else []
  {
    if a == [] {
      assert a + [b] == [b] && Payload([b][1..]) == [];
    } else {
      PayloadSnoc(a[1..], b);
      ConsConcat(a, [b]);
    }
  }

  // The high zero bytes that the writer's loop never reaches add nothing.
  lemma {:induction false} ZerosAddNothing(a: seq<byte>, n: nat)
    ensures Mask(a + LittleEndian(0, n)) == Mask(a)
    ensures Payload(a + LittleEndian(0, n)) == Payload(a)
    decreases |a| + n
  {
    if a == [] {
      assert a + LittleEndian(0, n) == LittleEndian(0, n);
      if n != 0 {
        ZerosAddNothing([], n - 1);
        assert LittleEndian(0, n)[1..] == [] + LittleEndian(0, n - 1);
      }
    } else {
      ZerosAddNothing(a[1..], n);
      ConsConcat(a, LittleEndian(0, n));
    }
  }
}
