/** Section 4.4.2 of JT/T 808-2011 as byte-sequence functions: stuffing, checksum and frames. */
module Framing {
  import opened Bytes
  import opened Sequences
  import opened Wrappers

  const SIGN: byte := 0x7E
  const ESCAPE: byte := 0x7D
  const ESCAPE_SIGN: byte := 0x02
  const ESCAPE_ESCAPE: byte := 0x01

  /* ------------------------- stuffing ------------------------- */

  function StuffByte(b: byte): (r: seq<byte>) {
    if b == SIGN then [ESCAPE, ESCAPE_SIGN]
    else if b == ESCAPE then [ESCAPE, ESCAPE_ESCAPE]
    else [b]
  }

  function Stuff(s: seq<byte>): (r: seq<byte>) {
    if s == [] then [] else StuffByte(s[0]) + Stuff(s[1..])
  }

  function Prepend(a: seq<byte>, r: Option<seq<byte>>): Option<seq<byte>> {
    match r
    case None => None
    case Some(b) => Some(a + b)
  }

  // None is the decoder's out-of-range look-ahead: an escape byte with nothing after it.
  function Unstuff(s: seq<byte>): (r: Option<seq<byte>>) {
    if s == [] then Some([])
    else if s[0] == ESCAPE && |s| == 1 then None
    else if s[0] == ESCAPE && s[1] == ESCAPE_SIGN then Prepend([SIGN], Unstuff(s[2..]))
    else if s[0] == ESCAPE && s[1] == ESCAPE_ESCAPE then Prepend([ESCAPE], Unstuff(s[2..]))
    else Prepend([s[0]], Unstuff(s[1..]))
  }

  // Number of bytes that stuffing doubles.
  function Specials(s: seq<byte>): nat {
    if s == [] then 0
    else (if s[0] == SIGN || s[0] == ESCAPE then 1 else 0) + Specials(s[1..])
  }

  ghost predicate WellStuffed(s: seq<byte>) {
    && SIGN !in s
    && forall i :: 0 <= i < |s| && s[i] == ESCAPE ==>
         i + 1 < |s| && (s[i + 1] == ESCAPE_SIGN || s[i + 1] == ESCAPE_ESCAPE)
  }

  lemma {:induction false} StuffConcat(a: seq<byte>, b: seq<byte>)
    ensures Stuff(a + b) == Stuff(a) + Stuff(b)
  {
    if a == [] {
      assert a + b == b;
    } else {
      StuffConcat(a[1..], b);
      ConsConcat(a, b);
      Associative(StuffByte(a[0]), Stuff(a[1..]), Stuff(b));
    }
  }

  lemma StuffSnoc(s: seq<byte>, i: nat)
    requires i < |s|
    ensures Stuff(s[..i + 1]) == Stuff(s[..i]) + StuffByte(s[i])
  {
    assert s[..i + 1] == s[..i] + [s[i]];
    StuffConcat(s[..i], [s[i]]);
    assert Stuff([s[i]]) == StuffByte(s[i]) + Stuff([]);
  }

  lemma PrependPrepend(a: seq<byte>, b: seq<byte>, r: Option<seq<byte>>)
    ensures Prepend(a, Prepend(b, r)) == Prepend(a + b, r)
  {
    if r.Some? { assert a + (b + r.value) == (a + b) + r.value; }
  }

  lemma UnstuffOneThen(b: byte, t: seq<byte>)
    ensures Unstuff(StuffByte(b) + t) == Prepend([b], Unstuff(t))
  {
    assert (StuffByte(b) + t)[|StuffByte(b)|..] == t;
  }

  // Stuffed content is a prefix code: decoding continues exactly where it ends.
  lemma {:induction false} UnstuffStuffThen(s: seq<byte>, t: seq<byte>)
    ensures Unstuff(Stuff(s) + t) == Prepend(s, Unstuff(t))
  {
    if s == [] {
      assert Stuff(s) + t == t;
      if Unstuff(t).Some? { assert [] + Unstuff(t).value == Unstuff(t).value; }
    } else {
      UnstuffStuffThen(s[1..], t);
      UnstuffOneThen(s[0], Stuff(s[1..]) + t);
      Associative(StuffByte(s[0]), Stuff(s[1..]), t);
      PrependPrepend([s[0]], s[1..], Unstuff(t));
      assert [s[0]] + s[1..] == s;
    }
  }

  lemma UnstuffStuff(s: seq<byte>)
    ensures Unstuff(Stuff(s)) == Some(s)
  {
    UnstuffStuffThen(s, []);
    assert Stuff(s) + [] == Stuff(s);
    assert s + [] == s;
  }

  lemma {:induction false} StuffIsWellStuffed(s: seq<byte>)
    ensures WellStuffed(Stuff(s))
    ensures |Stuff(s)| == |s| + Specials(s)
  {
    if s != [] { StuffIsWellStuffed(s[1..]); }
  }

  // The image of stuffing is exactly the well-stuffed sequences, so stuffing is a bijection onto them.
  lemma {:induction false} WellStuffedIsStuffed(s: seq<byte>)
    requires WellStuffed(s)
    ensures Unstuff(s).Some? && Stuff(Unstuff(s).value) == s
    decreases |s|
  {
    if s != [] {
      var k := if s[0] == ESCAPE then 2 else 1;
      var rest := s[k..];
      assert forall i :: 0 <= i < |rest| ==> rest[i] == s[i + k];
      WellStuffedIsStuffed(rest);
      var u := Unstuff(rest).value;
      var b := if s[0] != ESCAPE then s[0] else if s[1] == ESCAPE_SIGN then SIGN else ESCAPE;
      assert Unstuff(s) == Some([b] + u);
      assert ([b] + u)[1..] == u;
      assert s == StuffByte(b) + rest;
    }
  }

  /* ------------------------- the rule, byte by byte ------------------------- */

  // In the middle of any content: 0x7E becomes 0x7D 0x02, 0x7D becomes 0x7D 0x01, any other byte stays.
  lemma StuffInPlace(a: seq<byte>, x: byte, b: seq<byte>)
    ensures Stuff([]) == []
    ensures Stuff(a + [0x7E] + b) == Stuff(a) + [0x7D, 0x02] + Stuff(b)
    ensures Stuff(a + [0x7D] + b) == Stuff(a) + [0x7D, 0x01] + Stuff(b)
    ensures x != 0x7E && x != 0x7D ==> Stuff(a + [x] + b) == Stuff(a) + [x] + Stuff(b)
  {
    StuffMiddle(a, 0x7E, b);
    StuffMiddle(a, 0x7D, b);
    StuffMiddle(a, x, b);
  }

  lemma StuffMiddle(a: seq<byte>, x: byte, b: seq<byte>)
    ensures Stuff(a + [x] + b) == Stuff(a) + StuffByte(x) + Stuff(b)
  {
    StuffConcat(a + [x], b);
    StuffConcat(a, [x]);
    assert [x][1..] == [] && Stuff([x]) == StuffByte(x) + Stuff([]);
  }

  // Conversely, wherever the decoder stands: 0x7D 0x02 is read as 0x7E, 0x7D 0x01 as 0x7D, an escape byte
  // before any other byte and any byte that is not an escape byte as themselves; a last escape byte fails.
  lemma UnstuffInPlace(a: seq<byte>, x: byte, t: seq<byte>)
    ensures Unstuff([]) == Some([]) && Unstuff(Stuff(a) + [0x7D]) == None
    ensures Unstuff(Stuff(a) + ([0x7D, 0x02] + t)) == Prepend(a + [0x7E], Unstuff(t))
    ensures Unstuff(Stuff(a) + ([0x7D, 0x01] + t)) == Prepend(a + [0x7D], Unstuff(t))
    ensures x != 0x01 && x != 0x02 ==>
              Unstuff(Stuff(a) + ([0x7D, x] + t)) == Prepend(a + [0x7D], Unstuff([x] + t))
    ensures x != 0x7D ==> Unstuff(Stuff(a) + ([x] + t)) == Prepend(a + [x], Unstuff(t))
  {
    UnstuffStuffThen(a, [0x7D]);
    UnstuffStuffThen(a, [0x7D, 0x02] + t);
    UnstuffStuffThen(a, [0x7D, 0x01] + t);
    UnstuffStuffThen(a, [0x7D, x] + t);
    UnstuffStuffThen(a, [x] + t);
    UnstuffFront(x, t);
    PrependPrepend(a, [0x7E], Unstuff(t));
    PrependPrepend(a, [0x7D], Unstuff(t));
    PrependPrepend(a, [0x7D], Unstuff([x] + t));
    PrependPrepend(a, [x], Unstuff(t));
  }

  lemma UnstuffFront(x: byte, t: seq<byte>)
    ensures Unstuff([0x7D, 0x02] + t) == Prepend([0x7E], Unstuff(t))
    ensures Unstuff([0x7D, 0x01] + t) == Prepend([0x7D], Unstuff(t))
    ensures x != 0x01 && x != 0x02 ==> Unstuff([0x7D, x] + t) == Prepend([0x7D], Unstuff([x] + t))
    ensures x != 0x7D ==> Unstuff([x] + t) == Prepend([x], Unstuff(t))
  {
    assert ([0x7D, 0x02] + t)[2..] == t && ([0x7D, 0x01] + t)[2..] == t;
    assert ([0x7D, x] + t)[1..] == [x] + t && ([x] + t)[1..] == t;
  }

  /* ------------------------- decoding an arbitrary chunk ------------------------- */

  // The decoder throws exactly on a chunk that ends in a lone escape byte, and never lengthens.
  lemma {:induction false} UnstuffTotality(s: seq<byte>)
    ensures Unstuff(s).None? <==> s != [] && s[|s| - 1] == ESCAPE
    ensures Unstuff(s).Some? ==> |Unstuff(s).value| <= |s|
    ensures Unstuff(s).Some? && s != [] ==> Unstuff(s).value != []
    decreases |s|
  {
    if |s| > 1 {
      UnstuffTotality(s[1..]);
      UnstuffTotality(s[2..]);
    }
  }

  lemma {:induction false} UnstuffKeepsFinalSign(s: seq<byte>)
    requires s != [] && s[|s| - 1] == SIGN
    ensures Unstuff(s).Some? && Unstuff(s).value != []
    ensures var d := Unstuff(s).value; d[|d| - 1] == SIGN
    decreases |s|
  {
    if |s| > 1 {
      if s[0] == ESCAPE && (s[1] == ESCAPE_SIGN || s[1] == ESCAPE_ESCAPE) {
        UnstuffKeepsFinalSign(s[2..]);
      } else {
        UnstuffKeepsFinalSign(s[1..]);
      }
    }
  }

  /* ------------------------- checksum ------------------------- */

  function Sum(s: seq<byte>): nat {
    if s == [] then 0 else s[0] + Sum(s[1..])
  }

  function FromIndex2(p: seq<byte>): seq<byte> {
    if |p| <= 2 then [] else p[2..]
  }

  // Low 8 bits of the sum from index 2 on.
  function Checksum(p: seq<byte>): byte {
    Sum(FromIndex2(p)) % 0x100
  }

  lemma {:induction false} SumConcat(a: seq<byte>, b: seq<byte>)
    ensures Sum(a + b) == Sum(a) + Sum(b)
  {
    if a == [] {
      assert a + b == b;
    } else {
      SumConcat(a[1..], b);
      assert (a + b)[0] == a[0] && (a + b)[1..] == a[1..] + b;
    }
  }

  lemma SumSnoc(s: seq<byte>, lo: nat, i: nat)
    requires lo <= i < |s|
    ensures Sum(s[lo..i + 1]) == Sum(s[lo..i]) + s[i]
  {
    assert s[lo..i + 1] == s[lo..i] + [s[i]];
    SumConcat(s[lo..i], [s[i]]);
    assert Sum([s[i]]) == s[i] + Sum([]);
  }

  // One round of the 8-bit summing loop.
  lemma SumStep(s: seq<byte>, lo: nat, i: nat, ret: byte)
    requires lo <= i < |s| && ret == Sum(s[lo..i]) % 0x100
    ensures (ret + s[i]) % 0x100 == Sum(s[lo..i + 1]) % 0x100
  {
    SumSnoc(s, lo, i);
    AddModulo256(Sum(s[lo..i]), s[i]);
  }

  // The first two bytes do not count, every further byte does, in full.
  lemma ChecksumRule(p: seq<byte>, x: byte)
    ensures |p| <= 2 ==> Checksum(p) == 0
    ensures |p| >= 2 ==> Checksum(p + [x]) == (Checksum(p) + x) % 0x100
  {
    if |p| >= 2 {
      assert FromIndex2(p + [x]) == FromIndex2(p) + [x];
      SumConcat(FromIndex2(p), [x]);
      assert Sum([x]) == x + Sum([]);
      AddModulo256(Sum(FromIndex2(p)), x);
    }
  }

  lemma ChecksumIgnoresStart(p: seq<byte>, k: nat, b: byte)
    requires k < 2 && k < |p|
    ensures Checksum(p[k := b]) == Checksum(p)
  {
    assert |p| > 2 ==> p[k := b][2..] == p[2..];
  }

  lemma ChecksumDetectsOneByte(p: seq<byte>, k: nat, b: byte)
    requires 2 <= k < |p|
    ensures Checksum(p[k := b]) == Checksum(p) <==> b == p[k]
  {
    var q := p[k := b];
    assert p[2..] == p[2..k] + ([p[k]] + p[k + 1..]);
    assert q[2..] == p[2..k] + ([b] + p[k + 1..]);
    SumConcat(p[2..k], [p[k]] + p[k + 1..]);
    SumConcat(p[2..k], [b] + p[k + 1..]);
    assert ([p[k]] + p[k + 1..])[1..] == p[k + 1..] == ([b] + p[k + 1..])[1..];
    assert Sum(q[2..]) - Sum(p[2..]) == b - p[k];
  }

  // A body summed in two parts, the first from index 2, the second from index 0.
  lemma {:induction false} ChecksumOfParts(a: seq<byte>, b: seq<byte>)
    requires |a| >= 2
    ensures Checksum(a + b) == (Checksum(a) + Sum(b) % 0x100) % 0x100
  {
    var x, y := Sum(FromIndex2(a)), Sum(b);
    SumOfParts(a, b);
    assert Checksum(a + b) == (x + y) % 0x100;
    AddModulo256(x, y);
  }

  lemma SumOfParts(a: seq<byte>, b: seq<byte>)
    requires |a| >= 2
    ensures Sum(FromIndex2(a + b)) == Sum(FromIndex2(a)) + Sum(b)
  {
    assert FromIndex2(a + b) == FromIndex2(a) + b;
    SumConcat(FromIndex2(a), b);
  }

  lemma AddModulo256(x: nat, y: nat)
    ensures (x % 0x100 + y % 0x100) % 0x100 == (x + y) % 0x100
  {
    var low := x % 0x100 + y % 0x100;
    var carry := if low < 0x100 then 0 else 1;
    assert x + y == 0x100 * (x / 0x100 + y / 0x100 + carry) + (low - 0x100 * carry);
  }

  // The checksum loop's index is a uint8: its value when the guard is tested for the k-th time.
  function LoopIndex(k: nat): byte {
    if k == 0 then 2 else (LoopIndex(k - 1) + 1) % 0x100
  }

  ghost predicate LoopExits(len: nat) {
    exists k: nat :: LoopIndex(k) >= len
  }

  lemma NextModulo256(x: nat)
    ensures (x % 0x100 + 1) % 0x100 == (x + 1) % 0x100
  {
    AddModulo256(x, 1);
  }

  lemma {:induction false} LoopIndexValue(k: nat)
    ensures LoopIndex(k) == (k + 2) % 0x100
  {
    if k != 0 {
      LoopIndexValue(k - 1);
      NextModulo256(k + 1);
    }
  }

  lemma ChecksumLoopExitsIff(len: nat)
    ensures LoopExits(len) <==> len <= 0xFF
  {
    if len <= 0xFF {
      var k := if len <= 2 then 0 else len - 2;
      LoopIndexValue(k);
      assert LoopIndex(k) >= len;
    }
  }

  /* ------------------------- frames ------------------------- */

  // A frame as any peer sends it: the checksum byte is whatever the peer chose.
  function Frame(checksum: byte, body: seq<byte>): (f: seq<byte>) {
    [SIGN] + Stuff([checksum] + body) + [SIGN]
  }

  // A frame as this server sends it.
  function Encode(body: seq<byte>): seq<byte> {
    Frame(Checksum(body), body)
  }

  function Decoded(checksum: byte, body: seq<byte>): seq<byte> {
    [SIGN, checksum] + body + [SIGN]
  }

  // Delimiters at both ends and nowhere else.
  ghost predicate FrameShape(f: seq<byte>) {
    && |f| >= 2
    && f[0] == SIGN && f[|f| - 1] == SIGN
    && forall i :: 0 < i < |f| - 1 ==> f[i] != SIGN
  }

  lemma UnstuffSignThen(t: seq<byte>)
    ensures Unstuff([SIGN] + t) == Prepend([SIGN], Unstuff(t))
  {
    assert ([SIGN] + t)[1..] == t;
  }

  // Decoding goes on behind a frame.
  lemma UnstuffFrameThen(c: byte, body: seq<byte>, t: seq<byte>)
    ensures Unstuff(Frame(c, body) + t) == Prepend(Decoded(c, body), Unstuff(t))
  {
    var content := [c] + body;
    assert Frame(c, body) + t == [SIGN] + (Stuff(content) + ([SIGN] + t));
    UnstuffSignThen(Stuff(content) + ([SIGN] + t));
    UnstuffStuffThen(content, [SIGN] + t);
    UnstuffSignThen(t);
    PrependPrepend(content, [SIGN], Unstuff(t));
    PrependPrepend([SIGN], content + [SIGN], Unstuff(t));
    assert [SIGN] + (content + [SIGN]) == Decoded(c, body);
  }

  lemma UnstuffFrame(c: byte, body: seq<byte>)
    ensures Unstuff(Frame(c, body)) == Some(Decoded(c, body))
  {
    UnstuffFrameThen(c, body, []);
    assert Frame(c, body) + [] == Frame(c, body);
    assert Decoded(c, body) + [] == Decoded(c, body);
  }

  // Delimiter, stuffed checksum and body, delimiter; and what it decodes to.
  lemma FrameBytes(c: byte, body: seq<byte>)
    ensures var f := Frame(c, body);
            && |f| >= 2 && f[0] == 0x7E && f[|f| - 1] == 0x7E && f[1..|f| - 1] == Stuff([c] + body)
            && Unstuff(f) == Some([0x7E, c] + body + [0x7E])
    ensures Encode(body) == Frame(Checksum(body), body)
  {
    UnstuffFrame(c, body);
  }

  lemma FrameHasShape(c: byte, body: seq<byte>)
    ensures var f := Frame(c, body);
            && FrameShape(f)
            && WellStuffed(f[1..|f| - 1])
            && |f| == |body| + 3 + Specials([c] + body)
  {
    var f := Frame(c, body);
    StuffIsWellStuffed([c] + body);
    assert f[1..|f| - 1] == Stuff([c] + body);
  }

  lemma FrameInjective(c: byte, p: seq<byte>, d: byte, q: seq<byte>)
    requires Frame(c, p) == Frame(d, q)
    ensures c == d && p == q
  {
    UnstuffFrame(c, p);
    UnstuffFrame(d, q);
    var a, b := Decoded(c, p), Decoded(d, q);
    assert a == b && |p| == |a| - 3;
    assert c == a[1] == b[1] == d;
    assert p == a[2..|a| - 1] == b[2..|b| - 1] == q;
  }

  lemma FrameRecovered(c: byte, body: seq<byte>)
    ensures Unstuff(Frame(c, body)).Some?
    ensures var d := Unstuff(Frame(c, body)).value;
            |d| >= 3 && d[1] == c && d[2..|d| - 1] == body
  {
    UnstuffFrame(c, body);
  }

  // Every frame-shaped, well-stuffed chunk with at least one content byte is a frame of exactly
  // the checksum and body the decoder recovers from it.
  lemma ShapeIsFrame(f: seq<byte>)
    requires FrameShape(f) && |f| >= 3 && WellStuffed(f[1..|f| - 1])
    ensures Unstuff(f).Some? && |Unstuff(f).value| >= 3
    ensures var d := Unstuff(f).value; f == Frame(d[1], d[2..|d| - 1])
  {
    var inner := f[1..|f| - 1];
    WellStuffedIsStuffed(inner);
    var u := Unstuff(inner).value;
    assert |Stuff(u)| == |inner| > 0;
    assert u != [];
    assert u == [u[0]] + u[1..];
    assert f == [SIGN] + inner + [SIGN];
    FrameRecovered(u[0], u[1..]);
  }

  lemma SameFirstFrame(f: seq<byte>, x: seq<byte>, g: seq<byte>, y: seq<byte>)
    requires FrameShape(f) && FrameShape(g) && f + x == g + y
    ensures f == g && x == y
  {
    var all := f + x;
    assert all[|f| - 1] == SIGN && forall i :: 0 < i < |f| - 1 ==> all[i] == f[i] != SIGN;
    assert all[|g| - 1] == SIGN && forall i :: 0 < i < |g| - 1 ==> all[i] == g[i] != SIGN;
    assert |f| == |g|;
    assert f == all[..|f|] == g;
    assert x == all[|f|..] == y;
  }

  // A concatenation of frames splits in one way only.
  lemma {:induction false} FramesSplitUniquely(fs: seq<seq<byte>>, gs: seq<seq<byte>>)
    requires forall f <- fs :: FrameShape(f)
    requires forall g <- gs :: FrameShape(g)
    requires Concat(fs) == Concat(gs)
    ensures fs == gs
  {
    assert fs != [] ==> FrameShape(fs[0]) && |Concat(fs)| >= 2;
    assert gs != [] ==> FrameShape(gs[0]) && |Concat(gs)| >= 2;
    if fs != [] && gs != [] {
      SameFirstFrame(fs[0], Concat(fs[1..]), gs[0], Concat(gs[1..]));
      FramesSplitUniquely(fs[1..], gs[1..]);
      assert fs == [fs[0]] + fs[1..] && gs == [gs[0]] + gs[1..];
    }
  }
}
