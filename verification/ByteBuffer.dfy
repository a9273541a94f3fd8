/** The typed buffer: byte storage with a read cursor, a write cursor and a scratch vector. */
module Buffers {
  import opened Bytes
  import opened Sequences
  import opened Wrappers
  import opened Framing
  import PackedGuid

  /* ------------------------- what writing does to the storage ------------------------- */

  function Zeros(n: nat): (r: seq<byte>)
    ensures |r| == n
  {
    seq(n, _ => 0)
  }

  // src copied over s at index at; s is first zero-extended when it is too short.
  function Written(s: seq<byte>, at: nat, src: seq<byte>): (r: seq<byte>)
    ensures |r| == if |s| < at + |src| then at + |src| else |s|
  {
    var grown := if |s| < at + |src| then s + Zeros(at + |src| - |s|) else s;
    grown[..at] + src + grown[at + |src|..]
  }

  // Element by element.
  lemma WrittenAt(s: seq<byte>, at: nat, src: seq<byte>, k: nat)
    requires k < |Written(s, at, src)|
    ensures Written(s, at, src)[k] ==
            if at <= k < at + |src| then src[k - at] else if k < |s| then s[k] else 0
  {
  }

  lemma WrittenAtEnd(s: seq<byte>, src: seq<byte>)
    ensures Written(s, |s|, src) == s + src
  {
  }

  lemma WrittenTwice(s: seq<byte>, at: nat, a: seq<byte>, b: seq<byte>)
    ensures Written(Written(s, at, a), at + |a|, b) == Written(s, at, a + b)
  {
    var once := Written(s, at, a);
    var l := Written(once, at + |a|, b);
    var r := Written(s, at, a + b);
    forall k | 0 <= k < |r| ensures l[k] == r[k] {
      if k < at { assert r[k] == (if k < |s| then s[k] else 0); }
      else if k < at + |a| { assert r[k] == a[k - at]; }
      else if k < at + |a| + |b| { assert r[k] == b[k - at - |a|]; }
      else { assert r[k] == s[k]; }
    }
  }

  /* ------------------------- NUL-terminated strings ------------------------- */

  // The string found at pos and the cursor after it; the end of the buffer also ends a string.
  function StringFrom(s: seq<byte>, pos: nat): (r: (seq<byte>, nat))
    requires pos <= |s|
    ensures pos + |r.0| <= |s| && s[pos..pos + |r.0|] == r.0 && 0 !in r.0
    ensures if pos + |r.0| < |s| then s[pos + |r.0|] == 0 && r.1 == pos + |r.0| + 1
            else r.1 == pos + |r.0|
    decreases |s| - pos
  {
    if pos == |s| then ([], pos)
    else if s[pos] == 0 then ([], pos + 1)
    else
      var (rest, next) := StringFrom(s, pos + 1);
      ([s[pos]] + rest, next)
  }

  lemma StringFromUnique(s: seq<byte>, pos: nat, v: seq<byte>)
    requires pos + |v| <= |s| && s[pos..pos + |v|] == v && 0 !in v
    requires pos + |v| < |s| ==> s[pos + |v|] == 0
    ensures StringFrom(s, pos) == (v, if pos + |v| < |s| then pos + |v| + 1 else |s|)
  {
    var w := StringFrom(s, pos).0;
    assert forall k :: 0 <= k < |v| ==> s[pos + k] == v[k] != 0;
    assert forall k :: 0 <= k < |w| ==> s[pos + k] == w[k] != 0;
    assert |w| == |v|;
  }

  class ByteBuffer {
    var rpos: nat
    var wpos: nat
    var storage: seq<byte>
    var escbuffer: seq<byte>

    constructor ()
      ensures rpos == 0 && wpos == 0 && storage == [] && escbuffer == []
    {
      rpos, wpos, storage, escbuffer := 0, 0, [], [];
    }

    method Clear()
      modifies this
      ensures rpos == 0 && wpos == 0 && storage == [] && escbuffer == old(escbuffer)
    {
      storage := [];
      rpos, wpos := 0, 0;
    }

    // Drops what has been read and the last byte; the write cursor is left where it was.
    method ClearHeader()
      requires rpos < |storage|
      modifies this
      ensures storage == old(storage)[old(rpos)..|old(storage)| - 1]
      ensures rpos == 0 && wpos == old(wpos) && escbuffer == old(escbuffer)
    {
      storage := storage[rpos..];
      storage := storage[..|storage| - 1];
      rpos := 0;
    }

    method Contents() returns (st: Status, bytes: seq<byte>)
      ensures st == if storage == [] then EmptyException else Ok
      ensures bytes == storage
    {
      st := if storage == [] then EmptyException else Ok;
      bytes := storage;
    }

    method Append(src: seq<byte>) returns (st: Status)
      modifies this
      ensures rpos == old(rpos) && escbuffer == old(escbuffer)
      ensures src == [] ==> st == SourceException && wpos == old(wpos) && storage == old(storage)
      ensures src != [] ==> st == Ok && wpos == old(wpos) + |src|
      ensures src != [] ==> storage == Written(old(storage), old(wpos), src)
      ensures src != [] && old(wpos) == |old(storage)| ==> storage == old(storage) + src
    {
      WrittenAtEnd(storage, src);
      if |src| == 0 { return SourceException; }
      var newsize := wpos + |src|;
      if |storage| < newsize { storage := storage + Zeros(newsize - |storage|); }
      storage := storage[..wpos] + src + storage[newsize..];
      wpos := newsize;
      st := Ok;
    }

    // operator<< of an unsigned integer n bytes wide.
    method AppendValue(v: nat, n: nat)
      requires n > 0 && v < Pow256(n)
      modifies this
      ensures rpos == old(rpos) && escbuffer == old(escbuffer) && wpos == old(wpos) + n
      ensures storage == Written(old(storage), old(wpos), LittleEndian(v, n))
      ensures old(wpos) == |old(storage)| ==> storage == old(storage) + LittleEndian(v, n)
    {
      var st := Append(LittleEndian(v, n));
    }

    // operator<< of a std::string (or of a C string without its terminator).
    method AppendString(value: seq<byte>)
      modifies this
      ensures rpos == old(rpos) && escbuffer == old(escbuffer) && wpos == old(wpos) + |value| + 1
      ensures storage == Written(old(storage), old(wpos), value + [0])
    {
      if |value| != 0 {
        var st := Append(value);
        WrittenTwice(old(storage), old(wpos), value, [0]);
      } else {
        assert value + [0] == [0];
      }
      var st := Append([0]);
    }

    method ReadAt(pos: nat, n: nat) returns (st: Status, v: nat)
      ensures st == if pos + n > |storage| then PositionException else Ok
      ensures st.Ok? ==> v == FromLittleEndian(storage[pos..pos + n]) && v < Pow256(n)
    {
      if pos + n > |storage| { return PositionException, 0; }
      FromLittleEndianBound(storage[pos..pos + n]);
      return Ok, FromLittleEndian(storage[pos..pos + n]);
    }

    // read<T>() and operator>> of an unsigned integer n bytes wide.
    method Read(n: nat) returns (st: Status, v: nat)
      modifies this`rpos
      ensures st == if old(rpos) + n > |storage| then PositionException else Ok
      ensures st.Ok? ==> v == FromLittleEndian(storage[old(rpos)..old(rpos) + n]) && v < Pow256(n)
      ensures rpos == if st.Ok? then old(rpos) + n else old(rpos)
    {
      v :- ReadAt(rpos, n);
      rpos := rpos + n;
      st := Ok;
    }

    method ReadSkip(skip: nat) returns (st: Status)
      modifies this`rpos
      ensures st == if old(rpos) + skip > |storage| then PositionException else Ok
      ensures rpos == if st.Ok? then old(rpos) + skip else old(rpos)
    {
      if rpos + skip > |storage| { return PositionException; }
      rpos := rpos + skip;
      st := Ok;
    }

    method ReadString() returns (value: seq<byte>)
      modifies this`rpos
      ensures old(rpos) <= |storage| ==> (value, rpos) == StringFrom(storage, old(rpos))
      ensures old(rpos) > |storage| ==> value == [] && rpos == old(rpos)
    {
      value := [];
      ghost var start := rpos;
      while rpos < |storage|
        invariant start <= rpos && (start <= |storage| ==> rpos <= |storage|)
        invariant start > |storage| ==> value == [] && rpos == start
        invariant start <= |storage| ==> value == storage[start..rpos] && 0 !in value
      {
        var c := storage[rpos];
        rpos := rpos + 1;
        if c == 0 {
          StringFromUnique(storage, start, value);
          return;
        }
        value := value + [c];
      }
      if start <= |storage| { StringFromUnique(storage, start, value); }
    }

    /* ------------------------- checksum ------------------------- */

    // m is computed and never used: the loop starts at 2 whatever firstpacket says.
    method AddCheckSum(firstpacket: bool) returns (st: Status, ret: byte)
      requires |storage| <= 0xFF
      modifies this`storage
      ensures old(storage) == [] ==> st == EmptyException && storage == []
      ensures old(storage) != [] ==> st == Ok && ret == Checksum(old(storage))
      ensures old(storage) != [] ==> ret == Sum(if |old(storage)| <= 2 then [] else old(storage)[2..]) % 0x100
      ensures old(storage) != [] ==> storage == [ret] + old(storage)
    {
      var len := |storage|;
      if len == 0 { return EmptyException, 0; }
      ret := 0;
      var i: byte := 2;
      while i < len
        invariant storage == old(storage)
        invariant 2 <= i && (len <= 2 || i <= len)
        invariant len > 2 ==> ret == Sum(storage[2..i]) % 0x100
        invariant len <= 2 ==> ret == 0
      {
        SumStep(storage, 2, i, ret);
        ret := (ret + storage[i]) % 0x100;
        i := i + 1;
      }
      if len > 2 {
        assert i == len && storage[2..len] == storage[2..];
      }
      storage := [ret] + storage;
      st := Ok;
    }

    method GetFirstDecodeCheckSum(firstpacket: bool) returns (st: Status, ret: byte)
      requires |storage| <= 0xFF
      ensures st == if storage == [] then EmptyException else Ok
      ensures st.Ok? && firstpacket ==> ret == Checksum(storage)
      ensures st.Ok? && firstpacket ==> ret == Sum(if |storage| <= 2 then [] else storage[2..]) % 0x100
      ensures st.Ok? && !firstpacket ==> ret == Sum(storage) % 0x100
    {
      var len := |storage|;
      if len == 0 { return EmptyException, 0; }
      var m: byte := if firstpacket then 2 else 0;
      ret := 0;
      var i: byte := m;
      while i < len
        invariant m <= i && (len <= m || i <= len)
        invariant len > m ==> ret == Sum(storage[m..i]) % 0x100
        invariant len <= m ==> ret == 0
      {
        SumStep(storage, m, i, ret);
        ret := (ret + storage[i]) % 0x100;
        i := i + 1;
      }
      if len > m {
        assert i == len && storage[m..len] == storage[m..];
      }
      assert storage[0..] == storage;
      st := Ok;
    }

    /* ------------------------- framing ------------------------- */

    // The scratch vector is not emptied first, only cut to the number of bytes pushed.
    method Jt808Encode() returns (st: Status, j: nat)
      requires |storage| <= 0xFF
      modifies this
      ensures rpos == old(rpos)
      ensures old(storage) == [] ==> st == EmptyException && storage == [] && wpos == old(wpos)
      ensures old(storage) != [] ==> st == Ok && escbuffer == [] && wpos == |storage| == j + 2
      ensures old(storage) != [] ==>
                var stuffed := Stuff([Checksum(old(storage))] + old(storage));
                j == |stuffed| && storage == [SIGN] + (old(escbuffer) + stuffed)[..j] + [SIGN]
      ensures old(storage) != [] && old(escbuffer) == [] ==> storage == Encode(old(storage))
    {
      ghost var scratch := escbuffer;
      j := 0;
      var ret :- AddCheckSum(true);
      var len := |storage|;
      var i := 0;
      while i < len
        invariant 0 <= i <= len == |storage|
        modifies this`escbuffer
        invariant escbuffer == scratch + Stuff(storage[..i]) && j == |Stuff(storage[..i])|
      {
        StuffSnoc(storage, i);
        Associative(scratch, Stuff(storage[..i]), StuffByte(storage[i]));
        if storage[i] == SIGN {
          escbuffer := escbuffer + [ESCAPE];
          j := j + 1;
          escbuffer := escbuffer + [ESCAPE_SIGN];
          j := j + 1;
        } else if storage[i] == ESCAPE {
          escbuffer := escbuffer + [ESCAPE];
          j := j + 1;
          escbuffer := escbuffer + [ESCAPE_ESCAPE];
          j := j + 1;
        } else {
          escbuffer := escbuffer + [storage[i]];
          j := j + 1;
        }
        assert escbuffer == scratch + Stuff(storage[..i]) + StuffByte(storage[i]);
        i := i + 1;
      }
      assert storage[..len] == storage;
      ghost var stuffed := Stuff(storage);
      EmptyScratch(scratch, stuffed);
      escbuffer := escbuffer[..j];
      escbuffer := [SIGN] + escbuffer;
      escbuffer := escbuffer + [SIGN];
      storage := escbuffer;
      wpos := |escbuffer|;
      escbuffer := [];
      st := Ok;
    }

    method Jt808Decode() returns (st: Status, j: nat)
      modifies this
      ensures rpos == old(rpos)
      ensures st == if Unstuff(old(storage)).None? then PositionException else Ok
      ensures st.Ok? ==> escbuffer == [] && wpos == |storage| == j
      ensures st.Ok? ==> var d := Unstuff(old(storage)).value;
                         j == |d| && storage == (old(escbuffer) + d)[..j]
      ensures st.Ok? && old(escbuffer) == [] ==> storage == Unstuff(old(storage)).value
      ensures !st.Ok? ==> storage == old(storage) && wpos == old(wpos)
      ensures !st.Ok? ==> old(escbuffer) <= escbuffer
    {
      ghost var scratch, d := escbuffer, [];
      var len := |storage|;
      var i := 0;
      j := 0;
      assert storage[0..] == storage;
      if Unstuff(storage).Some? { assert [] + Unstuff(storage).value == Unstuff(storage).value; }
      while i < len
        invariant 0 <= i <= len
        modifies this`escbuffer
        invariant escbuffer == scratch + d && j == |d|
        invariant Unstuff(storage) == Prepend(d, Unstuff(storage[i..]))
      {
        var push := storage[i];
        var took := 1;
        if storage[i] == ESCAPE {
          var next :- ReadAt(i + 1, 1);
          assert storage[i + 1..i + 1 + 1] == [storage[i + 1]];
          ByteImage(storage[i + 1]);
          if next == ESCAPE_SIGN {
            push := SIGN;
            took := 2;
          } else if next == ESCAPE_ESCAPE {
            push := ESCAPE;
            took := 2;
          }
        }
        assert storage[i..][took..] == storage[i + took..];
        assert Unstuff(storage[i..]) == Prepend([push], Unstuff(storage[i + took..]));
        PrependPrepend(d, [push], Unstuff(storage[i + took..]));
        Associative(scratch, d, [push]);
        escbuffer := escbuffer + [push];
        d := d + [push];
        j := j + 1;
        i := i + took;
      }
      assert d + [] == d;
      escbuffer := escbuffer[..j];
      storage := escbuffer;
      wpos := |escbuffer|;
      escbuffer := [];
      st := Ok;
    }

    /* ------------------------- packed 64-bit values ------------------------- */

    method AppendPackGUID(guid: uint64)
      modifies this
      ensures rpos == old(rpos) && escbuffer == old(escbuffer)
      ensures wpos == old(wpos) + |PackedGuid.Pack(guid)|
      ensures storage == Written(old(storage), old(wpos), PackedGuid.Pack(guid))
    {
      var packGUID := new byte[9](_ => 0);
      var size := 1;
      var rest: nat := guid;
      var i: nat := 0;
      PackStart(guid);
      while rest != 0
        invariant i <= 8 && 1 <= size <= i + 1
        invariant PackLoop(guid, i, rest, packGUID[0], packGUID[1..size])
        modifies packGUID
      {
        ghost var payload := packGUID[1..size];
        PackStep(guid, i, rest, packGUID[0], payload);
        if rest % 0x100 != 0 {
          packGUID[0] := packGUID[0] + PackedGuid.Pow2(i);
          packGUID[size] := rest % 0x100;
          size := size + 1;
          assert packGUID[1..size] == payload + [rest % 0x100];
        }
        rest := rest / 0x100;
        i := i + 1;
      }
      PackDone(guid, i, packGUID[0], packGUID[1..size]);
      assert packGUID[..size] == [packGUID[0]] + packGUID[1..size];
      var st := Append(packGUID[..size]);
    }

    method ReadPackGUID() returns (st: Status, guid: nat)
      modifies this`rpos
      ensures old(rpos) >= |storage| ==> st == PositionException && rpos == old(rpos)
      ensures old(rpos) < |storage| ==>
                match PackedGuid.UnpackGuid(storage[old(rpos)..])
                case None => st == PositionException
                case Some((g, k)) => st == Ok && guid == g && rpos == old(rpos) + k
    {
      guid := 0;
      if rpos + 1 > |storage| { return PositionException, 0; }
      ghost var packed := storage[rpos..];
      var guidmark: byte := storage[rpos];
      rpos := rpos + 1;
      ghost var image: seq<byte> := [];
      ghost var took := 1;
      var i: nat := 0;
      ReadStart(packed);
      while i < 8
        invariant i <= 8 && 1 <= took <= |packed| && rpos == old(rpos) + took
        invariant ReadLoop(packed, image, i, took, guid)
      {
        ReadStep(packed, image, i, took, guid);
        if PackedGuid.Bit(guidmark, i) {
          if rpos + 1 > |storage| { return PositionException, guid; }
          var bit: byte := storage[rpos];
          rpos := rpos + 1;
          guid := guid + bit * Pow256(i);
          image, took := image + [packed[took]], took + 1;
        } else {
          image := image + [0];
        }
        i := i + 1;
      }
      ReadDone(packed, image, took, guid);
      st := Ok;
    }
  }

  lemma EmptyScratch(scratch: seq<byte>, stuffed: seq<byte>)
    ensures scratch == [] ==> (scratch + stuffed)[..|stuffed|] == stuffed
  {
  }

  // Encoding and then decoding a body: the storage is the body with its checksum and delimiters.
  method EncodeThenDecode(b: ByteBuffer) returns (st: Status)
    requires 1 <= |b.storage| <= 0xFF && b.escbuffer == []
    modifies b
    ensures st == Ok
    ensures var p := old(b.storage);
            b.storage == [SIGN, Sum(FromIndex2(p)) % 0x100] + p + [SIGN]
    ensures b.wpos == |b.storage| == |old(b.storage)| + 3 && b.escbuffer == [] && b.rpos == old(b.rpos)
  {
    var first, encoded := b.Jt808Encode();
    UnstuffFrame(Checksum(old(b.storage)), old(b.storage));
    var second, decoded := b.Jt808Decode();
    st := second;
  }

  /* ------------------------- the writer's loop over a 64-bit value ------------------------- */

  // After i bytes of guid: what is left of it, the mask so far and the payload so far.
  ghost predicate PackLoop(guid: uint64, i: nat, rest: nat, mask: int, payload: seq<byte>)
    requires i <= 8
  {
    var image := LittleEndian(guid, 8);
    && rest < Pow256(8 - i)
    && image[i..] == LittleEndian(rest, 8 - i)
    && mask == PackedGuid.Mask(image[..i])
    && payload == PackedGuid.Payload(image[..i])
  }

  lemma PackStart(guid: uint64)
    ensures PackLoop(guid, 0, guid, 0, [])
  {
    Widths();
    assert LittleEndian(guid, 8)[..0] == [] && LittleEndian(guid, 8)[0..] == LittleEndian(guid, 8);
  }

  lemma PackStep(guid: uint64, i: nat, rest: nat, mask: int, payload: seq<byte>)
    requires i <= 8 && rest != 0 && PackLoop(guid, i, rest, mask, payload)
    ensures i < 8
    ensures rest % 0x100 == 0 ==> PackLoop(guid, i + 1, rest / 0x100, mask, payload)
    ensures rest % 0x100 != 0 ==>
              && 0 <= mask + PackedGuid.Pow2(i) < 0x100
              && PackLoop(guid, i + 1, rest / 0x100, mask + PackedGuid.Pow2(i), payload + [rest % 0x100])
  {
    assert i < 8;
    var image := LittleEndian(guid, 8);
    assert image[i..][0] == rest % 0x100 && image[i..][1..] == image[i + 1..];
    assert image[..i + 1] == image[..i] + [image[i]];
    PackedGuid.MaskSnoc(image[..i], image[i]);
    PackedGuid.PayloadSnoc(image[..i], image[i]);
    Pow2Grows(i + 1, 8);
    PackedGuid.Pow2At8();
  }

  lemma {:induction false} Pow2Grows(a: nat, b: nat)
    requires a <= b
    ensures PackedGuid.Pow2(a) <= PackedGuid.Pow2(b)
  {
    if a < b { Pow2Grows(a, b - 1); }
  }

  lemma PackDone(guid: uint64, i: nat, mask: int, payload: seq<byte>)
    requires i <= 8 && PackLoop(guid, i, 0, mask, payload)
    ensures 0 <= mask < 0x100 && PackedGuid.Pack(guid) == [mask] + payload
  {
    var image := LittleEndian(guid, 8);
    assert image == image[..i] + image[i..];
    PackedGuid.ZerosAddNothing(image[..i], 8 - i);
    PackedGuid.Pow2At8();
  }

  /* ------------------------- the reader's loop over the mask ------------------------- */

  function PushAll(image: seq<byte>, k: nat, r: Option<(seq<byte>, nat)>): Option<(seq<byte>, nat)> {
    match r
    case None => None
    case Some((b, n)) => Some((image + b, k + n))
  }

  // After i mask bits and took bytes of packed: the bytes recovered so far, followed by what the
  // remaining bits describe, are the result.
  ghost predicate ReadLoop(packed: seq<byte>, image: seq<byte>, i: nat, took: nat, guid: nat)
    requires i <= 8 && 1 <= took <= |packed|
  {
    && |image| == i
    && guid == FromLittleEndian(image)
    && PackedGuid.Unpack(packed[0], 8, packed[1..]) ==
       PushAll(image, took - 1, PackedGuid.Unpack(PackedGuid.Shift(packed[0], i), 8 - i, packed[took..]))
  }

  lemma ReadStart(packed: seq<byte>)
    requires packed != []
    ensures ReadLoop(packed, [], 0, 1, 0)
  {
    var r := PackedGuid.Unpack(packed[0], 8, packed[1..]);
    if r.Some? { assert [] + r.value.0 == r.value.0; }
  }

  lemma ReadStep(packed: seq<byte>, image: seq<byte>, i: nat, took: nat, guid: nat)
    requires i < 8 && 1 <= took <= |packed| && ReadLoop(packed, image, i, took, guid)
    ensures !PackedGuid.Bit(packed[0], i) ==> ReadLoop(packed, image + [0], i + 1, took, guid)
    ensures PackedGuid.Bit(packed[0], i) && took == |packed| ==> PackedGuid.UnpackGuid(packed).None?
    ensures took < |packed| ==> 0 <= packed[took] * Pow256(i)
    ensures PackedGuid.Bit(packed[0], i) && took < |packed| ==>
              ReadLoop(packed, image + [packed[took]], i + 1, took + 1, guid + packed[took] * Pow256(i))
  {
    var m, n, tail := PackedGuid.Shift(packed[0], i), 8 - i, packed[took..];
    if PackedGuid.Bit(packed[0], i) {
      if tail != [] {
        assert tail[0] == packed[took] && tail[1..] == packed[took + 1..];
        PushPush(image, took - 1, tail[0], 1, PackedGuid.Unpack(m / 2, n - 1, tail[1..]));
        FromLittleEndianSnoc(image, packed[took]);
      }
    } else {
      PushPush(image, took - 1, 0, 0, PackedGuid.Unpack(m / 2, n - 1, tail));
      FromLittleEndianSnoc(image, 0);
    }
  }

  lemma PushPush(image: seq<byte>, k: nat, x: byte, took: nat, r: Option<(seq<byte>, nat)>)
    ensures PushAll(image, k, PackedGuid.Push(x, took, r)) == PushAll(image + [x], k + took, r)
  {
    if r.Some? { assert image + ([x] + r.value.0) == (image + [x]) + r.value.0; }
  }

  lemma ReadDone(packed: seq<byte>, image: seq<byte>, took: nat, guid: nat)
    requires 1 <= took <= |packed| && ReadLoop(packed, image, 8, took, guid)
    ensures PackedGuid.UnpackGuid(packed) == Some((guid, took))
  {
    assert image + [] == image;
  }
}
