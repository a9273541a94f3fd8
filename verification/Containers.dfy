/** The stream operators for vectors, lists and maps, over any element operators. */
module Containers {
  import opened Bytes
  import opened Wrappers
  import opened Buffers

  /**
   * A pair of element operators: the bytes << appends, and what >> finds at a cursor (None when it
   * throws). writable says which values << is meant for.
   */
  datatype Codec<!T> = Codec(
    writable: T -> bool,
    write: T -> seq<byte>,
    read: (seq<byte>, nat) -> Option<(T, nat)>)

  ghost predicate Holds(s: seq<byte>, pos: nat, bytes: seq<byte>) {
    pos + |bytes| <= |s| && s[pos..pos + |bytes|] == bytes
  }

  // Where the bytes of a writable value stand, >> reads it back and stops exactly at their end.
  ghost predicate ReadsBack<T>(c: Codec<T>, v: T, s: seq<byte>, pos: nat) {
    c.writable(v) && Holds(s, pos, c.write(v)) ==> c.read(s, pos) == Some((v, pos + |c.write(v)|))
  }

  ghost predicate WritesSomething<T>(c: Codec<T>, v: T) {
    c.write(v) != []
  }

  ghost predicate PrefixCode<T(!new)>(c: Codec<T>) {
    && (forall v :: WritesSomething(c, v))
    && (forall v, s, pos: nat :: ReadsBack(c, v, s, pos))
  }

  lemma HoldsParts(s: seq<byte>, pos: nat, a: seq<byte>, b: seq<byte>)
    ensures Holds(s, pos, a + b) <==> Holds(s, pos, a) && Holds(s, pos + |a|, b)
  {
    if Holds(s, pos, a + b) {
      assert a == (a + b)[..|a|] && b == (a + b)[|a|..];
    }
    if Holds(s, pos, a) && Holds(s, pos + |a|, b) {
      assert s[pos..pos + |a + b|] == s[pos..pos + |a|] + s[pos + |a|..pos + |a| + |b|];
    }
  }

  /* ------------------------- base element operators ------------------------- */

  function Unsigned(n: nat): Codec<nat> {
    Codec((v: nat) => v < Pow256(n),
          (v: nat) => LittleEndian(v, n),
          (s: seq<byte>, pos: nat) => ReadUnsigned(n, s, pos))
  }

  function ReadUnsigned(n: nat, s: seq<byte>, pos: nat): Option<(nat, nat)> {
    if pos + n > |s| then None else Some((FromLittleEndian(s[pos..pos + n]), pos + n))
  }

  const NUL_TERMINATED: Codec<seq<byte>> :=
    Codec((v: seq<byte>) => 0 !in v,
          (v: seq<byte>) => v + [0],
          (s: seq<byte>, pos: nat) => if pos > |s| then Some(([], pos)) else Some(StringFrom(s, pos)))

  function Pair<K, V>(k: Codec<K>, v: Codec<V>): Codec<(K, V)> {
    Codec((p: (K, V)) => k.writable(p.0) && v.writable(p.1),
          (p: (K, V)) => k.write(p.0) + v.write(p.1),
          (s: seq<byte>, pos: nat) => ReadPair(k, v, s, pos))
  }

  function ReadPair<K, V>(k: Codec<K>, v: Codec<V>, s: seq<byte>, pos: nat): Option<((K, V), nat)> {
    match k.read(s, pos)
    case None => None
    case Some((a, mid)) =>
      match v.read(s, mid)
      case None => None
      case Some((b, end)) => Some(((a, b), end))
  }

  lemma UnsignedIsPrefixCode(n: nat)
    requires n > 0
    ensures PrefixCode(Unsigned(n))
  {
    var c := Unsigned(n);
    forall v: nat, s: seq<byte>, pos: nat ensures ReadsBack(c, v, s, pos) {
      if v < Pow256(n) { FromOfLittleEndian(v, n); }
    }
  }

  lemma NulTerminatedIsPrefixCode()
    ensures PrefixCode(NUL_TERMINATED)
  {
    forall v, s, pos: nat ensures ReadsBack(NUL_TERMINATED, v, s, pos) {
      if 0 !in v && Holds(s, pos, v + [0]) {
        HoldsParts(s, pos, v, [0]);
        assert s[pos + |v|..pos + |v| + 1][0] == 0;
        StringFromUnique(s, pos, v);
      }
    }
  }

  lemma PairIsPrefixCode<K(!new), V(!new)>(k: Codec<K>, v: Codec<V>)
    requires PrefixCode(k) && PrefixCode(v)
    ensures PrefixCode(Pair(k, v))
  {
    var c := Pair(k, v);
    forall p, s, pos: nat ensures ReadsBack(c, p, s, pos) {
      HoldsParts(s, pos, k.write(p.0), v.write(p.1));
      assert ReadsBack(k, p.0, s, pos);
      assert ReadsBack(v, p.1, s, pos + |k.write(p.0)|);
    }
    forall p ensures WritesSomething(c, p) {
      assert WritesSomething(k, p.0);
    }
  }

  /* ------------------------- vectors and lists ------------------------- */

  predicate AllWritable<T>(c: Codec<T>, v: seq<T>) {
    forall i :: 0 <= i < |v| ==> c.writable(v[i])
  }

  function WriteAll<T>(c: Codec<T>, v: seq<T>): seq<byte> {
    if v == [] then [] else c.write(v[0]) + WriteAll(c, v[1..])
  }

  function ReadAll<T>(c: Codec<T>, n: nat, s: seq<byte>, pos: nat): (r: Option<(seq<T>, nat)>)
    ensures r.Some? ==> |r.value.0| == n
  {
    if n == 0 then Some(([], pos))
    else match c.read(s, pos)
      case None => None
      case Some((x, next)) =>
        match ReadAll(c, n - 1, s, next)
        case None => None
        case Some((rest, end)) => Some(([x] + rest, end))
  }

  const SIZE_LIMIT := 0x1_0000_0000

  // The size is cast to 32 bits before it is written.
  function WriteVectorBytes<T>(c: Codec<T>, v: seq<T>): seq<byte> {
    LittleEndian(|v| % SIZE_LIMIT, 4) + WriteAll(c, v)
  }

  function ReadVectorAt<T>(c: Codec<T>, s: seq<byte>, pos: nat): Option<(seq<T>, nat)> {
    if pos + 4 > |s| then None
    else ReadAll(c, FromLittleEndian(s[pos..pos + 4]), s, pos + 4)
  }

  function Vector<T>(c: Codec<T>): Codec<seq<T>> {
    Codec((v: seq<T>) => |v| < SIZE_LIMIT && AllWritable(c, v),
          (v: seq<T>) => WriteVectorBytes(c, v),
          (s: seq<byte>, pos: nat) => ReadVectorAt(c, s, pos))
  }

  lemma ReadAllStep<T>(c: Codec<T>, n: nat, s: seq<byte>, pos: nat)
    requires n > 0 && c.read(s, pos).Some?
    ensures var (x, next) := c.read(s, pos).value;
            ReadAll(c, n, s, pos) == Extend([x], ReadAll(c, n - 1, s, next))
  {
  }

  lemma {:induction false} ReadAllOfWriteAll<T(!new)>(c: Codec<T>, v: seq<T>, s: seq<byte>, pos: nat)
    requires PrefixCode(c) && AllWritable(c, v)
    requires Holds(s, pos, WriteAll(c, v))
    ensures ReadAll(c, |v|, s, pos) == Some((v, pos + |WriteAll(c, v)|))
  {
    if v != [] {
      var head := c.write(v[0]);
      HoldsParts(s, pos, head, WriteAll(c, v[1..]));
      assert ReadsBack(c, v[0], s, pos);
      ReadAllOfWriteAll(c, v[1..], s, pos + |head|);
      ReadAllStep(c, |v|, s, pos);
      assert v == [v[0]] + v[1..];
    }
  }

  lemma ReadVectorOfWriteVector<T(!new)>(c: Codec<T>, v: seq<T>, s: seq<byte>, pos: nat)
    requires PrefixCode(c) && |v| < SIZE_LIMIT && AllWritable(c, v)
    requires Holds(s, pos, WriteVectorBytes(c, v))
    ensures ReadVectorAt(c, s, pos) == Some((v, pos + |WriteVectorBytes(c, v)|))
  {
    var size, items := LittleEndian(|v|, 4), WriteAll(c, v);
    assert WriteVectorBytes(c, v) == size + items;
    HoldsParts(s, pos, size, items);
    assert s[pos..pos + 4] == size;
    assert |v| < Pow256(4) by { Widths(); }
    FromOfLittleEndian(|v|, 4);
    ReadAllOfWriteAll(c, v, s, pos + 4);
  }

  // Hence vectors of vectors, of strings, of pairs and so on, by repeated use.
  lemma VectorIsPrefixCode<T(!new)>(c: Codec<T>)
    requires PrefixCode(c)
    ensures PrefixCode(Vector(c))
  {
    var vc := Vector(c);
    forall v, s, pos: nat ensures ReadsBack(vc, v, s, pos) {
      if vc.writable(v) && Holds(s, pos, vc.write(v)) { ReadVectorOfWriteVector(c, v, s, pos); }
    }
  }

  /* ------------------------- maps ------------------------- */

  // std::map::insert keeps the entry that is already there.
  function InsertAll<K, V>(m: map<K, V>, entries: seq<(K, V)>): map<K, V>
    decreases |entries|
  {
    if entries == [] then m
    else
      var (k, v) := entries[0];
      InsertAll(if k in m then m else m[k := v], entries[1..])
  }

  // entries lists m: each key once, with its value.
  ghost predicate Lists<K, V>(entries: seq<(K, V)>, m: map<K, V>) {
    && (forall i, j :: 0 <= i < j < |entries| ==> entries[i].0 != entries[j].0)
    && (forall i :: 0 <= i < |entries| ==> entries[i].0 in m && m[entries[i].0] == entries[i].1)
    && (forall k <- m :: exists i :: 0 <= i < |entries| && entries[i].0 == k)
  }

  lemma {:induction false} InsertDistinct<K, V>(m: map<K, V>, entries: seq<(K, V)>)
    requires forall i, j :: 0 <= i < j < |entries| ==> entries[i].0 != entries[j].0
    requires forall i :: 0 <= i < |entries| ==> entries[i].0 !in m
    ensures var r := InsertAll(m, entries);
            && (forall k <- m :: k in r && r[k] == m[k])
            && (forall i :: 0 <= i < |entries| ==> entries[i].0 in r && r[entries[i].0] == entries[i].1)
            && (forall k <- r :: k in m || exists i :: 0 <= i < |entries| && entries[i].0 == k)
    decreases |entries|
  {
    if entries != [] {
      var (k, v) := entries[0];
      var rest, m1 := entries[1..], m[k := v];
      assert forall i :: 0 <= i < |rest| ==> rest[i] == entries[i + 1];
      InsertDistinct(m1, rest);
      var r := InsertAll(m, entries);
      assert r == InsertAll(m1, rest);
      forall i | 0 <= i < |entries| ensures entries[i].0 in r && r[entries[i].0] == entries[i].1 {
        if i == 0 { assert k in m1 && m1[k] == v; } else { assert entries[i] == rest[i - 1]; }
      }
      forall x <- r ensures x in m || exists i :: 0 <= i < |entries| && entries[i].0 == x {
        if x !in m1 {
          var i :| 0 <= i < |rest| && rest[i].0 == x;
          assert entries[i + 1].0 == x;
        } else if x !in m {
          assert entries[0].0 == x;
        }
      }
    }
  }

  // Of entries with equal keys the first is kept, and none replaces an entry that was there.
  lemma {:induction false} FirstEntryKept<K, V>(m: map<K, V>, entries: seq<(K, V)>, k: K)
    ensures var r := InsertAll(m, entries);
            if k in m then k in r && r[k] == m[k]
            else if exists i :: 0 <= i < |entries| && entries[i].0 == k
            then exists i :: 0 <= i < |entries| && entries[i].0 == k && k in r && r[k] == entries[i].1
                             && forall j :: 0 <= j < i ==> entries[j].0 != k
            else k !in r
    decreases |entries|
  {
    if entries != [] {
      var (x, v) := entries[0];
      var m1, rest := if x in m then m else m[x := v], entries[1..];
      assert forall i :: 0 <= i < |rest| ==> rest[i] == entries[i + 1];
      FirstEntryKept(m1, rest, k);
      var r := InsertAll(m, entries);
      assert r == InsertAll(m1, rest);
      if k !in m && k != x && exists i :: 0 <= i < |rest| && rest[i].0 == k {
        var i :| 0 <= i < |rest| && rest[i].0 == k && k in r && r[k] == rest[i].1
                 && forall j :: 0 <= j < i ==> rest[j].0 != k;
        assert entries[i + 1].0 == k && r[k] == entries[i + 1].1;
        assert forall j :: 0 <= j < i + 1 ==> entries[j].0 != k;
      } else if k !in m && k == x {
        assert entries[0].0 == k && r[k] == entries[0].1;
      }
    }
  }

  lemma InsertAllOfListing<K, V>(entries: seq<(K, V)>, m: map<K, V>)
    requires Lists(entries, m)
    ensures InsertAll(map[], entries) == m
  {
    InsertDistinct(map[], entries);
    var r := InsertAll(map[], entries);
    forall k <- m ensures k in r && r[k] == m[k] {
      var i :| 0 <= i < |entries| && entries[i].0 == k;
    }
    assert r.Keys == m.Keys;
  }

  function ReadMapAt<K, V>(k: Codec<K>, v: Codec<V>, s: seq<byte>, pos: nat): Option<(map<K, V>, nat)> {
    match ReadVectorAt(Pair(k, v), s, pos)
    case None => None
    case Some((entries, end)) => Some((InsertAll(map[], entries), end))
  }

  // Whatever order the map is iterated in, >> rebuilds it and stops exactly where << did.
  lemma MapRoundTrip<K(!new), V(!new)>(k: Codec<K>, v: Codec<V>, m: map<K, V>,
                                       entries: seq<(K, V)>, s: seq<byte>, pos: nat)
    requires PrefixCode(k) && PrefixCode(v) && Lists(entries, m) && |entries| < SIZE_LIMIT
    requires AllWritable(Pair(k, v), entries)
    requires Holds(s, pos, WriteVectorBytes(Pair(k, v), entries))
    ensures ReadMapAt(k, v, s, pos) == Some((m, pos + |WriteVectorBytes(Pair(k, v), entries)|))
  {
    PairIsPrefixCode(k, v);
    ReadVectorOfWriteVector(Pair(k, v), entries, s, pos);
    InsertAllOfListing(entries, m);
  }

  // The map operators as element operators again; order is the iteration order of each map.
  function Map<K(==), V>(k: Codec<K>, v: Codec<V>, order: map<K, V> -> seq<(K, V)>): Codec<map<K, V>> {
    Codec((m: map<K, V>) => |order(m)| < SIZE_LIMIT && AllWritable(Pair(k, v), order(m)),
          (m: map<K, V>) => WriteVectorBytes(Pair(k, v), order(m)),
          (s: seq<byte>, pos: nat) => ReadMapAt(k, v, s, pos))
  }

  lemma MapIsPrefixCode<K(!new), V(!new)>(k: Codec<K>, v: Codec<V>, order: map<K, V> -> seq<(K, V)>)
    requires PrefixCode(k) && PrefixCode(v) && forall m :: Lists(order(m), m)
    ensures PrefixCode(Map(k, v, order))
  {
    var mc := Map(k, v, order);
    forall m, s, pos: nat ensures ReadsBack(mc, m, s, pos) {
      if mc.writable(m) && Holds(s, pos, mc.write(m)) { MapRoundTrip(k, v, m, order(m), s, pos); }
    }
  }

  // Nesting: vectors of maps from strings to maps from integers to vectors of strings.
  lemma NestedMapsArePrefixCode(n: nat, inner: map<nat, seq<seq<byte>>> -> seq<(nat, seq<seq<byte>>)>,
                                outer: map<seq<byte>, map<nat, seq<seq<byte>>>>
                                       -> seq<(seq<byte>, map<nat, seq<seq<byte>>>)>)
    requires n > 0 && (forall m :: Lists(inner(m), m)) && forall m :: Lists(outer(m), m)
    ensures PrefixCode(Vector(Map(NUL_TERMINATED, Map(Unsigned(n), Vector(NUL_TERMINATED), inner), outer)))
  {
    UnsignedIsPrefixCode(n);
    NulTerminatedIsPrefixCode();
    VectorIsPrefixCode(NUL_TERMINATED);
    var middle := Map(Unsigned(n), Vector(NUL_TERMINATED), inner);
    MapIsPrefixCode(Unsigned(n), Vector(NUL_TERMINATED), inner);
    MapIsPrefixCode(NUL_TERMINATED, middle, outer);
    VectorIsPrefixCode(Map(NUL_TERMINATED, middle, outer));
  }

  // Nesting: vectors of vectors of NUL-free strings.
  lemma NestedStringsArePrefixCode()
    ensures PrefixCode(Vector(Vector(NUL_TERMINATED)))
  {
    NulTerminatedIsPrefixCode();
    VectorIsPrefixCode(NUL_TERMINATED);
    VectorIsPrefixCode(Vector(NUL_TERMINATED));
  }

  /* ------------------------- the operators as loops over the buffer ------------------------- */

  // operator<< for std::vector and std::list, and for a std::map given in its iteration order.
  method WriteVector<T>(b: ByteBuffer, c: Codec<T>, v: seq<T>)
    requires forall i :: 0 <= i < |v| ==> c.write(v[i]) != []
    modifies b
    ensures b.rpos == old(b.rpos) && b.escbuffer == old(b.escbuffer)
    ensures b.wpos == old(b.wpos) + |WriteVectorBytes(c, v)|
    ensures b.storage == Written(old(b.storage), old(b.wpos), WriteVectorBytes(c, v))
  {
    var size := |v| % SIZE_LIMIT;
    Widths();
    b.AppendValue(size, 4);
    ghost var s, at, done := old(b.storage), old(b.wpos), LittleEndian(size, 4);
    var i := 0;
    assert v[0..] == v;
    while i < |v|
      invariant 0 <= i <= |v| && b.rpos == old(b.rpos) && b.escbuffer == old(b.escbuffer)
      invariant VectorLoop(c, v, s, at, i, done, b.storage, b.wpos)
    {
      VectorLoopStep(c, v, s, at, i, done, b.storage, b.wpos);
      var st := b.Append(c.write(v[i]));
      done := done + c.write(v[i]);
      i := i + 1;
    }
    assert v[i..] == [] && done + [] == done;
  }

  // done, the size and the first i elements, has been written from at on.
  ghost predicate VectorLoop<T>(c: Codec<T>, v: seq<T>, s: seq<byte>, at: nat, i: nat,
                                done: seq<byte>, storage: seq<byte>, wpos: nat)
    requires i <= |v|
  {
    && storage == Written(s, at, done) && wpos == at + |done|
    && done + WriteAll(c, v[i..]) == WriteVectorBytes(c, v)
  }

  lemma VectorLoopStep<T>(c: Codec<T>, v: seq<T>, s: seq<byte>, at: nat, i: nat,
                          done: seq<byte>, storage: seq<byte>, wpos: nat)
    requires i < |v| && VectorLoop(c, v, s, at, i, done, storage, wpos)
    ensures var e := c.write(v[i]);
            VectorLoop(c, v, s, at, i + 1, done + e, Written(storage, wpos, e), wpos + |e|)
  {
    WrittenTwice(s, at, done, c.write(v[i]));
    assert v[i..][0] == v[i] && v[i..][1..] == v[i + 1..];
  }

  // operator>> for std::vector and std::list.
  method ReadVector<T>(b: ByteBuffer, c: Codec<T>) returns (st: Status, v: seq<T>)
    modifies b`rpos
    ensures match ReadVectorAt(c, b.storage, old(b.rpos))
            case None => st == PositionException
            case Some((w, end)) => st == Ok && v == w && b.rpos == end
  {
    v := [];
    var start := b.rpos;
    var vsize :- b.Read(4);
    ghost var n := vsize;
    ghost var result := ReadAll(c, n, b.storage, b.rpos);
    if result.Some? { assert [] + result.value.0 == result.value.0; }
    while vsize > 0
      invariant 0 <= vsize
      invariant result == Extend(v, ReadAll(c, vsize, b.storage, b.rpos))
    {
      var next := c.read(b.storage, b.rpos);
      if next.None? { return PositionException, v; }
      if ReadAll(c, vsize - 1, b.storage, next.value.1).Some? {
        var rest := ReadAll(c, vsize - 1, b.storage, next.value.1).value.0;
        assert v + ([next.value.0] + rest) == (v + [next.value.0]) + rest;
      }
      b.rpos := next.value.1;
      v := v + [next.value.0];
      vsize := vsize - 1;
    }
    assert v + [] == v;
    st := Ok;
  }

  // A vector written at the end of a buffer and read from there comes back whole, with the read
  // cursor ending at the write cursor.
  method WriteThenReadVector<T(!new)>(b: ByteBuffer, c: Codec<T>, v: seq<T>) returns (st: Status, w: seq<T>)
    requires PrefixCode(c) && Vector(c).writable(v)
    requires b.rpos == b.wpos == |b.storage|
    modifies b
    ensures st == Ok && w == v && b.rpos == b.wpos == |b.storage|
  {
    assert forall i :: 0 <= i < |v| ==> WritesSomething(c, v[i]);
    WrittenAtEnd(b.storage, WriteVectorBytes(c, v));
    WriteVector(b, c, v);
    ReadVectorOfWriteVector(c, v, b.storage, b.rpos);
    st, w := ReadVector(b, c);
  }

  function Extend<T>(v: seq<T>, r: Option<(seq<T>, nat)>): Option<(seq<T>, nat)> {
    match r
    case None => None
    case Some((w, end)) => Some((v + w, end))
  }

  // operator>> for std::map.
  method ReadMap<K(==), V>(b: ByteBuffer, k: Codec<K>, v: Codec<V>) returns (st: Status, m: map<K, V>)
    modifies b`rpos
    ensures match ReadMapAt(k, v, b.storage, old(b.rpos))
            case None => st == PositionException
            case Some((w, end)) => st == Ok && m == w && b.rpos == end
  {
    m := map[];
    var msize :- b.Read(4);
    ghost var at, done := b.rpos, [];
    MapLoopStart(k, v, b.storage, at, msize);
    ghost var n := msize;
    while msize > 0
      invariant 0 <= msize
      invariant MapLoop(k, v, b.storage, at, n, done, m, msize, b.rpos)
    {
      MapLoopStep(k, v, b.storage, at, n, done, m, msize, b.rpos);
      var first := k.read(b.storage, b.rpos);
      if first.None? { return PositionException, m; }
      var second := v.read(b.storage, first.value.1);
      if second.None? { return PositionException, m; }
      b.rpos := second.value.1;
      if first.value.0 !in m { m := m[first.value.0 := second.value.0]; }
      done := done + [(first.value.0, second.value.0)];
      msize := msize - 1;
    }
    assert done + [] == done;
    st := Ok;
  }

  // A map written in any iteration order at the end of a buffer comes back whole, with the read cursor
  // ending at the write cursor.
  method WriteThenReadMap<K(==, !new), V(!new)>(b: ByteBuffer, k: Codec<K>, v: Codec<V>, ghost m: map<K, V>,
                                                entries: seq<(K, V)>) returns (st: Status, w: map<K, V>)
    requires PrefixCode(k) && PrefixCode(v) && Lists(entries, m)
    requires Vector(Pair(k, v)).writable(entries) && b.rpos == b.wpos == |b.storage|
    modifies b
    ensures st == Ok && w == m && b.rpos == b.wpos == |b.storage|
  {
    var c := Pair(k, v);
    PairIsPrefixCode(k, v);
    assert forall i :: 0 <= i < |entries| ==> WritesSomething(c, entries[i]);
    WrittenAtEnd(b.storage, WriteVectorBytes(c, entries));
    WriteVector(b, c, entries);
    MapRoundTrip(k, v, m, entries, b.storage, b.rpos);
    st, w := ReadMap(b, k, v);
  }

  // done has been read from at up to pos and inserted into m; left entries remain.
  ghost predicate MapLoop<K, V>(k: Codec<K>, v: Codec<V>, s: seq<byte>, at: nat, n: nat,
                                done: seq<(K, V)>, m: map<K, V>, left: nat, pos: nat)
  {
    && m == InsertAll(map[], done)
    && ReadAll(Pair(k, v), n, s, at) == Extend(done, ReadAll(Pair(k, v), left, s, pos))
  }

  lemma MapLoopStart<K, V>(k: Codec<K>, v: Codec<V>, s: seq<byte>, at: nat, n: nat)
    ensures MapLoop(k, v, s, at, n, [], map[], n, at)
  {
    var r := ReadAll(Pair(k, v), n, s, at);
    if r.Some? { assert [] + r.value.0 == r.value.0; }
  }

  lemma MapLoopStep<K, V>(k: Codec<K>, v: Codec<V>, s: seq<byte>, at: nat, n: nat,
                          done: seq<(K, V)>, m: map<K, V>, left: nat, pos: nat)
    requires left > 0 && MapLoop(k, v, s, at, n, done, m, left, pos)
    ensures match ReadPair(k, v, s, pos)
            case None => ReadAll(Pair(k, v), n, s, at).None?
            case Some((e, next)) =>
              MapLoop(k, v, s, at, n, done + [e], if e.0 in m then m else m[e.0 := e.1], left - 1, next)
  {
    var c := Pair(k, v);
    var r := c.read(s, pos);
    assert r == ReadPair(k, v, s, pos);
    if r.Some? {
      var (e, next) := r.value;
      InsertOneMore(map[], done, e);
      var tail := ReadAll(c, left - 1, s, next);
      if tail.Some? { assert done + ([e] + tail.value.0) == (done + [e]) + tail.value.0; }
    }
  }

  lemma {:induction false} InsertOneMore<K, V>(m: map<K, V>, entries: seq<(K, V)>, e: (K, V))
    ensures var r := InsertAll(m, entries);
            InsertAll(m, entries + [e]) == if e.0 in r then r else r[e.0 := e.1]
    decreases |entries|
  {
    if entries == [] {
      assert [] + [e] == [e];
    } else {
      var (k, v) := entries[0];
      InsertOneMore(if k in m then m else m[k := v], entries[1..], e);
      assert (entries + [e])[0] == entries[0] && (entries + [e])[1..] == entries[1..] + [e];
    }
  }
}
