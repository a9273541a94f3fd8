/**
 * The sensor configuration: the globals that the 0x35 writers send and the 0x34 readers restore,
 * and the two scripts of stream operations of each sensor kind.
 */
module Config {
  import opened Bytes
  import opened Wrappers
  import opened Containers

  datatype Field =
    | SpeedThreshold | Volumn | ActivePhotoStrategy | TimedSlice | DistanceSlice
    | PictureQuality | PictureSlice | PicResolution | VideoResolution | ResChar
    // driver monitor only
    | SmokingTime | CallTime
    | DrownVideoTime | DrownPicsNo | DrownPicSlice
    | CallVideoTime | CallPicsNo | CallPicSlice
    | SmokingVideoTime | SmokingPicsNo | SmokingPicSlice
    | DistractionVideoTime | DistractionPicsNo | DistractionPicSlice
    | AbnormalVideoTime | AbnormalPicsNo | AbnormalPicSlice
    // driver assistance only
    | ObstacleDistance | ObstacleVideoTime | ObstaclePicsNo | ObstaclePicSlice
    | DepartureTime | DepartureCnt | DepartureVideoTime | DeparturePicsNo | DeparturePicSlice
    | LdwVideoTime | LdwPicsNo | LdwPicSlice
    | FcwTime | FcwVideoTime | FcwPicsNo | FcwPicSlice
    | PcwTime | PcwVideoTime | PcwPicsNo | PcwPicSlice
    | CarCloseTime | CarCloseVideoTime | CarClosePicsNo | CarClosePicSlice
    | TsrPicsNo | TsrPicSlice

  // The globals by name; one that was never assigned is zero.
  type Store = map<Field, nat>

  function Get(m: Store, f: Field): nat {
    if f in m then m[f] else 0
  }

  function Put(m: Store, f: Field, v: nat): Store {
    m[f := v]
  }

  function Width(f: Field): nat {
    match f
    case TimedSlice | DistanceSlice | SmokingTime | CallTime => 2
    case _ => 1
  }

  ghost predicate InRange(m: Store) {
    forall f :: Get(m, f) < Pow256(Width(f))
  }

  /* ------------------------- scripts ------------------------- */

  // The stream operations of a function body, in order.
  datatype Script<Op> = Done | Then(op: Op, next: Script<Op>)

  datatype WriteOp =
    | PutBytes(fs: seq<Field>)   // << f for each f of one statement
    | PutSwapped16(f: Field)     // << swap_endian<uint16_t>(f)
    | PutReserved(n: nat)        // n times << reschar

  datatype ReadOp =
    | GetBytes(fs: seq<Field>)   // >> f for each f of one statement
    | GetHost16(f: Field)        // >> f, in host order
    | Swap16(f: Field)           // f = swap_endian<uint16_t>(f)
    | SkipBytes(n: nat)

  // The settings that both kinds of sensor share come first.
  function CommonWrites(rest: Script<WriteOp>): Script<WriteOp> {
    Then(PutBytes([SpeedThreshold, Volumn]),
    Then(PutBytes([ActivePhotoStrategy]),
    Then(PutSwapped16(TimedSlice),
    Then(PutSwapped16(DistanceSlice),
    Then(PutBytes([PictureQuality, PictureSlice, PicResolution, VideoResolution]),
    rest)))))
  }

  const ADAS_WRITES: Script<WriteOp> :=
    Then(PutReserved(9),
    Then(PutBytes([ObstacleDistance, ObstacleVideoTime, ObstaclePicsNo, ObstaclePicSlice]),
    Then(PutBytes([DepartureTime, DepartureCnt, DepartureVideoTime]),
    Then(PutBytes([DeparturePicsNo, DeparturePicSlice]),
    Then(PutBytes([LdwVideoTime, LdwPicsNo, LdwPicSlice]),
    Then(PutBytes([FcwTime, FcwVideoTime, FcwPicsNo, FcwPicSlice]),
    Then(PutBytes([PcwTime, PcwVideoTime, PcwPicsNo, PcwPicSlice]),
    Then(PutBytes([CarCloseTime, CarCloseVideoTime, CarClosePicsNo, CarClosePicSlice]),
    Then(PutBytes([TsrPicsNo, TsrPicSlice]),
    Then(PutReserved(4),
    Done))))))))))

  const DSM_WRITES: Script<WriteOp> :=
    Then(PutReserved(10),
    Then(PutSwapped16(SmokingTime),
    Then(PutSwapped16(CallTime),
    Then(PutBytes([DrownVideoTime, DrownPicsNo, DrownPicSlice, ResChar]),
    Then(PutBytes([CallVideoTime, CallPicsNo, CallPicSlice]),
    Then(PutBytes([SmokingVideoTime, SmokingPicsNo, SmokingPicSlice]),
    Then(PutBytes([DistractionVideoTime, DistractionPicsNo, DistractionPicSlice]),
    Then(PutBytes([AbnormalVideoTime, AbnormalPicsNo, AbnormalPicSlice]),
    Then(PutReserved(2),
    Done)))))))))

  function CommonReads(rest: Script<ReadOp>): Script<ReadOp> {
    Then(GetBytes([SpeedThreshold, Volumn]),
    Then(GetBytes([ActivePhotoStrategy]),
    Then(GetHost16(TimedSlice),
    Then(Swap16(TimedSlice),
    Then(GetHost16(DistanceSlice),
    Then(Swap16(DistanceSlice),
    Then(GetBytes([PictureQuality, PictureSlice, PicResolution, VideoResolution]),
    rest)))))))
  }

  const ADAS_READS: Script<ReadOp> :=
    Then(SkipBytes(9),
    Then(GetBytes([ObstacleDistance, ObstacleVideoTime, ObstaclePicsNo, ObstaclePicSlice]),
    Then(GetBytes([DepartureTime, DepartureCnt, DepartureVideoTime]),
    Then(GetBytes([DeparturePicsNo, DeparturePicSlice]),
    Then(GetBytes([LdwVideoTime, LdwPicsNo, LdwPicSlice]),
    Then(GetBytes([FcwTime, FcwVideoTime, FcwPicsNo, FcwPicSlice]),
    Then(GetBytes([PcwTime, PcwVideoTime, PcwPicsNo, PcwPicSlice]),
    Then(GetBytes([CarCloseTime, CarCloseVideoTime, CarClosePicsNo, CarClosePicSlice]),
    Then(GetBytes([TsrPicsNo, TsrPicSlice]),
    Then(SkipBytes(4),
    Done))))))))))

  const DSM_READS: Script<ReadOp> :=
    Then(SkipBytes(10),
    Then(GetHost16(SmokingTime),
    Then(GetHost16(CallTime),
    Then(Swap16(SmokingTime),
    Then(Swap16(CallTime),
    Then(GetBytes([DrownVideoTime, DrownPicsNo, DrownPicSlice, ResChar]),
    Then(GetBytes([CallVideoTime, CallPicsNo, CallPicSlice]),
    Then(GetBytes([SmokingVideoTime, SmokingPicsNo, SmokingPicSlice]),
    Then(GetBytes([DistractionVideoTime, DistractionPicsNo, DistractionPicSlice]),
    Then(GetBytes([AbnormalVideoTime, AbnormalPicsNo, AbnormalPicSlice]),
    Then(SkipBytes(2),
    Done)))))))))))

  const ADASID: byte := 0x64
  const DMSID: byte := 0x65

  function Writes(terminal: byte): Script<WriteOp> {
    if terminal == ADASID then CommonWrites(ADAS_WRITES)
    else if terminal == DMSID then CommonWrites(DSM_WRITES)
    else Done
  }

  function Reads(terminal: byte): Script<ReadOp> {
    if terminal == ADASID then CommonReads(ADAS_READS)
    else if terminal == DMSID then CommonReads(DSM_READS)
    else Done
  }

  /* ------------------------- what running a script does ------------------------- */

  function FieldBytes(m: Store, fs: seq<Field>): (r: seq<byte>)
    ensures |r| == |fs|
  {
    if fs == [] then [] else LittleEndian(Get(m, fs[0]), 1) + FieldBytes(m, fs[1..])
  }

  function SetFields(m: Store, fs: seq<Field>, bytes: seq<byte>): Store
    requires |bytes| == |fs|
    decreases |fs|
  {
    if fs == [] then m else SetFields(Put(m, fs[0], FromLittleEndian(bytes[..1])), fs[1..], bytes[1..])
  }

  function OpBytes(m: Store, op: WriteOp): seq<byte> {
    match op
    case PutBytes(fs) => FieldBytes(m, fs)
    case PutSwapped16(f) => BigEndian(Get(m, f), 2)
    case PutReserved(n) => seq(n, _ => Get(m, ResChar) % 0x100)
  }

  function WriteScript(m: Store, w: Script<WriteOp>): seq<byte> {
    match w
    case Done => []
    case Then(op, next) => OpBytes(m, op) + WriteScript(m, next)
  }

  function OpWidth(op: ReadOp): nat {
    match op
    case GetBytes(fs) => |fs|
    case GetHost16(_) => 2
    case Swap16(_) => 0
    case SkipBytes(n) => n
  }

  function ApplyOp(m: Store, op: ReadOp, bytes: seq<byte>): Store
    requires |bytes| == OpWidth(op)
  {
    match op
    case GetBytes(fs) => SetFields(m, fs, bytes)
    case GetHost16(f) => Put(m, f, FromLittleEndian(bytes))
    case Swap16(f) => Put(m, f, SwapEndian(Get(m, f), 2))
    case SkipBytes(_) => m
  }

  // None when a read would pass the end of s.
  function ReadScript(m: Store, r: Script<ReadOp>, s: seq<byte>, pos: nat): Option<(Store, nat)>
    decreases r
  {
    match r
    case Done => Some((m, pos))
    case Then(op, next) =>
      var end := pos + OpWidth(op);
      if end > |s| then None else ReadScript(ApplyOp(m, op, s[pos..end]), next, s, end)
  }

  // Number of bytes a reader consumes.
  function ScriptWidth(r: Script<ReadOp>): nat {
    match r
    case Done => 0
    case Then(GetBytes(fs), next) => |fs| + ScriptWidth(next)
    case Then(GetHost16(_), next) => 2 + ScriptWidth(next)
    case Then(Swap16(_), next) => ScriptWidth(next)
    case Then(SkipBytes(n), next) => n + ScriptWidth(next)
  }

  /* ------------------------- matching scripts ------------------------- */

  // The reader undoes the writer step by step; two 16-bit fields may be read before either is swapped.
  predicate Mirrors(w: Script<WriteOp>, r: Script<ReadOp>) {
    match w
    case Done => r == Done
    case Then(PutBytes(fs), w1) => AllBytes(fs) && r.Then? && r.op == GetBytes(fs) && Mirrors(w1, r.next)
    case Then(PutReserved(n), w1) => r.Then? && r.op == SkipBytes(n) && Mirrors(w1, r.next)
    case Then(PutSwapped16(f), w1) =>
      && Width(f) == 2 && r.Then? && r.op == GetHost16(f) && r.next.Then?
      && if r.next.op == Swap16(f) then Mirrors(w1, r.next.next)
         else
           && w1.Then? && w1.op.PutSwapped16? && w1.op.f != f && Width(w1.op.f) == 2
           && ReadsPair(f, w1.op.f, r) && Mirrors(w1.next, r.next.next.next.next)
  }

  predicate ReadsPair(f: Field, g: Field, r: Script<ReadOp>) {
    && r.Then? && r.op == GetHost16(f)
    && r.next.Then? && r.next.op == GetHost16(g)
    && r.next.next.Then? && r.next.next.op == Swap16(f)
    && r.next.next.next.Then? && r.next.next.next.op == Swap16(g)
  }

  predicate AllBytes(fs: seq<Field>) {
    forall i :: 0 <= i < |fs| ==> Width(fs[i]) == 1
  }

  function OpFields(op: WriteOp): set<Field> {
    match op
    case PutBytes(fs) => set f | f in fs
    case PutSwapped16(f) => {f}
    case PutReserved(_) => {}
  }

  function Fields(w: Script<WriteOp>): set<Field> {
    match w
    case Done => {}
    case Then(op, next) => OpFields(op) + Fields(next)
  }

  // The state of a configuration after taking the given fields from source.
  ghost predicate Restored(before: Store, after: Store, source: Store, fields: set<Field>) {
    forall f :: Get(after, f) == if f in fields then Get(source, f) else Get(before, f)
  }

  lemma {:induction false} SetFieldsRestores(m: Store, source: Store, fs: seq<Field>)
    requires InRange(source) && AllBytes(fs)
    ensures Restored(m, SetFields(m, fs, FieldBytes(source, fs)), source, set f | f in fs)
    decreases |fs|
  {
    if fs != [] {
      var f, v := fs[0], Get(source, fs[0]);
      assert v < Pow256(Width(f));
      FromOfLittleEndian(v, 1);
      var bytes := FieldBytes(source, fs);
      assert bytes[..1] == LittleEndian(v, 1) && bytes[1..] == FieldBytes(source, fs[1..]);
      SetFieldsRestores(Put(m, f, v), source, fs[1..]);
      assert (set g | g in fs) == (set g | g in fs[1..]) + {f};
    }
  }

  lemma ReadBackSwapped(source: Store, f: Field)
    requires InRange(source) && Width(f) == 2
    ensures SwapEndian(FromLittleEndian(BigEndian(Get(source, f), 2)), 2) == Get(source, f)
  {
    assert Get(source, f) < Pow256(Width(f));
    SwapAfterRead(BigEndian(Get(source, f), 2));
    FromOfBigEndian(Get(source, f), 2);
  }

  lemma StepOne(m: Store, r: Script<ReadOp>, bytes: seq<byte>, s: seq<byte>, pos: nat)
    requires r.Then? && Holds(s, pos, bytes) && |bytes| == OpWidth(r.op)
    ensures ReadScript(m, r, s, pos) == ReadScript(ApplyOp(m, r.op, bytes), r.next, s, pos + |bytes|)
  {
  }

  lemma StepHost(m: Store, source: Store, f: Field, r: Script<ReadOp>, s: seq<byte>, pos: nat)
    requires r.Then? && r.op == GetHost16(f) && Holds(s, pos, BigEndian(Get(source, f), 2))
    ensures ReadScript(m, r, s, pos) ==
            ReadScript(Put(m, f, FromLittleEndian(BigEndian(Get(source, f), 2))), r.next, s, pos + 2)
  {
  }

  lemma StepSwap(m: Store, source: Store, f: Field, r: Script<ReadOp>, s: seq<byte>, pos: nat)
    requires InRange(source) && Width(f) == 2 && r.Then? && r.op == Swap16(f) && pos <= |s|
    requires Get(m, f) == FromLittleEndian(BigEndian(Get(source, f), 2))
    ensures ReadScript(m, r, s, pos) == ReadScript(Put(m, f, Get(source, f)), r.next, s, pos)
  {
    ReadBackSwapped(source, f);
  }

  lemma StepSwapped(m: Store, source: Store, f: Field, r: Script<ReadOp>, s: seq<byte>, pos: nat)
    requires InRange(source) && Width(f) == 2
    requires r.Then? && r.op == GetHost16(f) && r.next.Then? && r.next.op == Swap16(f)
    requires Holds(s, pos, BigEndian(Get(source, f), 2))
    ensures ReadScript(m, r, s, pos) == ReadScript(Put(m, f, Get(source, f)), r.next.next, s, pos + 2)
  {
    var raw := FromLittleEndian(BigEndian(Get(source, f), 2));
    StepHost(m, source, f, r, s, pos);
    StepSwap(Put(m, f, raw), source, f, r.next, s, pos + 2);
    PutTwice(m, f, raw, Get(source, f));
  }

  lemma PutTwice(m: Store, f: Field, x: nat, u: nat)
    ensures Put(Put(m, f, x), f, u) == Put(m, f, u)
  {
  }

  lemma PutOther(m: Store, f: Field, g: Field, x: nat, y: nat)
    requires f != g
    ensures Put(Put(m, f, x), g, y) == Put(Put(m, g, y), f, x)
  {
  }

  lemma StepSwappedPair(m: Store, source: Store, f: Field, g: Field, r: Script<ReadOp>, s: seq<byte>, pos: nat)
    requires InRange(source) && Width(f) == 2 && Width(g) == 2 && f != g && ReadsPair(f, g, r)
    requires Holds(s, pos, BigEndian(Get(source, f), 2)) && Holds(s, pos + 2, BigEndian(Get(source, g), 2))
    ensures ReadScript(m, r, s, pos) ==
            ReadScript(Put(Put(m, f, Get(source, f)), g, Get(source, g)), r.next.next.next.next, s, pos + 4)
  {
    var x, y := FromLittleEndian(BigEndian(Get(source, f), 2)), FromLittleEndian(BigEndian(Get(source, g), 2));
    var u, v := Get(source, f), Get(source, g);
    StepHost(m, source, f, r, s, pos);
    StepHost(Put(m, f, x), source, g, r.next, s, pos + 2);
    StepSwap(Put(Put(m, f, x), g, y), source, f, r.next.next, s, pos + 4);
    PutOther(m, f, g, x, y);
    PutTwice(Put(m, g, y), f, x, u);
    PutOther(m, f, g, u, y);
    StepSwap(Put(Put(m, f, u), g, y), source, g, r.next.next.next, s, pos + 4);
    PutTwice(Put(m, f, u), g, y, v);
  }

  lemma RestoredTwice(m: Store, mid: Store, after: Store, source: Store, a: set<Field>, b: set<Field>)
    requires Restored(m, mid, source, a) && Restored(mid, after, source, b)
    ensures Restored(m, after, source, a + b)
  {
  }

  // Reading back what source wrote restores the fields of w, touches no other field, and leaves the
  // cursor exactly at the end of the block.
  ghost predicate RoundTrips(m: Store, source: Store, w: Script<WriteOp>, r: Script<ReadOp>, s: seq<byte>, pos: nat) {
    var back := ReadScript(m, r, s, pos);
    && back.Some? && back.value.1 == pos + |WriteScript(source, w)|
    && Restored(m, back.value.0, source, Fields(w))
  }

  lemma RoundTripsStep(m: Store, mid: Store, source: Store, w: Script<WriteOp>, r: Script<ReadOp>,
                       r1: Script<ReadOp>, s: seq<byte>, pos: nat)
    requires w.Then? && Restored(m, mid, source, OpFields(w.op))
    requires ReadScript(m, r, s, pos) == ReadScript(mid, r1, s, pos + |OpBytes(source, w.op)|)
    requires RoundTrips(mid, source, w.next, r1, s, pos + |OpBytes(source, w.op)|)
    ensures RoundTrips(m, source, w, r, s, pos)
  {
    RestoredTwice(m, mid, ReadScript(m, r, s, pos).value.0, source, OpFields(w.op), Fields(w.next));
  }

  lemma {:induction false} MirrorsRoundTrip(m: Store, source: Store, w: Script<WriteOp>, r: Script<ReadOp>,
                                            s: seq<byte>, pos: nat)
    requires InRange(source) && Mirrors(w, r) && Holds(s, pos, WriteScript(source, w))
    ensures RoundTrips(m, source, w, r, s, pos)
    decreases w, 1
  {
    if w.Then? {
      if w.op.PutBytes? {
        MirrorsBytes(m, source, w, r, s, pos);
      } else if w.op.PutReserved? {
        HoldsParts(s, pos, OpBytes(source, w.op), WriteScript(source, w.next));
        StepOne(m, r, OpBytes(source, w.op), s, pos);
        MirrorsRoundTrip(m, source, w.next, r.next, s, pos + w.op.n);
        RoundTripsStep(m, m, source, w, r, r.next, s, pos);
      } else if r.next.op == Swap16(w.op.f) {
        MirrorsSwapped(m, source, w, r, s, pos);
      } else {
        MirrorsPair(m, source, w, r, s, pos);
      }
    }
  }

  lemma {:induction false} MirrorsBytes(m: Store, source: Store, w: Script<WriteOp>, r: Script<ReadOp>,
                                        s: seq<byte>, pos: nat)
    requires InRange(source) && Mirrors(w, r) && Holds(s, pos, WriteScript(source, w))
    requires w.Then? && w.op.PutBytes?
    ensures RoundTrips(m, source, w, r, s, pos)
    decreases w, 0
  {
    var bytes := FieldBytes(source, w.op.fs);
    var mid := SetFields(m, w.op.fs, bytes);
    HoldsParts(s, pos, bytes, WriteScript(source, w.next));
    SetFieldsRestores(m, source, w.op.fs);
    StepOne(m, r, bytes, s, pos);
    MirrorsRoundTrip(mid, source, w.next, r.next, s, pos + |bytes|);
    RoundTripsStep(m, mid, source, w, r, r.next, s, pos);
  }

  lemma {:induction false} MirrorsSwapped(m: Store, source: Store, w: Script<WriteOp>, r: Script<ReadOp>,
                                          s: seq<byte>, pos: nat)
    requires InRange(source) && Mirrors(w, r) && Holds(s, pos, WriteScript(source, w))
    requires w.Then? && w.op.PutSwapped16? && r.next.op == Swap16(w.op.f)
    ensures RoundTrips(m, source, w, r, s, pos)
    decreases w, 0
  {
    var one := Put(m, w.op.f, Get(source, w.op.f));
    HoldsParts(s, pos, OpBytes(source, w.op), WriteScript(source, w.next));
    StepSwapped(m, source, w.op.f, r, s, pos);
    MirrorsRoundTrip(one, source, w.next, r.next.next, s, pos + 2);
    RoundTripsStep(m, one, source, w, r, r.next.next, s, pos);
  }

  lemma {:induction false} MirrorsPair(m: Store, source: Store, w: Script<WriteOp>, r: Script<ReadOp>,
                                       s: seq<byte>, pos: nat)
    requires InRange(source) && Mirrors(w, r) && Holds(s, pos, WriteScript(source, w))
    requires w.Then? && w.op.PutSwapped16? && r.next.op != Swap16(w.op.f)
    ensures RoundTrips(m, source, w, r, s, pos)
    decreases w, 0
  {
    var f, g, rest := w.op.f, w.next.op.f, r.next.next.next.next;
    var one := Put(m, f, Get(source, f));
    var two := Put(one, g, Get(source, g));
    HoldsParts(s, pos, OpBytes(source, w.op), WriteScript(source, w.next));
    HoldsParts(s, pos + 2, OpBytes(source, w.next.op), WriteScript(source, w.next.next));
    StepSwappedPair(m, source, f, g, r, s, pos);
    MirrorsRoundTrip(two, source, w.next.next, rest, s, pos + 4);
    var after := ReadScript(two, rest, s, pos + 4).value.0;
    RestoredTwice(one, two, after, source, OpFields(w.next.op), Fields(w.next.next));
    RestoredTwice(m, one, after, source, OpFields(w.op), Fields(w.next));
  }

  /* ------------------------- the two sensor kinds ------------------------- */

  lemma AdasMirrors()
    ensures Mirrors(ADAS_WRITES, ADAS_READS)
  {
  }

  lemma DsmMirrors()
    ensures Mirrors(DSM_WRITES, DSM_READS)
  {
  }

  lemma CommonMirrors(w: Script<WriteOp>, r: Script<ReadOp>)
    requires Mirrors(w, r)
    ensures Mirrors(CommonWrites(w), CommonReads(r))
    ensures ScriptWidth(CommonReads(r)) == 11 + ScriptWidth(r)
  {
    var w1, r1 := CommonWrites(w), CommonReads(r);
    var w3, r3 := w1.next.next, r1.next.next;
    var w4, r4 := w3.next, r3.next.next;
    assert Mirrors(w4.next, r4.next.next) && ScriptWidth(r4.next.next) == 4 + ScriptWidth(r);
    assert Mirrors(w4, r4) && ScriptWidth(r4) == 6 + ScriptWidth(r);
    assert Mirrors(w3, r3) && ScriptWidth(r3) == 8 + ScriptWidth(r);
    assert Mirrors(w1.next, r1.next) && ScriptWidth(r1.next) == 9 + ScriptWidth(r);
  }

  lemma ScriptsMirror(terminal: byte)
    ensures Mirrors(Writes(terminal), Reads(terminal))
  {
    AdasMirrors();
    DsmMirrors();
    CommonMirrors(ADAS_WRITES, ADAS_READS);
    CommonMirrors(DSM_WRITES, DSM_READS);
  }

  lemma {:induction false} ReadScriptFailsIff(m: Store, r: Script<ReadOp>, s: seq<byte>, pos: nat)
    requires pos <= |s|
    ensures ReadScript(m, r, s, pos).None? <==> pos + ScriptWidth(r) > |s|
    ensures ReadScript(m, r, s, pos).Some? ==> ReadScript(m, r, s, pos).value.1 == pos + ScriptWidth(r)
    decreases r
  {
    if r.Then? && pos + OpWidth(r.op) <= |s| {
      var end := pos + OpWidth(r.op);
      ReadScriptFailsIff(ApplyOp(m, r.op, s[pos..end]), r.next, s, end);
    }
  }

  // A driver-assistance block is 50 bytes long, a driver-monitor block 43.
  lemma BlockWidth(terminal: byte)
    ensures ScriptWidth(Reads(terminal)) ==
            if terminal == ADASID then 50 else if terminal == DMSID then 43 else 0
  {
    AdasMirrors();
    DsmMirrors();
    CommonMirrors(ADAS_WRITES, ADAS_READS);
    CommonMirrors(DSM_WRITES, DSM_READS);
    assert ScriptWidth(ADAS_READS) == 39;
    assert ScriptWidth(DSM_READS) == 32;
  }

  lemma WrittenBlockWidth(m: Store, terminal: byte)
    ensures |WriteScript(m, Writes(terminal))| == ScriptWidth(Reads(terminal))
  {
    ScriptsMirror(terminal);
    MirrorsWidth(m, Writes(terminal), Reads(terminal));
  }

  lemma {:induction false} MirrorsWidth(m: Store, w: Script<WriteOp>, r: Script<ReadOp>)
    requires Mirrors(w, r)
    ensures |WriteScript(m, w)| == ScriptWidth(r)
    decreases w
  {
    if w.Then? {
      if w.op.PutSwapped16? {
        if r.next.op == Swap16(w.op.f) { MirrorsWidth(m, w.next, r.next.next); }
        else {
          MirrorsWidth(m, w.next.next, r.next.next.next.next);
          assert ScriptWidth(r.next.next) == ScriptWidth(r.next.next.next.next);
        }
      } else {
        MirrorsWidth(m, w.next, r.next);
      }
    }
  }

  predicate TypedOp(op: ReadOp) {
    match op
    case GetBytes(fs) => AllBytes(fs)
    case GetHost16(f) => Width(f) == 2
    case Swap16(f) => Width(f) == 2
    case SkipBytes(_) => true
  }

  // 16-bit operations are used on 16-bit fields only, so reading keeps every field in its range.
  predicate Typed(r: Script<ReadOp>) {
    match r
    case Done => true
    case Then(op, next) => TypedOp(op) && Typed(next)
  }

  lemma {:induction false} MirrorsTyped(w: Script<WriteOp>, r: Script<ReadOp>)
    requires Mirrors(w, r)
    ensures Typed(r)
    decreases w
  {
    if w.Then? {
      if w.op.PutSwapped16? {
        if r.next.op == Swap16(w.op.f) {
          MirrorsTyped(w.next, r.next.next);
        } else {
          MirrorsTyped(w.next.next, r.next.next.next.next);
          assert Typed(r.next.next.next) && Typed(r.next.next);
        }
      } else {
        MirrorsTyped(w.next, r.next);
      }
    }
  }

  lemma PutInRange(m: Store, f: Field, v: nat)
    requires InRange(m) && v < Pow256(Width(f))
    ensures InRange(Put(m, f, v))
  {
  }

  predicate TypedWriter(w: Script<WriteOp>) {
    match w
    case Done => true
    case Then(PutBytes(fs), next) => AllBytes(fs) && TypedWriter(next)
    case Then(PutSwapped16(f), next) => Width(f) == 2 && TypedWriter(next)
    case Then(PutReserved(_), next) => TypedWriter(next)
  }

  lemma {:induction false} MirrorsTypedWriter(w: Script<WriteOp>, r: Script<ReadOp>)
    requires Mirrors(w, r)
    ensures TypedWriter(w)
    decreases w
  {
    if w.Then? {
      if w.op.PutSwapped16? && r.next.op != Swap16(w.op.f) {
        MirrorsTypedWriter(w.next.next, r.next.next.next.next);
        assert TypedWriter(w.next);
      } else if w.op.PutSwapped16? {
        MirrorsTypedWriter(w.next, r.next.next);
      } else {
        MirrorsTypedWriter(w.next, r.next);
      }
    }
  }

  /* ------------------------- steps of the loops over scripts ------------------------- */

  lemma WrittenStart(m: Store, w: Script<WriteOp>)
    ensures [] + WriteScript(m, w) == WriteScript(m, w)
  {
  }

  lemma SetFieldsStep(m: Store, fs: seq<Field>, bytes: seq<byte>)
    requires |bytes| == |fs| && fs != []
    ensures SetFields(m, fs, bytes) == SetFields(Put(m, fs[0], FromLittleEndian(bytes[..1])), fs[1..], bytes[1..])
  {
  }

  lemma ReadScriptStep(m: Store, r: Script<ReadOp>, s: seq<byte>, pos: nat)
    requires r.Then?
    ensures var end := pos + OpWidth(r.op);
            ReadScript(m, r, s, pos) ==
            if end > |s| then None else ReadScript(ApplyOp(m, r.op, s[pos..end]), r.next, s, end)
  {
  }
}
