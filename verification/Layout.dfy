/** The messages at literal byte positions, with literal codes. */
module Layout {
  import opened Bytes
  import opened Sequences
  import opened Wrappers
  import opened Framing
  import opened Containers
  import opened Messages
  import opened Config
  import PackedGuid

  /* ------------------------- what the server sends ------------------------- */

  // A header given by its bytes: serial number and manufacturer are little-endian.
  function Header(s0: byte, s1: byte, m0: byte, m1: byte, terminal: byte): Sender {
    Sender(s0 + 0x100 * s1, m0 + 0x100 * m1, terminal)
  }

  // A media item given by its bytes: the ID is big-endian.
  function Item(mediaType: byte, i0: byte, i1: byte, i2: byte, i3: byte): Descriptor {
    Descriptor(mediaType, 0x100_0000 * i0 + 0x1_0000 * i1 + 0x100 * i2 + i3)
  }

  function Number(hi: byte, lo: byte): uint16 {
    0x100 * hi + lo
  }

  lemma HeadBytes(s0: byte, s1: byte, m0: byte, m1: byte, terminal: byte, opcode: byte)
    ensures Head(Header(s0, s1, m0, m1, terminal), opcode) == [s0, s1, m0, m1, terminal, opcode]
  {
    LittleImage(s0, s1, 0, 0);
    LittleImage(m0, m1, 0, 0);
  }

  // 0x50
  lemma RequestBytes(s0: byte, s1: byte, m0: byte, m1: byte, terminal: byte,
                     mediaType: byte, i0: byte, i1: byte, i2: byte, i3: byte)
    ensures RequestBody(Header(s0, s1, m0, m1, terminal), Item(mediaType, i0, i1, i2, i3)) ==
            [s0, s1, m0, m1, terminal, 0x50, mediaType, i0, i1, i2, i3]
  {
    HeadBytes(s0, s1, m0, m1, terminal, 0x50);
    BigImage(i0, i1, i2, i3);
  }

  // 0x51
  lemma AckBytes(s0: byte, s1: byte, m0: byte, m1: byte, terminal: byte, mediaType: byte,
                 i0: byte, i1: byte, i2: byte, i3: byte, t0: byte, t1: byte, c0: byte, c1: byte, payload: seq<byte>)
    ensures var m := Item(mediaType, i0, i1, i2, i3);
            var p := DataPacket(mediaType, m.mediaId, Number(t0, t1), Number(c0, c1), payload);
            AckBody(Header(s0, s1, m0, m1, terminal), p) ==
            [s0, s1, m0, m1, terminal, 0x51, mediaType, i0, i1, i2, i3, t0, t1, c0, c1, 0x00]
  {
    HeadBytes(s0, s1, m0, m1, terminal, 0x51);
    FieldBytesAt(mediaType, i0, i1, i2, i3, t0, t1, c0, c1);
  }

  lemma FieldBytesAt(mediaType: byte, i0: byte, i1: byte, i2: byte, i3: byte, t0: byte, t1: byte, c0: byte, c1: byte)
    ensures PacketFields(mediaType, Item(mediaType, i0, i1, i2, i3).mediaId, Number(t0, t1), Number(c0, c1)) ==
            [mediaType, i0, i1, i2, i3, t0, t1, c0, c1]
  {
    BigImage(i0, i1, i2, i3);
    BigImage(t0, t1, 0, 0);
    BigImage(c0, c1, 0, 0);
  }

  // 0x31: speed 0x40, a reserved byte, mileage, two reserved bytes, height, latitude, longitude, the time
  // and last the vehicle state.
  lemma HeartbeatBytes(s0: byte, s1: byte, m0: byte, m1: byte, terminal: byte, time: Time)
    ensures RealtimeBody(Header(s0, s1, m0, m1, terminal), time) ==
            [s0, s1, m0, m1, terminal, 0x31, 0x40, 0x00, 0x12, 0x34, 0x56, 0x78, 0x00, 0x00, 0x01, 0x00,
             0x23, 0x23, 0x23, 0x23, 0x56, 0x12, 0x56, 0x12] + time + [0x00, 0x10]
  {
    HeadBytes(s0, s1, m0, m1, terminal, 0x31);
    HeartbeatNumbers();
    Joined(Head(Header(s0, s1, m0, m1, terminal), 0x31), BigEndian(0x12345678, 4), BigEndian(0x100, 2),
           BigEndian(0x23232323, 4), BigEndian(0x56125612, 4), time, BigEndian(0x10, 2));
  }

  lemma HeartbeatNumbers()
    ensures BigEndian(0x12345678, 4) == [0x12, 0x34, 0x56, 0x78] && BigEndian(0x100, 2) == [0x01, 0x00]
    ensures BigEndian(0x23232323, 4) == [0x23, 0x23, 0x23, 0x23]
    ensures BigEndian(0x56125612, 4) == [0x56, 0x12, 0x56, 0x12] && BigEndian(0x10, 2) == [0x00, 0x10]
  {
    BigImage(0x12, 0x34, 0x56, 0x78);
    BigImage(0x01, 0x00, 0, 0);
    BigImage(0x23, 0x23, 0x23, 0x23);
    BigImage(0x56, 0x12, 0x56, 0x12);
    BigImage(0x00, 0x10, 0, 0);
  }

  lemma Joined(head: seq<byte>, mileage: seq<byte>, height: seq<byte>, latitude: seq<byte>, longitude: seq<byte>,
               time: Time, state: seq<byte>)
    requires |head| == 6 && |mileage| == |latitude| == |longitude| == 4 && |height| == |state| == 2
    ensures head + [0x40, 0x00] + mileage + [0x00, 0x00] + height + latitude + longitude + time + state ==
            [head[0], head[1], head[2], head[3], head[4], head[5], 0x40, 0x00,
             mileage[0], mileage[1], mileage[2], mileage[3], 0x00, 0x00, height[0], height[1],
             latitude[0], latitude[1], latitude[2], latitude[3],
             longitude[0], longitude[1], longitude[2], longitude[3]] + time + [state[0], state[1]]
  {
  }

  // The heartbeat exchanges the two bytes of the serial number.
  lemma SwappedSerial(s0: byte, s1: byte, m0: byte, m1: byte, terminal: byte)
    ensures SwapSequence(Header(s0, s1, m0, m1, terminal)) == Header(s1, s0, m0, m1, terminal)
  {
    LittleImage(s0, s1, 0, 0);
    ReversedFour(s0, s1, s0, s1);
    ImageValues(s1, s0, 0, 0);
  }

  /* ------------------------- what the server reads ------------------------- */

  function AlarmLength(count: nat): nat {
    39 + 5 * count
  }

  // The header of a decoded packet: terminal at 6, opcode at 7; the opcodes and the two terminal codes.
  lemma Dispatch(d: seq<byte>)
    ensures |d| < 8 ==> ParseDecoded(d) == None
    ensures |d| >= 8 && d[7] == 0x34 ==> ParseDecoded(d) == Some(Incoming(d[6], ConfigReply(d)))
    ensures |d| >= 8 && d[7] == 0x36 && d[6] != 0x64 && d[6] != 0x65 ==>
              ParseDecoded(d) == Some(Incoming(d[6], Ignored))
    ensures |d| >= 8 && d[7] == 0x36 && (d[6] == 0x64 || d[6] == 0x65) ==>
              if |d| < 39 || |d| < AlarmLength(d[38]) then ParseDecoded(d) == None
              else exists media :: |media| == d[38] && ParseDecoded(d) == Some(Incoming(d[6], Alarm(media)))
                                   && ListedAt(d, media)
    ensures |d| >= 8 && d[7] == 0x38 ==>
              ParseDecoded(d) == if |d| < 13 then None else Some(Incoming(d[6], StatusReport))
    ensures |d| >= 8 && d[7] == 0x51 ==>
              ParseDecoded(d) ==
              if |d| < 19 then None
              else Some(Incoming(d[6], MediaData(DataPacket(d[8], Item(d[8], d[9], d[10], d[11], d[12]).mediaId,
                                                            Number(d[13], d[14]), Number(d[15], d[16]),
                                                            d[17..|d| - 1]))))
    ensures |d| >= 8 && d[7] !in {0x34, 0x36, 0x38, 0x51} ==> ParseDecoded(d) == Some(Incoming(d[6], Ignored))
  {
    if |d| >= 8 && d[7] == 0x36 && (d[6] == 0x64 || d[6] == 0x65) { AlarmAt(d); }
    if |d| >= 19 { DataAt(d); }
  }

  // Which opcode a packet understood had.
  lemma MessageOpcode(d: seq<byte>)
    requires ParseDecoded(d).Some?
    ensures var m := ParseDecoded(d).value.message;
            && |d| >= 8 && ParseDecoded(d).value.terminal == d[6]
            && (m.ConfigReply? <==> d[7] == 0x34) && (m.StatusReport? <==> d[7] == 0x38)
            && (m.MediaData? <==> d[7] == 0x51)
            && (m.Alarm? <==> d[7] == 0x36 && (d[6] == 0x64 || d[6] == 0x65))
  {
  }

  // Five bytes an entry from 39 on: the type, then the ID.
  ghost predicate ListedAt(d: seq<byte>, media: seq<Descriptor>)
    requires |d| >= 39 + 5 * |media|
  {
    forall i :: 0 <= i < |media| ==>
      media[i] == Item(d[39 + 5 * i], d[40 + 5 * i], d[41 + 5 * i], d[42 + 5 * i], d[43 + 5 * i])
  }

  lemma AlarmAt(d: seq<byte>)
    ensures if |d| < 39 || |d| < AlarmLength(d[38]) then ParseAlarm(d) == None
            else ParseAlarm(d).Some? && |ParseAlarm(d).value| == d[38] && ListedAt(d, ParseAlarm(d).value)
  {
    if |d| >= 39 && |d| >= AlarmLength(d[38]) {
      forall i: int | 0 <= i < |ParseAlarm(d).value|
        ensures DescriptorAt(d, 39 + 5 * i) ==
                Item(d[39 + 5 * i], d[40 + 5 * i], d[41 + 5 * i], d[42 + 5 * i], d[43 + 5 * i])
      {
        EntryAtPosition(d, 39 + 5 * i);
      }
    }
  }

  lemma EntryAtPosition(d: seq<byte>, pos: nat)
    requires pos + 5 <= |d|
    ensures DescriptorAt(d, pos) == Item(d[pos], d[pos + 1], d[pos + 2], d[pos + 3], d[pos + 4])
  {
    assert d[pos + 1..pos + 5] == [d[pos + 1], d[pos + 2], d[pos + 3], d[pos + 4]];
    ImageValues(d[pos + 1], d[pos + 2], d[pos + 3], d[pos + 4]);
  }

  lemma DataAt(d: seq<byte>)
    requires |d| >= 19
    ensures ParseData(d) ==
            Some(DataPacket(d[8], Item(d[8], d[9], d[10], d[11], d[12]).mediaId,
                            Number(d[13], d[14]), Number(d[15], d[16]), d[17..|d| - 1]))
  {
    assert d[9..13] == [d[9], d[10], d[11], d[12]] && d[13..15] == [d[13], d[14]] && d[15..17] == [d[15], d[16]];
    ImageValues(d[9], d[10], d[11], d[12]);
    ImageValues(d[13], d[14], 0, 0);
    ImageValues(d[15], d[16], 0, 0);
  }

  /* ------------------------- the configuration blocks ------------------------- */

  function Byte(m: Store, f: Field): byte {
    Get(m, f) % 0x100
  }

  function High(m: Store, f: Field): byte {
    Get(m, f) / 0x100 % 0x100
  }

  function Reserved(m: Store, n: nat): seq<byte> {
    seq(n, _ => Byte(m, ResChar))
  }

  // The first eleven bytes, for both kinds of sensor.
  ghost predicate CommonAt(m: Store, b: seq<byte>) {
    && |b| >= 11
    && b[0] == Byte(m, SpeedThreshold) && b[1] == Byte(m, Volumn) && b[2] == Byte(m, ActivePhotoStrategy)
    && b[3] == High(m, TimedSlice) && b[4] == Byte(m, TimedSlice)
    && b[5] == High(m, DistanceSlice) && b[6] == Byte(m, DistanceSlice)
    && b[7] == Byte(m, PictureQuality) && b[8] == Byte(m, PictureSlice)
    && b[9] == Byte(m, PicResolution) && b[10] == Byte(m, VideoResolution)
  }

  // What a driver-assistance sensor is sent, by position.
  ghost predicate AdasAt(m: Store, b: seq<byte>) {
    && |b| == 50 && CommonAt(m, b) && b[11..20] == Reserved(m, 9)
    && b[20..24] == [Byte(m, ObstacleDistance), Byte(m, ObstacleVideoTime), Byte(m, ObstaclePicsNo),
                     Byte(m, ObstaclePicSlice)]
    && b[24..27] == [Byte(m, DepartureTime), Byte(m, DepartureCnt), Byte(m, DepartureVideoTime)]
    && b[27..29] == [Byte(m, DeparturePicsNo), Byte(m, DeparturePicSlice)]
    && b[29..32] == [Byte(m, LdwVideoTime), Byte(m, LdwPicsNo), Byte(m, LdwPicSlice)]
    && b[32..36] == [Byte(m, FcwTime), Byte(m, FcwVideoTime), Byte(m, FcwPicsNo), Byte(m, FcwPicSlice)]
    && b[36..40] == [Byte(m, PcwTime), Byte(m, PcwVideoTime), Byte(m, PcwPicsNo), Byte(m, PcwPicSlice)]
    && b[40..44] == [Byte(m, CarCloseTime), Byte(m, CarCloseVideoTime), Byte(m, CarClosePicsNo),
                     Byte(m, CarClosePicSlice)]
    && b[44..46] == [Byte(m, TsrPicsNo), Byte(m, TsrPicSlice)] && b[46..50] == Reserved(m, 4)
  }

  // What a driver monitor is sent.
  ghost predicate DsmAt(m: Store, b: seq<byte>) {
    && |b| == 43 && CommonAt(m, b) && b[11..21] == Reserved(m, 10)
    && b[21..23] == [High(m, SmokingTime), Byte(m, SmokingTime)]
    && b[23..25] == [High(m, CallTime), Byte(m, CallTime)]
    && b[25..29] == [Byte(m, DrownVideoTime), Byte(m, DrownPicsNo), Byte(m, DrownPicSlice), Byte(m, ResChar)]
    && b[29..32] == [Byte(m, CallVideoTime), Byte(m, CallPicsNo), Byte(m, CallPicSlice)]
    && b[32..35] == [Byte(m, SmokingVideoTime), Byte(m, SmokingPicsNo), Byte(m, SmokingPicSlice)]
    && b[35..38] == [Byte(m, DistractionVideoTime), Byte(m, DistractionPicsNo), Byte(m, DistractionPicSlice)]
    && b[38..41] == [Byte(m, AbnormalVideoTime), Byte(m, AbnormalPicsNo), Byte(m, AbnormalPicSlice)]
    && b[41..43] == Reserved(m, 2)
  }

  lemma Fields1(m: Store, f: Field)
    ensures FieldBytes(m, [f]) == [Byte(m, f)] && FieldBytes(m, []) == []
  {
    assert [f][1..] == [];
    ImageStep(Get(m, f), 1);
  }

  lemma Fields2(m: Store, f: Field, g: Field)
    ensures FieldBytes(m, [f, g]) == [Byte(m, f), Byte(m, g)]
  {
    assert [f, g][1..] == [g];
    ImageStep(Get(m, f), 1);
    Fields1(m, g);
  }

  lemma Fields3(m: Store, f: Field, g: Field, h: Field)
    ensures FieldBytes(m, [f, g, h]) == [Byte(m, f), Byte(m, g), Byte(m, h)]
  {
    assert [f, g, h][1..] == [g, h];
    ImageStep(Get(m, f), 1);
    Fields2(m, g, h);
  }

  lemma Fields4(m: Store, f: Field, g: Field, h: Field, k: Field)
    ensures FieldBytes(m, [f, g, h, k]) == [Byte(m, f), Byte(m, g), Byte(m, h), Byte(m, k)]
  {
    assert [f, g, h, k][1..] == [g, h, k];
    ImageStep(Get(m, f), 1);
    Fields3(m, g, h, k);
  }

  lemma Swapped2(m: Store, f: Field)
    ensures BigEndian(Get(m, f), 2) == [High(m, f), Byte(m, f)]
  {
    ImageStep(Get(m, f), 2);
    ImageStep(Get(m, f) / 0x100, 1);
    assert LittleEndian(Get(m, f), 2) == [Byte(m, f), High(m, f)];
    ReversedFour(Byte(m, f), High(m, f), 0, 0);
  }

  // The block of the script w stands at pos in b; so does its first statement, and the rest behind it.
  lemma Peel(m: Store, w: Script<WriteOp>, b: seq<byte>, pos: nat) returns (rest: Script<WriteOp>, next: nat)
    requires w.Then? && pos <= |b| && b[pos..] == WriteScript(m, w)
    ensures rest == w.next && next == pos + |OpBytes(m, w.op)| <= |b|
    ensures b[pos..next] == OpBytes(m, w.op) && b[next..] == WriteScript(m, rest)
  {
    rest, next := w.next, pos + |OpBytes(m, w.op)|;
    assert b[pos..][..next - pos] == b[pos..next] && b[pos..][next - pos..] == b[next..];
  }

  lemma CommonPositions(m: Store, w: Script<WriteOp>)
    ensures var b := WriteScript(m, CommonWrites(w)); CommonAt(m, b) && b[11..] == WriteScript(m, w)
  {
    var b := WriteScript(m, CommonWrites(w));
    assert b[0..] == b;
    Fields2(m, SpeedThreshold, Volumn);
    Fields1(m, ActivePhotoStrategy);
    Swapped2(m, TimedSlice);
    Swapped2(m, DistanceSlice);
    Fields4(m, PictureQuality, PictureSlice, PicResolution, VideoResolution);
    var s, at := Peel(m, CommonWrites(w), b, 0);
    assert at == 2 && b[0] == b[0..2][0] && b[1] == b[0..2][1];
    s, at := Peel(m, s, b, at);
    assert at == 3 && b[2] == b[2..3][0];
    s, at := Peel(m, s, b, at);
    assert at == 5 && b[3] == b[3..5][0] && b[4] == b[3..5][1];
    s, at := Peel(m, s, b, at);
    assert at == 7 && b[5] == b[5..7][0] && b[6] == b[5..7][1];
    s, at := Peel(m, s, b, at);
    assert at == 11 && b[7] == b[7..11][0] && b[8] == b[7..11][1] && b[9] == b[7..11][2] && b[10] == b[7..11][3];
  }

  lemma AdasPositions(m: Store)
    ensures AdasAt(m, WriteScript(m, Writes(0x64)))
  {
    var b := WriteScript(m, Writes(0x64));
    CommonPositions(m, ADAS_WRITES);
    Fields4(m, ObstacleDistance, ObstacleVideoTime, ObstaclePicsNo, ObstaclePicSlice);
    Fields3(m, DepartureTime, DepartureCnt, DepartureVideoTime);
    Fields2(m, DeparturePicsNo, DeparturePicSlice);
    Fields3(m, LdwVideoTime, LdwPicsNo, LdwPicSlice);
    Fields4(m, FcwTime, FcwVideoTime, FcwPicsNo, FcwPicSlice);
    Fields4(m, PcwTime, PcwVideoTime, PcwPicsNo, PcwPicSlice);
    Fields4(m, CarCloseTime, CarCloseVideoTime, CarClosePicsNo, CarClosePicSlice);
    Fields2(m, TsrPicsNo, TsrPicSlice);
    var s, at := Peel(m, ADAS_WRITES, b, 11);
    s, at := Peel(m, s, b, at);
    s, at := Peel(m, s, b, at);
    s, at := Peel(m, s, b, at);
    assert at == 29;
    s, at := Peel(m, s, b, at);
    s, at := Peel(m, s, b, at);
    s, at := Peel(m, s, b, at);
    assert at == 40;
    s, at := Peel(m, s, b, at);
    s, at := Peel(m, s, b, at);
    s, at := Peel(m, s, b, at);
    assert at == 50 && b[50..] == [];
  }

  lemma DsmPositions(m: Store)
    ensures DsmAt(m, WriteScript(m, Writes(0x65)))
  {
    var b := WriteScript(m, Writes(0x65));
    CommonPositions(m, DSM_WRITES);
    Swapped2(m, SmokingTime);
    Swapped2(m, CallTime);
    Fields4(m, DrownVideoTime, DrownPicsNo, DrownPicSlice, ResChar);
    Fields3(m, CallVideoTime, CallPicsNo, CallPicSlice);
    Fields3(m, SmokingVideoTime, SmokingPicsNo, SmokingPicSlice);
    Fields3(m, DistractionVideoTime, DistractionPicsNo, DistractionPicSlice);
    Fields3(m, AbnormalVideoTime, AbnormalPicsNo, AbnormalPicSlice);
    var s, at := Peel(m, DSM_WRITES, b, 11);
    s, at := Peel(m, s, b, at);
    s, at := Peel(m, s, b, at);
    assert at == 25;
    s, at := Peel(m, s, b, at);
    s, at := Peel(m, s, b, at);
    s, at := Peel(m, s, b, at);
    assert at == 35;
    s, at := Peel(m, s, b, at);
    s, at := Peel(m, s, b, at);
    s, at := Peel(m, s, b, at);
    assert at == 43 && b[43..] == [];
  }

  // 0x35: the head, then the block of the kind of sensor; other kinds have none.
  lemma ConfigBytes(s0: byte, s1: byte, m0: byte, m1: byte, terminal: byte, m: Store)
    ensures var body := ConfigBody(Header(s0, s1, m0, m1, terminal), 0x35, m);
            && |body| >= 6 && body[..6] == [s0, s1, m0, m1, terminal, 0x35]
            && (terminal == 0x64 ==> AdasAt(m, body[6..]))
            && (terminal == 0x65 ==> DsmAt(m, body[6..]))
            && (terminal != 0x64 && terminal != 0x65 ==> |body| == 6)
  {
    HeadBytes(s0, s1, m0, m1, terminal, 0x35);
    AdasPositions(m);
    DsmPositions(m);
    var body := ConfigBody(Header(s0, s1, m0, m1, terminal), 0x35, m);
    assert body[6..] == WriteScript(m, Writes(terminal));
  }

  /* ------------------------- packed values and containers ------------------------- */

  // Bit i of the mask byte stands for byte i of the value, counted from the low end.
  lemma {:induction false} MaskBit(b: seq<byte>, i: nat)
    requires i < |b|
    ensures PackedGuid.Mask(b) / PackedGuid.Pow2(i) % 2 == 1 <==> b[i] != 0
  {
    PackedGuid.MaskHalves(b);
    if i > 0 {
      MaskBit(b[1..], i - 1);
      HalveFirst(PackedGuid.Mask(b), PackedGuid.Pow2(i - 1));
    }
  }

  lemma HalveFirst(m: nat, p: nat)
    requires p > 0
    ensures m / (2 * p) == m / 2 / p
  {
    var q, r := m / 2 / p, m / 2 % p;
    assert m == 2 * (q * p + r) + m % 2 == q * (2 * p) + (2 * r + m % 2);
    assert 0 <= 2 * r + m % 2 < 2 * p;
    QuotientIs(m, 2 * p, q, 2 * r + m % 2);
  }

  lemma QuotientIs(m: nat, d: nat, q: nat, r: nat)
    requires m == q * d + r && r < d
    ensures m / d == q
  {
    var q1 := m / d;
    assert m == q1 * d + m % d;
    if q1 < q { MoreTimes(q1 + 1, q, d); }
    if q < q1 { MoreTimes(q + 1, q1, d); }
  }

  lemma MoreTimes(a: nat, b: nat, d: nat)
    requires a <= b
    ensures a * d <= b * d
  {
  }

  lemma {:induction false} ImageAt(v: nat, n: nat, i: nat)
    requires i < n
    ensures LittleEndian(v, n)[i] == v / Pow256(i) % 0x100
  {
    if i > 0 {
      ImageAt(v / 0x100, n - 1, i - 1);
      DivideTwice(v, Pow256(i - 1));
    }
  }

  lemma DivideTwice(v: nat, p: nat)
    requires p > 0
    ensures v / (0x100 * p) == v / 0x100 / p
  {
    var q, r := v / 0x100 / p, v / 0x100 % p;
    assert v == 0x100 * (q * p + r) + v % 0x100 == q * (0x100 * p) + (0x100 * r + v % 0x100);
    assert 0 <= 0x100 * r + v % 0x100 < 0x100 * p;
    QuotientIs(v, 0x100 * p, q, 0x100 * r + v % 0x100);
  }

  // The mask byte first, then the non-zero bytes from the low end up.
  lemma PackedLayout(g: uint64, i: nat)
    requires i < 8
    ensures var s := PackedGuid.Pack(g);
            && s != [] && (s[0] / PackedGuid.Pow2(i) % 2 == 1 <==> g / Pow256(i) % 0x100 != 0)
            && s[1..] == PackedGuid.Payload(LittleEndian(g, 8))
    ensures var b := LittleEndian(g, 8);
            PackedGuid.Payload(b[..i + 1]) == PackedGuid.Payload(b[..i]) + if b[i] != 0 then [b[i]] else []
  {
    var b := LittleEndian(g, 8);
    MaskBit(b, i);
    ImageAt(g, 8, i);
    assert b[..i + 1] == b[..i] + [b[i]];
    PackedGuid.PayloadSnoc(b[..i], b[i]);
  }

  // The size in four bytes from the low end up, then the elements, each behind the one before it.
  lemma VectorLayout<T>(c: Codec<T>, v: seq<T>, x: T, n0: byte, n1: byte, n2: byte, n3: byte)
    requires |v| == n0 + 0x100 * n1 + 0x1_0000 * n2 + 0x100_0000 * n3
    ensures WriteVectorBytes(c, v) == [n0, n1, n2, n3] + WriteAll(c, v)
    ensures WriteAll(c, []) == [] && WriteAll(c, v + [x]) == WriteAll(c, v) + c.write(x)
  {
    SizeBytes(|v|, n0, n1, n2, n3);
    WriteAllSnoc(c, v, x);
  }

  lemma SizeBytes(n: nat, n0: byte, n1: byte, n2: byte, n3: byte)
    requires n == n0 + 0x100 * n1 + 0x1_0000 * n2 + 0x100_0000 * n3
    ensures LittleEndian(n % SIZE_LIMIT, 4) == [n0, n1, n2, n3]
  {
    LittleImage(n0, n1, n2, n3);
    assert n < SIZE_LIMIT;
  }

  lemma {:induction false} WriteAllSnoc<T>(c: Codec<T>, v: seq<T>, x: T)
    ensures WriteAll(c, v + [x]) == WriteAll(c, v) + c.write(x)
  {
    if v == [] {
      assert [] + [x] == [x] && [x][1..] == [];
    } else {
      WriteAllSnoc(c, v[1..], x);
      ConsConcat(v, [x]);
      Associative(c.write(v[0]), WriteAll(c, v[1..]), c.write(x));
    }
  }
}
