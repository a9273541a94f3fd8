/** The messages of the protocol as byte layouts: what the handlers read and what the senders build. */
module Messages {
  import opened Bytes
  import opened Sequences
  import opened Wrappers
  import opened Framing
  import Config

  const HEADER: nat := 8         // sync, checksum, sequence 2, manufacturer 2, terminal, opcode
  const ALARM_ENTRIES: nat := 39 // media count at 38, entries from here on
  const DATA_PAYLOAD: nat := 17

  const OP_REALTIME: byte := 0x31
  const OP_CONFIG_REPLY: byte := 0x34
  const OP_CONFIG_SET: byte := 0x35
  const OP_ALARM: byte := 0x36
  const OP_STATUS: byte := 0x38
  const OP_MEDIA_REQUEST: byte := 0x50
  const OP_MEDIA_DATA: byte := 0x51

  datatype Descriptor = Descriptor(mediaType: byte, mediaId: uint32)

  datatype DataPacket = DataPacket(mediaType: byte, mediaId: uint32, total: uint16, current: uint16, payload: seq<byte>)

  datatype Message =
    | ConfigReply(decoded: seq<byte>)
    | Alarm(media: seq<Descriptor>)
    | StatusReport
    | MediaData(packet: DataPacket)
    | Ignored

  datatype Incoming = Incoming(terminal: byte, message: Message)

  /* ------------------------- reading ------------------------- */

  function Be16(s: seq<byte>): uint16
    requires |s| == 2
  {
    BigEndianOfFrom(s);
    Widths();
    FromBigEndian(s)
  }

  function Be32(s: seq<byte>): uint32
    requires |s| == 4
  {
    BigEndianOfFrom(s);
    Widths();
    FromBigEndian(s)
  }

  function DescriptorAt(d: seq<byte>, pos: nat): Descriptor
    requires pos + 5 <= |d|
  {
    Descriptor(d[pos], Be32(d[pos + 1..pos + 5]))
  }

  // The media list of an alarm report, for either kind of sensor.
  function ParseAlarm(d: seq<byte>): (r: Option<seq<Descriptor>>) {
    if |d| < ALARM_ENTRIES then None
    else
      var count: nat := d[38];
      if |d| < ALARM_ENTRIES + 5 * count then None
      else Some(seq(count, i requires 0 <= i < count => DescriptorAt(d, ALARM_ENTRIES + 5 * i)))
  }

  // Too short for the fixed fields, or nothing left once header and closing delimiter are dropped.
  function ParseData(d: seq<byte>): (r: Option<DataPacket>) {
    if |d| <= DATA_PAYLOAD + 1 then None
    else Some(DataPacket(d[8], Be32(d[9..13]), Be16(d[13..15]), Be16(d[15..17]), d[DATA_PAYLOAD..|d| - 1]))
  }

  function ParseDecoded(d: seq<byte>): (r: Option<Incoming>) {
    if |d| < HEADER then None
    else
      var terminal, opcode := d[6], d[7];
      var known := terminal == Config.ADASID || terminal == Config.DMSID;
      if opcode == OP_CONFIG_REPLY then Some(Incoming(terminal, ConfigReply(d)))
      else if opcode == OP_ALARM && known then
        match ParseAlarm(d)
        case None => None
        case Some(media) => Some(Incoming(terminal, Alarm(media)))
      else if opcode == OP_STATUS then
        if |d| < HEADER + 5 then None else Some(Incoming(terminal, StatusReport))
      else if opcode == OP_MEDIA_DATA then
        match ParseData(d)
        case None => None
        case Some(p) => Some(Incoming(terminal, MediaData(p)))
      else Some(Incoming(terminal, Ignored))
  }

  // None: the handler throws, or runs into undefined behaviour, and the process ends.
  function ParseChunk(chunk: seq<byte>): (r: Option<Incoming>) {
    match Unstuff(chunk)
    case None => None
    case Some(d) => ParseDecoded(d)
  }

  /* ------------------------- writing ------------------------- */

  // The globals that head every message.
  datatype Sender = Sender(sequence: uint16, manufacturer: uint16, terminal: byte)

  function Head(h: Sender, opcode: byte): (r: seq<byte>)
    ensures |r| == 6
  {
    LittleEndian(h.sequence, 2) + LittleEndian(h.manufacturer, 2) + [h.terminal, opcode]
  }

  function RequestBody(h: Sender, d: Descriptor): seq<byte> {
    Head(h, OP_MEDIA_REQUEST) + [d.mediaType] + BigEndian(d.mediaId, 4)
  }

  function PacketFields(mediaType: byte, mediaId: uint32, total: uint16, current: uint16): (r: seq<byte>)
    ensures |r| == 9
  {
    [mediaType] + BigEndian(mediaId, 4) + BigEndian(total, 2) + BigEndian(current, 2)
  }

  function AckBody(h: Sender, p: DataPacket): seq<byte> {
    Head(h, OP_MEDIA_DATA) + PacketFields(p.mediaType, p.mediaId, p.total, p.current) + [0]
  }

  function ConfigBody(h: Sender, opcode: byte, m: Config.Store): seq<byte> {
    Head(h, opcode) + Config.WriteScript(m, Config.Writes(h.terminal))
  }

  // The six bytes of the current time.
  type Time = t: seq<byte> | |t| == 6 witness [0, 0, 0, 0, 0, 0]

  // The heartbeat: speed, a reserved byte, mileage, two reserved bytes, height, latitude, longitude,
  // time and vehicle state, all but the time fixed.
  function RealtimeBody(h: Sender, time: Time): seq<byte> {
    Head(h, OP_REALTIME) + [0x40, 0x00] + BigEndian(0x12345678, 4) + [0x00, 0x00] + BigEndian(0x100, 2)
    + BigEndian(0x23232323, 4) + BigEndian(0x56125612, 4) + time + BigEndian(0x10, 2)
  }

  // The heartbeat swaps the serial number in place.
  function SwapSequence(h: Sender): Sender {
    SwapEndianBytes(h.sequence, 2);
    Widths();
    h.(sequence := SwapEndian(h.sequence, 2))
  }

  // What the sensor sends; the checksum byte is arbitrary.
  function DataBody(h: Sender, p: DataPacket): seq<byte> {
    Head(h, OP_MEDIA_DATA) + PacketFields(p.mediaType, p.mediaId, p.total, p.current) + p.payload
  }

  function EntryBytes(d: Descriptor): (r: seq<byte>)
    ensures |r| == 5
  {
    [d.mediaType] + BigEndian(d.mediaId, 4)
  }

  function EntriesBytes(media: seq<Descriptor>): (r: seq<byte>)
    ensures |r| == 5 * |media|
  {
    if media == [] then [] else EntryBytes(media[0]) + EntriesBytes(media[1..])
  }

  // fixed are the 30 bytes between the header and the media count.
  function AlarmBody(h: Sender, fixed: seq<byte>, media: seq<Descriptor>): seq<byte>
    requires |fixed| == 30 && |media| < 0x100
  {
    Head(h, OP_ALARM) + fixed + [|media|] + EntriesBytes(media)
  }

  /* ------------------------- reading undoes writing ------------------------- */

  lemma HeadAt(c: byte, h: Sender, opcode: byte, rest: seq<byte>)
    ensures var d := Decoded(c, Head(h, opcode) + rest);
            && |d| == 9 + |rest| && d[6] == h.terminal && d[7] == opcode
            && d[8..|d| - 1] == rest && d[|d| - 1] == SIGN
  {
  }

  lemma FieldsAt(mediaType: byte, mediaId: uint32, total: uint16, current: uint16)
    ensures var f := PacketFields(mediaType, mediaId, total, current);
            && f[0] == mediaType && f[1..5] == BigEndian(mediaId, 4)
            && f[5..7] == BigEndian(total, 2) && f[7..9] == BigEndian(current, 2)
  {
  }

  lemma Be16Of(v: uint16)
    ensures Be16(BigEndian(v, 2)) == v
  {
    Widths();
    FromOfBigEndian(v, 2);
  }

  lemma Be32Of(v: uint32)
    ensures Be32(BigEndian(v, 4)) == v
  {
    Widths();
    FromOfBigEndian(v, 4);
  }

  // A data frame with a non-empty payload is parsed back to the packet that was sent.
  lemma DataFrameParses(c: byte, h: Sender, p: DataPacket)
    requires p.payload != []
    ensures ParseChunk(Frame(c, DataBody(h, p))) == Some(Incoming(h.terminal, MediaData(p)))
  {
    var f := PacketFields(p.mediaType, p.mediaId, p.total, p.current);
    var d := Decoded(c, DataBody(h, p));
    UnstuffFrame(c, DataBody(h, p));
    Associative(Head(h, OP_MEDIA_DATA), f, p.payload);
    HeadAt(c, h, OP_MEDIA_DATA, f + p.payload);
    var body := d[8..|d| - 1];
    assert body == f + p.payload;
    assert d[8] == body[0] && d[9..13] == body[1..5] && d[13..15] == body[5..7] && d[15..17] == body[7..9];
    assert body[1..5] == f[1..5] && body[5..7] == f[5..7] && body[7..9] == f[7..9];
    assert d[DATA_PAYLOAD..|d| - 1] == body[9..] == p.payload;
    FieldsAt(p.mediaType, p.mediaId, p.total, p.current);
    Be32Of(p.mediaId);
    Be16Of(p.total);
    Be16Of(p.current);
  }

  // Two data frames handed over together are taken for one packet: the delimiters, the checksum and
  // the body of the second frame become part of the payload of the first.
  lemma TwoFramesParseAsOne(c: byte, h: Sender, p: DataPacket, c2: byte, body2: seq<byte>)
    requires p.payload != []
    ensures ParseChunk(Frame(c, DataBody(h, p)) + Frame(c2, body2)) ==
            Some(Incoming(h.terminal, MediaData(p.(payload := p.payload + [SIGN, SIGN, c2] + body2))))
  {
    var q := p.(payload := p.payload + [SIGN, SIGN, c2] + body2);
    SamePayload(h, p, [SIGN, SIGN, c2] + body2);
    assert p.payload + ([SIGN, SIGN, c2] + body2) == q.payload;
    TwoFramesUnstuff(c, DataBody(h, p), c2, body2);
    DataFrameParses(c, h, q);
  }

  // A frame behind a frame is decoded like a longer frame.
  lemma TwoFramesUnstuff(c: byte, body: seq<byte>, c2: byte, body2: seq<byte>)
    ensures Unstuff(Frame(c, body) + Frame(c2, body2)) == Unstuff(Frame(c, body + ([SIGN, SIGN, c2] + body2)))
  {
    UnstuffFrameThen(c, body, Frame(c2, body2));
    UnstuffFrame(c2, body2);
    UnstuffFrame(c, body + ([SIGN, SIGN, c2] + body2));
    assert Decoded(c, body) + Decoded(c2, body2) == Decoded(c, body + ([SIGN, SIGN, c2] + body2));
  }

  lemma SamePayload(h: Sender, p: DataPacket, more: seq<byte>)
    ensures DataBody(h, p) + more == DataBody(h, p.(payload := p.payload + more))
  {
    Associative(Head(h, OP_MEDIA_DATA) + PacketFields(p.mediaType, p.mediaId, p.total, p.current), p.payload, more);
  }

  // An alarm frame of either sensor is parsed back to the media list that was sent, whatever the
  // fixed fields hold.
  lemma AlarmFrameParses(c: byte, h: Sender, fixed: seq<byte>, media: seq<Descriptor>)
    requires |fixed| == 30 && |media| < 0x100
    requires h.terminal == Config.ADASID || h.terminal == Config.DMSID
    ensures ParseChunk(Frame(c, AlarmBody(h, fixed, media))) == Some(Incoming(h.terminal, Alarm(media)))
  {
    var n: byte := |media|;
    var rest := fixed + [n] + EntriesBytes(media);
    var d := Decoded(c, AlarmBody(h, fixed, media));
    UnstuffFrame(c, AlarmBody(h, fixed, media));
    assert AlarmBody(h, fixed, media) == Head(h, OP_ALARM) + rest;
    HeadAt(c, h, OP_ALARM, rest);
    EntriesPlaced(d, fixed, media);
  }

  lemma MiddleAndEnd(a: seq<byte>, b: byte, c: seq<byte>)
    ensures var s := a + [b] + c;
            |s| == |a| + 1 + |c| && s[|a|] == b && s[|a| + 1..|a| + 1 + |c|] == c
  {
  }

  lemma EntriesPlaced(d: seq<byte>, fixed: seq<byte>, media: seq<Descriptor>)
    requires |fixed| == 30 && |media| < 0x100 && |d| > HEADER
    requires d[8..|d| - 1] == fixed + [|media|] + EntriesBytes(media)
    ensures |d| == 40 + 5 * |media| && ParseAlarm(d) == Some(media)
  {
    BytesPlaced(d, fixed, |media|, EntriesBytes(media));
    EntriesParse(d, media);
  }

  lemma BytesPlaced(d: seq<byte>, fixed: seq<byte>, n: byte, entries: seq<byte>)
    requires |fixed| == 30 && |d| > HEADER && d[8..|d| - 1] == fixed + [n] + entries
    ensures |d| == 40 + |entries| && d[38] == n && d[39..39 + |entries|] == entries
  {
    MiddleAndEnd(fixed, n, entries);
    SliceOfSlice(d, 8, |d| - 1, 31, 31 + |entries|);
    assert d[38] == d[8..|d| - 1][30];
  }

  lemma EntriesParse(d: seq<byte>, media: seq<Descriptor>)
    requires |d| >= 39 + 5 * |media| && d[38] == |media|
    requires d[39..39 + 5 * |media|] == EntriesBytes(media)
    ensures ParseAlarm(d) == Some(media)
  {
    var parsed := ParseAlarm(d).value;
    assert |parsed| == |media|;
    forall i | 0 <= i < |parsed| ensures parsed[i] == media[i] {
      EntryParsed(d, media, i);
    }
    assert parsed == media;
  }

  lemma EntryParsed(d: seq<byte>, media: seq<Descriptor>, i: nat)
    requires |d| >= 39 + 5 * |media| && d[38] == |media| && i < |media|
    requires d[39..39 + 5 * |media|] == EntriesBytes(media)
    ensures ParseAlarm(d).value[i] == media[i]
  {
    EntryAt(media, i);
    EntryInPlace(d, EntriesBytes(media), 5 * i, media[i]);
    ParsedAt(d, i);
  }

  lemma ParsedAt(d: seq<byte>, i: nat)
    requires ParseAlarm(d).Some? && i < d[38]
    ensures ParseAlarm(d).value[i] == DescriptorAt(d, ALARM_ENTRIES + 5 * i)
  {
  }

  lemma EntryInPlace(d: seq<byte>, entries: seq<byte>, lo: nat, m: Descriptor)
    requires lo + 5 <= |entries| && 39 + |entries| <= |d|
    requires d[39..39 + |entries|] == entries && entries[lo..lo + 5] == EntryBytes(m)
    ensures DescriptorAt(d, 39 + lo) == m
  {
    SliceOfSlice(d, 39, 39 + |entries|, lo, lo + 5);
    EntryParse(d, 39 + lo, m);
  }

  lemma EntryParse(d: seq<byte>, pos: nat, m: Descriptor)
    requires pos + 5 <= |d| && d[pos..pos + 5] == EntryBytes(m)
    ensures DescriptorAt(d, pos) == m
  {
    var e := EntryBytes(m);
    assert d[pos] == d[pos..pos + 5][0] == e[0];
    SliceOfSlice(d, pos, pos + 5, 1, 5);
    assert e[1..5] == BigEndian(m.mediaId, 4);
    Be32Of(m.mediaId);
  }

  lemma {:induction false} EntryAt(media: seq<Descriptor>, i: nat)
    requires i < |media|
    ensures EntriesBytes(media)[5 * i..5 * i + 5] == EntryBytes(media[i])
  {
    if i > 0 {
      EntryAt(media[1..], i - 1);
      var tail := EntriesBytes(media[1..]);
      assert EntriesBytes(media)[5..] == tail;
      assert EntriesBytes(media)[5 * i..5 * i + 5] == tail[5 * (i - 1)..5 * (i - 1) + 5];
    }
  }

  // A request frame tells its receiver exactly which media item is wanted.
  lemma RequestNames(h: Sender, m: Descriptor)
    ensures var r := Unstuff(Encode(RequestBody(h, m)));
            && r.Some? && |r.value| == 14 && r.value[7] == OP_MEDIA_REQUEST
            && DescriptorAt(r.value, 8) == m
  {
    var body := RequestBody(h, m);
    UnstuffFrame(Checksum(body), body);
    var rest := [m.mediaType] + BigEndian(m.mediaId, 4);
    Associative(Head(h, OP_MEDIA_REQUEST), [m.mediaType], BigEndian(m.mediaId, 4));
    assert body == Head(h, OP_MEDIA_REQUEST) + rest;
    HeadAt(Checksum(body), h, OP_MEDIA_REQUEST, rest);
    var d := Decoded(Checksum(body), body);
    var inner := d[8..|d| - 1];
    assert d[8] == inner[0] && d[9..13] == inner[1..5] == BigEndian(m.mediaId, 4);
    Be32Of(m.mediaId);
  }

  // The acknowledgement of a data packet repeats its type, ID, total and number byte for byte and
  // ends in a zero status.
  lemma AckEchoes(h: Sender, d: seq<byte>)
    requires ParseData(d).Some?
    ensures var r := Unstuff(Encode(AckBody(h, ParseData(d).value)));
            && r.Some? && |r.value| == 19
            && r.value[6] == h.terminal && r.value[7] == OP_MEDIA_DATA
            && r.value[8..17] == d[8..17] && r.value[17] == 0 && r.value[18] == SIGN
  {
    var p := ParseData(d).value;
    var f := PacketFields(p.mediaType, p.mediaId, p.total, p.current);
    BigEndianOfFrom(d[9..13]);
    BigEndianOfFrom(d[13..15]);
    BigEndianOfFrom(d[15..17]);
    assert f == [d[8]] + d[9..13] + d[13..15] + d[15..17] == d[8..17];
    var body := AckBody(h, p);
    UnstuffFrame(Checksum(body), body);
    Associative(Head(h, OP_MEDIA_DATA), f, [0]);
    HeadAt(Checksum(body), h, OP_MEDIA_DATA, f + [0]);
    var e := Decoded(Checksum(body), body);
    assert e[8..|e| - 1] == f + [0];
    assert e[8..17] == e[8..|e| - 1][..9] && e[17] == e[8..|e| - 1][9];
  }

  // A configuration sent by the 0x35 writer, framed, decoded and read from the end of its header by
  // the reader of the same sensor kind restores every field and stops on the closing delimiter.
  lemma ConfigThroughFrame(c: byte, h: Sender, opcode: byte, source: Config.Store, m: Config.Store)
    requires Config.InRange(source)
    ensures var d := Unstuff(Frame(c, ConfigBody(h, opcode, source)));
            && d.Some? && |d.value| >= HEADER && d.value[6] == h.terminal && d.value[7] == opcode
            && var r := Config.ReadScript(m, Config.Reads(h.terminal), d.value, HEADER);
            && r.Some? && r.value.1 == |d.value| - 1 && d.value[r.value.1] == SIGN
            && Config.Restored(m, r.value.0, source, Config.Fields(Config.Writes(h.terminal)))
  {
    var block := Config.WriteScript(source, Config.Writes(h.terminal));
    UnstuffFrame(c, ConfigBody(h, opcode, source));
    HeadAt(c, h, opcode, block);
    var d := Decoded(c, ConfigBody(h, opcode, source));
    assert d[8..8 + |block|] == block;
    Config.ScriptsMirror(h.terminal);
    Config.MirrorsRoundTrip(m, source, Config.Writes(h.terminal), Config.Reads(h.terminal), d, HEADER);
  }

  // Every body the senders build is within the bound of the checksum loop.
  lemma BodiesFitChecksum(h: Sender, m: Descriptor, p: DataPacket, opcode: byte, s: Config.Store, time: Time)
    ensures |RequestBody(h, m)| == 11 && |AckBody(h, p)| == 16 && |RealtimeBody(h, time)| == 32
    ensures |Head(h, opcode)| == 6
    ensures |ConfigBody(h, opcode, s)| == 6 + if h.terminal == Config.ADASID then 50
                                              else if h.terminal == Config.DMSID then 43 else 0
    ensures LoopExits(|ConfigBody(h, opcode, s)|) && LoopExits(|RealtimeBody(h, time)|)
    ensures LoopExits(|RequestBody(h, m)|) && LoopExits(|AckBody(h, p)|) && LoopExits(|Head(h, opcode)|)
  {
    Config.WrittenBlockWidth(s, h.terminal);
    Config.BlockWidth(h.terminal);
    ChecksumLoopExitsIff(|ConfigBody(h, opcode, s)|);
    ChecksumLoopExitsIff(32);
    ChecksumLoopExitsIff(16);
    ChecksumLoopExitsIff(11);
    ChecksumLoopExitsIff(6);
  }
}
