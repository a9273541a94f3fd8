/** The configuration and the sender data of a connection over runs. */
module Settings {
  import opened Bytes
  import opened Sequences
  import opened Wrappers
  import opened Framing
  import opened Messages
  import opened Transfer
  import opened Session
  import opened Config
  import Layout

  /* ------------------------- the sender data ------------------------- */

  // A chunk handled sets the terminal code to its byte 6; a data packet (0x51) moreover counts the serial
  // number up for its acknowledgement. Nothing else changes.
  lemma SenderAfterChunk(s: State, chunk: seq<byte>)
    requires Step(s, Chunk(chunk)).Some?
    ensures var t := Step(s, Chunk(chunk)).value.sender;
            var d := Unstuff(chunk);
            && d.Some? && |d.value| >= 8
            && t.terminal == d.value[6] && t.manufacturer == s.sender.manufacturer
            && t.sequence == NextSerial(s.sender.sequence, d.value[7])
  {
    var incoming := ParseChunk(chunk).value;
    var named := s.(sender := s.sender.(terminal := incoming.terminal));
    assert Step(s, Chunk(chunk)) == Session.OnMessage(named, incoming.message);
    Layout.MessageOpcode(Unstuff(chunk).value);
    MessageSender(named, incoming.message);
    SerialUp(s.sender.sequence);
  }

  lemma SerialUp(serial: uint16)
    ensures (serial + 1) % 0x1_0000 == if serial == 0xFFFF then 0 else serial + 1
  {
  }

  function NextSerial(serial: uint16, opcode: byte): uint16 {
    if opcode != 0x51 then serial else if serial == 0xFFFF then 0 else serial + 1
  }

  // A heartbeat exchanges the bytes of the serial number; the clock changes nothing else.
  lemma SenderAfterTick(s: State, tick: Tick, s0: byte, s1: byte)
    requires s.sender.sequence == s0 + 0x100 * s1
    ensures var t := OnTick(s, tick).sender;
            && t.terminal == s.sender.terminal && t.manufacturer == s.sender.manufacturer
            && t.sequence == if tick.Heartbeat? then s1 + 0x100 * s0 else s.sender.sequence
  {
    TickSender(s, tick);
    SwappedNumber(s0, s1);
  }

  lemma SwappedNumber(s0: byte, s1: byte)
    ensures SwapEndian(s0 + 0x100 * s1, 2) == s1 + 0x100 * s0
  {
    LittleImage(s0, s1, 0, 0);
    ReversedFour(s0, s1, s0, s1);
    ImageValues(s1, s0, 0, 0);
  }

  lemma MessageSender(s: State, m: Message)
    requires Session.OnMessage(s, m).Some?
    ensures Session.OnMessage(s, m).value.sender ==
            if m.MediaData? then s.sender.(sequence := (s.sender.sequence + 1) % 0x1_0000) else s.sender
  {
  }

  lemma TickSender(s: State, tick: Tick)
    ensures OnTick(s, tick).sender == if tick.Heartbeat? then SwapSequence(s.sender) else s.sender
  {
  }

  // Whatever a step passes on starts with the sender data as they are after the step.
  ghost predicate HeadedBy(body: seq<byte>, h: Sender) {
    |body| >= 6 && body[..6] == Head(h, body[5])
  }

  lemma HeadedAs(h: Sender, opcode: byte, rest: seq<byte>)
    ensures HeadedBy(Head(h, opcode) + rest, h)
  {
    assert (Head(h, opcode) + rest)[..6] == Head(h, opcode);
    assert Head(h, opcode)[5] == opcode;
  }

  lemma MessageHeads(s: State, m: Message)
    requires Session.OnMessage(s, m).Some?
    ensures var t := Session.OnMessage(s, m).value;
            t.sent == s.sent || (exists body :: t.sent == s.sent + [body] && HeadedBy(body, t.sender))
  {
    var t := Session.OnMessage(s, m).value;
    match m
    case MediaData(p) =>
      var h := Acknowledge(Release(s), p).sender;
      var f := PacketFields(p.mediaType, p.mediaId, p.total, p.current);
      Associative(Head(h, OP_MEDIA_DATA), f, [0]);
      HeadedAs(h, OP_MEDIA_DATA, f + [0]);
      assert t.sent == s.sent + [AckBody(h, p)] && t.sender == h;
    case StatusReport =>
      HeadedAs(s.sender, OP_CONFIG_SET, WriteScript(s.config, Writes(s.sender.terminal)));
      if t.sent != s.sent { assert t.sent == s.sent + [ConfigBody(s.sender, OP_CONFIG_SET, s.config)]; }
    case _ =>
  }

  lemma TickHeads(s: State, tick: Tick)
    ensures var t := OnTick(s, tick);
            t.sent == s.sent || (exists body :: t.sent == s.sent + [body] && HeadedBy(body, t.sender))
  {
    var t := OnTick(s, tick);
    match tick
    case Expire =>
    case TimerRun =>
      RequestHeaded(s.sender, s.queue.current);
      if s.due > 0 { assert t.sent == s.sent + [RequestBody(s.sender, s.queue.current)]; }
    case Heartbeat(time) =>
      var h := SwapSequence(s.sender);
      HeartbeatHeaded(h, time);
      assert t.sent == s.sent + [RealtimeBody(h, time)];
  }

  lemma RequestHeaded(h: Sender, m: Descriptor)
    ensures HeadedBy(RequestBody(h, m), h)
  {
    Associative(Head(h, OP_MEDIA_REQUEST), [m.mediaType], BigEndian(m.mediaId, 4));
    HeadedAs(h, OP_MEDIA_REQUEST, [m.mediaType] + BigEndian(m.mediaId, 4));
  }

  lemma HeartbeatHeaded(h: Sender, time: Time)
    ensures HeadedBy(RealtimeBody(h, time), h)
  {
    var body := RealtimeBody(h, time);
    assert body[..6] == Head(h, OP_REALTIME) && Head(h, OP_REALTIME)[5] == OP_REALTIME == body[5];
  }

  lemma StepHeads(s: State, e: Event)
    requires Step(s, e).Some?
    ensures var t := Step(s, e).value;
            t.sent == s.sent || (exists body :: t.sent == s.sent + [body] && HeadedBy(body, t.sender))
  {
    match e
    case Chunk(bytes) =>
      var incoming := ParseChunk(bytes).value;
      MessageHeads(s.(sender := s.sender.(terminal := incoming.terminal)), incoming.message);
    case Clock(tick) => TickHeads(s, tick);
  }

  /* ------------------------- the configuration held ------------------------- */

  lemma {:induction false} SetFieldsInRange(m: Store, fs: seq<Field>, bytes: seq<byte>)
    requires InRange(m) && AllBytes(fs) && |bytes| == |fs|
    ensures InRange(SetFields(m, fs, bytes))
    decreases |fs|
  {
    if fs != [] {
      var v := FromLittleEndian(bytes[..1]);
      FromLittleEndianBound(bytes[..1]);
      PutInRange(m, fs[0], v);
      SetFieldsInRange(Put(m, fs[0], v), fs[1..], bytes[1..]);
    }
  }

  lemma ApplyInRange(m: Store, op: ReadOp, bytes: seq<byte>)
    requires InRange(m) && TypedOp(op) && |bytes| == OpWidth(op)
    ensures InRange(ApplyOp(m, op, bytes))
  {
    match op
    case GetBytes(fs) => SetFieldsInRange(m, fs, bytes);
    case GetHost16(f) =>
      FromLittleEndianBound(bytes);
      PutInRange(m, f, FromLittleEndian(bytes));
    case Swap16(f) =>
      SwapEndianBytes(Get(m, f), 2);
      PutInRange(m, f, SwapEndian(Get(m, f), 2));
    case SkipBytes(_) =>
  }

  lemma {:induction false} ReadScriptInRange(m: Store, r: Script<ReadOp>, s: seq<byte>, pos: nat)
    requires InRange(m) && Typed(r) && ReadScript(m, r, s, pos).Some?
    ensures InRange(ReadScript(m, r, s, pos).value.0)
    decreases r
  {
    if r.Then? {
      var end := pos + OpWidth(r.op);
      ApplyInRange(m, r.op, s[pos..end]);
      ReadScriptInRange(ApplyOp(m, r.op, s[pos..end]), r.next, s, end);
    }
  }

  // Every field stays within its width.
  lemma StepInRange(s: State, e: Event)
    requires InRange(s.config) && Step(s, e).Some?
    ensures InRange(Step(s, e).value.config)
  {
    if e.Chunk? {
      var incoming := ParseChunk(e.bytes).value;
      if incoming.message.ConfigReply? {
        ScriptsMirror(incoming.terminal);
        MirrorsTyped(Writes(incoming.terminal), Reads(incoming.terminal));
        ReadScriptInRange(s.config, Reads(incoming.terminal), incoming.message.decoded, HEADER);
      }
    }
  }

  // Only a configuration reply (0x34) changes the configuration held.
  lemma ConfigKept(s: State, e: Event)
    requires Step(s, e).Some?
    requires e.Chunk? && Unstuff(e.bytes).Some? && |Unstuff(e.bytes).value| >= 8 ==> Unstuff(e.bytes).value[7] != 0x34
    ensures Step(s, e).value.config == s.config
  {
    match e
    case Chunk(bytes) =>
      var incoming := ParseChunk(bytes).value;
      Layout.MessageOpcode(Unstuff(bytes).value);
      MessageKeepsConfig(s.(sender := s.sender.(terminal := incoming.terminal)), incoming.message);
    case Clock(_) =>
  }

  lemma MessageKeepsConfig(s: State, m: Message)
    requires Session.OnMessage(s, m).Some? && !m.ConfigReply?
    ensures Session.OnMessage(s, m).value.config == s.config
  {
  }

  // A reply that carries a configuration as the sensor of that kind would be sent it is taken over, field
  // by field; other fields are left alone.
  lemma ConfigTakenOver(s: State, c: byte, h: Sender, source: Store)
    requires InRange(source)
    ensures var r := Step(s, Chunk(Frame(c, ConfigBody(h, 0x34, source))));
            r.Some? && Restored(s.config, r.value.config, source, Fields(Writes(h.terminal)))
  {
    var frame := Frame(c, ConfigBody(h, 0x34, source));
    ConfigThroughFrame(c, h, 0x34, source, s.config);
    Layout.Dispatch(Unstuff(frame).value);
    OnChunkDecodes(s, frame);
    var named := s.(sender := s.sender.(terminal := h.terminal));
    ConfigReplyDecoded(named, Unstuff(frame).value);
  }

  /* ------------------------- configurations on the wire ------------------------- */

  // A status report that has to be answered: the kind of sensor, and the configuration held.
  datatype Due = Due(terminal: byte, config: Store)

  function DueFor(s: State, e: Event): seq<Due> {
    match e
    case Clock(_) => []
    case Chunk(bytes) =>
      match ParseChunk(bytes)
      case None => []
      case Some(incoming) =>
        if incoming.message.StatusReport? && (incoming.terminal == 0x64 || incoming.terminal == 0x65)
        then [Due(incoming.terminal, s.config)] else []
  }

  // One per status report of a known sensor, in order.
  function DueIn(s: State, es: seq<Event>): seq<Due>
    decreases |es|
  {
    if es == [] then []
    else DueFor(s, es[0]) +
         match Step(s, es[0])
         case None => []
         case Some(next) => DueIn(next, es[1..])
  }

  // What the receiver of these frames reads as configurations (0x35), decoded.
  function WireConfigs(frames: seq<seq<byte>>): seq<seq<byte>> {
    if frames == [] then [] else ConfigIn(frames[0]) + WireConfigs(frames[1..])
  }

  function ConfigIn(frame: seq<byte>): seq<seq<byte>> {
    match Unstuff(frame)
    case None => []
    case Some(d) => if |d| >= 8 && d[7] == 0x35 then [d] else []
  }

  // Read by the sensor's own reader over any configuration m, d restores every field sent to that kind of
  // sensor, and the cursor ends on the closing delimiter.
  ghost predicate ReadsAs(d: seq<byte>, due: Due, m: Store) {
    var r := ReadScript(m, Reads(due.terminal), d, 8);
    && |d| >= 8 && d[6] == due.terminal && d[7] == 0x35
    && r.Some? && r.value.1 == |d| - 1
    && Restored(m, r.value.0, due.config, Fields(Writes(due.terminal)))
  }

  ghost predicate Answers(d: seq<byte>, due: Due) {
    forall m :: ReadsAs(d, due, m)
  }

  ghost predicate AllAnswered(ds: seq<seq<byte>>, dues: seq<Due>) {
    |ds| == |dues| && forall i :: 0 <= i < |ds| ==> Answers(ds[i], dues[i])
  }

  lemma {:induction false} WireConfigsConcat(a: seq<seq<byte>>, b: seq<seq<byte>>)
    ensures WireConfigs(a + b) == WireConfigs(a) + WireConfigs(b)
  {
    if a == [] {
      assert a + b == b;
    } else {
      WireConfigsConcat(a[1..], b);
      ConsConcat(a, b);
      Associative(ConfigIn(a[0]), WireConfigs(a[1..]), WireConfigs(b));
    }
  }

  lemma NotAConfig(h: Sender, opcode: byte, rest: seq<byte>)
    requires opcode != 0x35
    ensures ConfigIn(Encode(Head(h, opcode) + rest)) == []
  {
    var body := Head(h, opcode) + rest;
    UnstuffFrame(Checksum(body), body);
    HeadAt(Checksum(body), h, opcode, rest);
  }

  lemma ConfigAnswers(h: Sender, config: Store)
    requires InRange(config)
    ensures AllAnswered(ConfigIn(Encode(ConfigBody(h, 0x35, config))), [Due(h.terminal, config)])
  {
    var body := ConfigBody(h, 0x35, config);
    UnstuffFrame(Checksum(body), body);
    var d := Unstuff(Encode(body)).value;
    forall m ensures ReadsAs(d, Due(h.terminal, config), m) {
      ConfigThroughFrame(Checksum(body), h, 0x35, config, m);
    }
  }

  // What a step passes on answers what has become due in it.
  ghost predicate PassesOn(s: State, dues: seq<Due>, t: State) {
    || (t.sent == s.sent && dues == [])
    || (exists body :: PassesOnBody(s, dues, t, body))
  }

  ghost predicate PassesOnBody(s: State, dues: seq<Due>, t: State, body: seq<byte>) {
    t.sent == s.sent + [body] && AllAnswered(ConfigIn(Encode(body)), dues)
  }

  lemma MessageAnswers(s: State, m: Message)
    requires InRange(s.config) && Session.OnMessage(s, m).Some?
    ensures PassesOn(s, if m.StatusReport? && (s.sender.terminal == 0x64 || s.sender.terminal == 0x65)
                        then [Due(s.sender.terminal, s.config)] else [], Session.OnMessage(s, m).value)
  {
    var t := Session.OnMessage(s, m).value;
    match m
    case MediaData(p) =>
      var h := Acknowledge(Release(s), p).sender;
      var f := PacketFields(p.mediaType, p.mediaId, p.total, p.current);
      Associative(Head(h, OP_MEDIA_DATA), f, [0]);
      NotAConfig(h, OP_MEDIA_DATA, f + [0]);
      assert PassesOnBody(s, [], t, AckBody(h, p));
    case StatusReport =>
      ConfigAnswers(s.sender, s.config);
      if s.sender.terminal == 0x64 || s.sender.terminal == 0x65 {
        assert PassesOnBody(s, [Due(s.sender.terminal, s.config)], t, ConfigBody(s.sender, 0x35, s.config));
      }
    case _ =>
  }

  lemma TickAnswers(s: State, tick: Tick)
    ensures PassesOn(s, [], OnTick(s, tick))
  {
    var t := OnTick(s, tick);
    match tick
    case Expire =>
    case TimerRun =>
      var m := s.queue.current;
      Associative(Head(s.sender, OP_MEDIA_REQUEST), [m.mediaType], BigEndian(m.mediaId, 4));
      NotAConfig(s.sender, OP_MEDIA_REQUEST, [m.mediaType] + BigEndian(m.mediaId, 4));
      if s.due > 0 { assert PassesOnBody(s, [], t, RequestBody(s.sender, m)); }
    case Heartbeat(time) =>
      var h := SwapSequence(s.sender);
      var body := RealtimeBody(h, time);
      assert Head(h, OP_REALTIME) == body[..6] && body == Head(h, OP_REALTIME) + body[6..];
      NotAConfig(h, OP_REALTIME, body[6..]);
      assert PassesOnBody(s, [], t, body);
  }

  lemma StepAnswers(s: State, e: Event)
    requires InRange(s.config) && Step(s, e).Some?
    ensures PassesOn(s, DueFor(s, e), Step(s, e).value)
  {
    match e
    case Chunk(bytes) =>
      var incoming := ParseChunk(bytes).value;
      var named := s.(sender := s.sender.(terminal := incoming.terminal));
      MessageAnswers(named, incoming.message);
      PassesOnAlike(named, s, DueFor(s, e), Step(s, e).value);
    case Clock(tick) => TickAnswers(s, tick);
  }

  lemma PassesOnAlike(u: State, s: State, dues: seq<Due>, t: State)
    requires u.sent == s.sent && PassesOn(u, dues, t)
    ensures PassesOn(s, dues, t)
  {
    if body :| PassesOnBody(u, dues, t, body) { assert PassesOnBody(s, dues, t, body); }
  }

  lemma OneMoreConfig(sent: seq<seq<byte>>, body: seq<byte>)
    ensures WireConfigs(Encodings(sent + [body])) == WireConfigs(Encodings(sent)) + ConfigIn(Encode(body))
  {
    EncodingsSnoc(sent, body);
    WireConfigsConcat(Encodings(sent), [Encode(body)]);
    assert [Encode(body)][1..] == [];
    assert WireConfigs([Encode(body)]) == ConfigIn(Encode(body)) + [];
  }

  lemma AnsweredConcat(a: seq<seq<byte>>, x: seq<Due>, b: seq<seq<byte>>, y: seq<Due>)
    requires AllAnswered(a, x) && AllAnswered(b, y)
    ensures AllAnswered(a + b, x + y)
  {
  }

  lemma PassingOnAnswers(s: State, dues: seq<Due>, t: State, before: seq<Due>)
    requires PassesOn(s, dues, t) && AllAnswered(WireConfigs(Encodings(s.sent)), before)
    ensures AllAnswered(WireConfigs(Encodings(t.sent)), before + dues)
  {
    if body :| PassesOnBody(s, dues, t, body) {
      OneMoreConfig(s.sent, body);
      AnsweredConcat(WireConfigs(Encodings(s.sent)), before, ConfigIn(Encode(body)), dues);
    } else {
      assert before + dues == before;
    }
  }

  // In every run the 0x35 frames of what has been passed on are one per status report of a known sensor,
  // in order, each restoring at its receiver the configuration held when the report arrived.
  lemma {:induction false} ReportsAreAnswered(s: State, es: seq<Event>, before: seq<Due>)
    requires InRange(s.config) && Run(s, es).Some?
    requires AllAnswered(WireConfigs(Encodings(s.sent)), before)
    ensures AllAnswered(WireConfigs(Encodings(Run(s, es).value.sent)), before + DueIn(s, es))
    decreases |es|
  {
    if es == [] {
      assert before + [] == before;
    } else {
      var next := Step(s, es[0]).value;
      StepAnswers(s, es[0]);
      PassingOnAnswers(s, DueFor(s, es[0]), next, before);
      StepInRange(s, es[0]);
      ReportsAreAnswered(next, es[1..], before + DueFor(s, es[0]));
      Associative(before, DueFor(s, es[0]), DueIn(next, es[1..]));
    }
  }

  // The answers in the first frames are those to the first reports.
  lemma FirstAnswers(a: seq<seq<byte>>, b: seq<seq<byte>>, dues: seq<Due>)
    requires a <= b && AllAnswered(WireConfigs(b), dues)
    ensures |WireConfigs(a)| <= |dues| && AllAnswered(WireConfigs(a), dues[..|WireConfigs(a)|])
    ensures a == b ==> |WireConfigs(a)| == |dues|
  {
    assert a + b[|a|..] == b;
    WireConfigsConcat(a, b[|a|..]);
    forall i | 0 <= i < |WireConfigs(a)| ensures Answers(WireConfigs(a)[i], dues[i]) {
      assert WireConfigs(a)[i] == WireConfigs(b)[i];
    }
  }
}
