/** The connection as a transition system: chunks, timer expiry, timer-handler runs and heartbeats. */
module Session {
  import opened Bytes
  import opened Sequences
  import opened Wrappers
  import opened Framing
  import opened Messages
  import opened Transfer
  import Config

  /**
   * waiting and due count the wait handlers of the media timer: those still waiting, and those queued
   * to run because the timer expired or was cancelled. requests is the history of media items named
   * in 0x50 requests, sent that of the bodies encoded and passed on for writing.
   */
  datatype State = State(
    queue: Queue,
    waiting: nat,
    due: nat,
    sender: Sender,
    config: Config.Store,
    requests: seq<Descriptor>,
    sent: seq<seq<byte>>)

  // What the clock brings about: the media timer expires, one of its handlers runs, a heartbeat is due.
  datatype Tick = Expire | TimerRun | Heartbeat(time: Time)

  datatype Event = Chunk(bytes: seq<byte>) | Clock(tick: Tick)

  // A connection that has just been started.
  function Fresh(sender: Sender, config: Config.Store): State {
    State(EMPTY, 0, 0, sender, config, [], [])
  }

  function Outstanding(s: State): nat {
    s.waiting + s.due
  }

  // Expiry and cancellation both queue every waiting handler; neither drops one.
  function Release(s: State): State {
    s.(waiting := 0, due := s.due + s.waiting)
  }

  // Setting the expiry time, done for pictures and videos only, cancels earlier waits.
  function Arm(s: State, mediaType: byte): State {
    var c := if mediaType == 0x00 || mediaType == 0x02 then Release(s) else s;
    c.(waiting := c.waiting + 1)
  }

  // A wait is started exactly when a descriptor has been popped.
  function WithQueue(s: State, q: Queue): State {
    if |q.popped| > |s.queue.popped| then Arm(s.(queue := q), q.current.mediaType) else s.(queue := q)
  }

  function Post(s: State, body: seq<byte>): State {
    s.(sent := s.sent + [body])
  }

  function Acknowledge(s: State, p: DataPacket): State {
    var h := s.sender.(sequence := (s.sender.sequence + 1) % 0x1_0000);
    Post(s.(sender := h), AckBody(h, p))
  }

  lemma AcknowledgeOtherQueue(s: State, p: DataPacket, q: Queue)
    ensures Acknowledge(s.(queue := q), p) == Acknowledge(s, p).(queue := q)
  {
  }

  lemma WithQueueAfter(s: State, mid: Queue, q: Queue)
    requires mid.popped == s.queue.popped
    ensures WithQueue(s.(queue := mid), q) == WithQueue(s, q)
  {
  }

  function OnPacket(s: State, p: DataPacket): Option<State> {
    match OnData(s.queue, p)
    case None => None
    case Some(q) => Some(WithQueue(Acknowledge(s, p), q))
  }

  function OnMessage(s: State, m: Message): Option<State> {
    match m
    case Alarm(media) => Some(WithQueue(s, OnAlarm(s.queue, media)))
    case MediaData(p) => OnPacket(Release(s), p)
    case ConfigReply(d) =>
      (match Config.ReadScript(s.config, Config.Reads(s.sender.terminal), d, HEADER)
       case None => None
       case Some((m, _)) => Some(s.(config := m)))
    case StatusReport =>
      if s.sender.terminal == Config.ADASID || s.sender.terminal == Config.DMSID
      then Some(Post(s, ConfigBody(s.sender, OP_CONFIG_SET, s.config)))
      else Some(s)
    case Ignored => Some(s)
  }

  function OnChunk(s: State, chunk: seq<byte>): Option<State> {
    match ParseChunk(chunk)
    case None => None
    case Some(Incoming(terminal, message)) => OnMessage(s.(sender := s.sender.(terminal := terminal)), message)
  }

  // The same for a decoded packet whose terminal code has been taken over already.
  function OnDecoded(s: State, d: seq<byte>): Option<State> {
    match ParseDecoded(d)
    case None => None
    case Some(incoming) => OnMessage(s, incoming.message)
  }

  function OnUnstuffed(s: State, d: seq<byte>): Option<State> {
    if |d| < HEADER then None else OnDecoded(s.(sender := s.sender.(terminal := d[6])), d)
  }

  lemma OnChunkDecodes(s: State, chunk: seq<byte>)
    ensures OnChunk(s, chunk) == match Unstuff(chunk) { case None => None case Some(d) => OnUnstuffed(s, d) }
  {
    var u := Unstuff(chunk);
    if u.Some? && ParseDecoded(u.value).Some? { assert ParseDecoded(u.value).value.terminal == u.value[6]; }
  }

  // The dispatch on the opcode.
  lemma ConfigReplyDecoded(s: State, d: seq<byte>)
    requires |d| >= HEADER && d[7] == OP_CONFIG_REPLY
    ensures OnDecoded(s, d) == OnMessage(s, ConfigReply(d))
  {
  }

  lemma StatusDecoded(s: State, d: seq<byte>)
    requires |d| >= HEADER && d[7] == OP_STATUS
    ensures OnDecoded(s, d) == if |d| < HEADER + 5 then None else OnMessage(s, StatusReport)
  {
  }

  lemma AlarmDecoded(s: State, d: seq<byte>)
    requires |d| >= HEADER && d[7] == OP_ALARM
    ensures OnDecoded(s, d) ==
            if d[6] != Config.ADASID && d[6] != Config.DMSID then Some(s)
            else match ParseAlarm(d) { case None => None case Some(media) => OnMessage(s, Alarm(media)) }
  {
  }

  function OnDataIn(s: State, d: seq<byte>): Option<State> {
    match ParseData(d)
    case None => None
    case Some(p) => OnPacket(s, p)
  }

  lemma DataDecoded(s: State, d: seq<byte>)
    requires |d| >= HEADER && d[7] == OP_MEDIA_DATA
    ensures OnDecoded(s, d) == OnDataIn(Release(s), d)
  {
  }

  lemma OtherDecoded(s: State, d: seq<byte>)
    requires |d| >= HEADER && d[7] !in {OP_CONFIG_REPLY, OP_STATUS, OP_ALARM, OP_MEDIA_DATA}
    ensures OnDecoded(s, d) == Some(s)
  {
  }

  // The steps of the data handler: acked is the state after storing and acknowledging.
  function Acked(s: State, p: DataPacket): State
    requires s.queue.file.Open?
  {
    Acknowledge(s, p).(queue := Stored(s.queue, p))
  }

  // After the last packet the file is closed and the next item started.
  function Closed(acked: State): State
    requires acked.queue.file.Open?
  {
    WithQueue(acked, Pop(CloseFile(acked.queue)))
  }

  lemma DataSteps(s: State, p: DataPacket)
    requires s.queue.file.Open?
    ensures var acked := Acked(s, p); OnPacket(s, p) == Some(if IsLast(p) then Closed(acked) else acked)
  {
  }

  // The timer handler ignores its error code: one request for the then-current item, then a cancel.
  function OnTimer(s: State): State {
    var r := Post(s, RequestBody(s.sender, s.queue.current));
    Release(r.(due := if s.due == 0 then 0 else s.due - 1, requests := s.requests + [s.queue.current]))
  }

  function OnHeartbeat(s: State, time: Time): State {
    var h := SwapSequence(s.sender);
    Post(s.(sender := h), RealtimeBody(h, time))
  }

  // A timer run that is not possible leaves the state alone.
  function OnTick(s: State, tick: Tick): State {
    match tick
    case Expire => Release(s)
    case TimerRun => if s.due == 0 then s else OnTimer(s)
    case Heartbeat(time) => OnHeartbeat(s, time)
  }

  function Step(s: State, e: Event): Option<State> {
    match e
    case Chunk(bytes) => OnChunk(s, bytes)
    case Clock(tick) => Some(OnTick(s, tick))
  }

  function Run(s: State, es: seq<Event>): Option<State>
    decreases |es|
  {
    if es == [] then Some(s)
    else match Step(s, es[0])
      case None => None
      case Some(next) => Run(next, es[1..])
  }

  /* ------------------------- request conservation ------------------------- */

  // Handlers run plus handlers outstanding are descriptors popped.
  ghost predicate Conserved(s: State) {
    |s.requests| + Outstanding(s) == |s.queue.popped|
  }

  // The descriptor that a message pops, told from the message and the queue before it.
  function PoppedBy(q: Queue, m: Message): Option<Descriptor> {
    match m
    case Alarm(media) => if media == [] then None else Some(media[0])
    case MediaData(p) => if IsLast(p) && q.file.Open? && q.pending != [] then Some(q.pending[0]) else None
    case _ => None
  }

  function NextPop(s: State, e: Event): Option<Descriptor> {
    match e
    case Clock(_) => None
    case Chunk(bytes) =>
      match ParseChunk(bytes)
      case None => None
      case Some(incoming) => PoppedBy(s.queue, incoming.message)
  }

  // A pop starts one wait and makes no request.
  ghost predicate Pops(s: State, d: Descriptor, t: State) {
    && t.queue.popped == s.queue.popped + [d] && t.queue.current == d && NewFile(t.queue)
    && t.requests == s.requests && Outstanding(t) == Outstanding(s) + 1
  }

  ghost predicate SameItems(s: State, t: State) {
    && t.queue.popped == s.queue.popped && t.queue.current == s.queue.current
    && t.requests == s.requests && Outstanding(t) == Outstanding(s)
  }

  // A handler run requests the current item and uses up one wait.
  ghost predicate Requests(s: State, t: State) {
    && t.queue == s.queue
    && t.requests == s.requests + [s.queue.current] && Outstanding(s) == Outstanding(t) + 1
  }

  lemma PopsAsForeseen(q: Queue, m: Message)
    requires Transfer.OnMessage(q, m).Some?
    ensures var r := Transfer.OnMessage(q, m).value;
            match PoppedBy(q, m)
            case None => r.popped == q.popped && r.current == q.current
            case Some(d) => r.popped == q.popped + [d] && r.current == d && NewFile(r)
  {
  }

  lemma MessageEffect(s: State, m: Message)
    requires OnMessage(s, m).Some?
    ensures var t := OnMessage(s, m).value;
            && Transfer.OnMessage(s.queue, m) == Some(t.queue)
            && match PoppedBy(s.queue, m) { case None => SameItems(s, t) case Some(d) => Pops(s, d, t) }
  {
    PopsAsForeseen(s.queue, m);
  }

  // A step pops the descriptor foreseen, or it is a handler run, or it changes none of this.
  lemma StepEffect(s: State, e: Event)
    requires Step(s, e).Some?
    ensures var t := Step(s, e).value;
            match NextPop(s, e)
            case Some(d) => Pops(s, d, t)
            case None => if e == Clock(TimerRun) && s.due > 0 then Requests(s, t) else SameItems(s, t)
  {
    if e.Chunk? {
      var incoming := ParseChunk(e.bytes).value;
      MessageEffect(s.(sender := s.sender.(terminal := incoming.terminal)), incoming.message);
    }
  }

  lemma StepConserves(s: State, e: Event)
    requires Conserved(s) && Step(s, e).Some?
    ensures Conserved(Step(s, e).value)
  {
    StepEffect(s, e);
  }

  // Each run of the timer handler passes on one body, whose frame asks its receiver for the current item.
  lemma TimerRequests(s: State)
    requires s.due > 0
    ensures var t := OnTimer(s);
            && Requests(s, t) && t.waiting == 0
            && |t.sent| == |s.sent| + 1 && s.sent <= t.sent
            && RequestIn(Encode(t.sent[|s.sent|])) == [s.queue.current]
  {
    RequestNames(s.sender, s.queue.current);
  }

  lemma {:induction false} RequestConservation(s: State, es: seq<Event>)
    requires Conserved(s) && Run(s, es).Some?
    ensures Conserved(Run(s, es).value)
    decreases |es|
  {
    if es != [] {
      StepConserves(s, es[0]);
      RequestConservation(Step(s, es[0]).value, es[1..]);
    }
  }

  /* ------------------------- requests on the wire ------------------------- */

  // What the receiver of these frames reads as media requests.
  function WireRequests(frames: seq<seq<byte>>): seq<Descriptor> {
    if frames == [] then [] else RequestIn(frames[0]) + WireRequests(frames[1..])
  }

  function RequestIn(frame: seq<byte>): seq<Descriptor> {
    match Unstuff(frame)
    case None => []
    case Some(d) => if |d| >= 13 && d[7] == OP_MEDIA_REQUEST then [DescriptorAt(d, 8)] else []
  }

  // The frames of these bodies.
  function Encodings(bodies: seq<seq<byte>>): (r: seq<seq<byte>>)
    ensures |r| == |bodies|
  {
    seq(|bodies|, i requires 0 <= i < |bodies| => Encode(bodies[i]))
  }

  lemma EncodingsSnoc(bodies: seq<seq<byte>>, body: seq<byte>)
    ensures Encodings(bodies + [body]) == Encodings(bodies) + [Encode(body)]
  {
  }

  lemma {:induction false} WireRequestsConcat(a: seq<seq<byte>>, b: seq<seq<byte>>)
    ensures WireRequests(a + b) == WireRequests(a) + WireRequests(b)
  {
    if a == [] {
      assert a + b == b;
    } else {
      WireRequestsConcat(a[1..], b);
      ConsConcat(a, b);
      Associative(RequestIn(a[0]), WireRequests(a[1..]), WireRequests(b));
    }
  }

  lemma WireRequestsOne(frame: seq<byte>)
    ensures WireRequests([frame]) == RequestIn(frame)
  {
    assert [frame][1..] == [];
  }

  // Fewer frames, fewer requests, but none out of order.
  lemma WireRequestsPrefix(a: seq<seq<byte>>, b: seq<seq<byte>>)
    requires a <= b
    ensures WireRequests(a) <= WireRequests(b)
  {
    WireRequestsConcat(a, b[|a|..]);
    assert a + b[|a|..] == b;
  }

  // The requests in the frames of what has been passed on are the requests made.
  ghost predicate Wired(s: State) {
    WireRequests(Encodings(s.sent)) == s.requests
  }

  lemma NotARequest(h: Sender, opcode: byte, rest: seq<byte>)
    requires opcode != OP_MEDIA_REQUEST
    ensures RequestIn(Encode(Head(h, opcode) + rest)) == []
  {
    var body := Head(h, opcode) + rest;
    UnstuffFrame(Checksum(body), body);
    HeadAt(Checksum(body), h, opcode, rest);
  }

  lemma AckIsNotARequest(h: Sender, p: DataPacket)
    ensures RequestIn(Encode(AckBody(h, p))) == []
  {
    var f := PacketFields(p.mediaType, p.mediaId, p.total, p.current);
    Associative(Head(h, OP_MEDIA_DATA), f, [0]);
    NotARequest(h, OP_MEDIA_DATA, f + [0]);
  }

  lemma HeartbeatIsNeither(h: Sender, time: Time)
    ensures RequestIn(Encode(RealtimeBody(h, time))) == [] && AckIn(Encode(RealtimeBody(h, time))) == []
  {
    var body := RealtimeBody(h, time);
    var rest := body[6..];
    assert Head(h, OP_REALTIME) == body[..6];
    assert body == Head(h, OP_REALTIME) + rest;
    NotARequest(h, OP_REALTIME, rest);
    NotAnAck(h, OP_REALTIME, rest);
  }

  // A data packet without its payload, as an acknowledgement repeats it.
  datatype Receipt = Receipt(mediaType: byte, mediaId: uint32, total: uint16, current: uint16)

  function ReceiptOf(p: DataPacket): Receipt {
    Receipt(p.mediaType, p.mediaId, p.total, p.current)
  }

  // The receipts of the data packets in these chunks.
  function Receipts(chunks: seq<seq<byte>>): seq<Receipt> {
    if chunks == [] then [] else ReceiptsIn(chunks[0]) + Receipts(chunks[1..])
  }

  function ReceiptsIn(chunk: seq<byte>): seq<Receipt> {
    match ParseChunk(chunk)
    case None => []
    case Some(incoming) => MessageReceipts(incoming.message)
  }

  function MessageReceipts(m: Message): seq<Receipt> {
    if m.MediaData? then [ReceiptOf(m.packet)] else []
  }

  function EventReceipts(e: Event): seq<Receipt> {
    match e
    case Chunk(bytes) => ReceiptsIn(bytes)
    case Clock(_) => []
  }

  // What the receiver of these frames reads as acknowledgements with status zero.
  function WireAcks(frames: seq<seq<byte>>): seq<Receipt> {
    if frames == [] then [] else AckIn(frames[0]) + WireAcks(frames[1..])
  }

  function AckIn(frame: seq<byte>): seq<Receipt> {
    match ParseChunk(frame)
    case None => []
    case Some(incoming) =>
      if incoming.message.MediaData? && incoming.message.packet.payload == [0]
      then [ReceiptOf(incoming.message.packet)] else []
  }

  lemma {:induction false} WireAcksConcat(a: seq<seq<byte>>, b: seq<seq<byte>>)
    ensures WireAcks(a + b) == WireAcks(a) + WireAcks(b)
  {
    if a == [] {
      assert a + b == b;
    } else {
      WireAcksConcat(a[1..], b);
      ConsConcat(a, b);
      Associative(AckIn(a[0]), WireAcks(a[1..]), WireAcks(b));
    }
  }

  lemma WireAcksPrefix(a: seq<seq<byte>>, b: seq<seq<byte>>)
    requires a <= b
    ensures WireAcks(a) <= WireAcks(b)
  {
    WireAcksConcat(a, b[|a|..]);
    assert a + b[|a|..] == b;
  }

  lemma NotAnAck(h: Sender, opcode: byte, rest: seq<byte>)
    requires opcode != OP_MEDIA_DATA
    ensures AckIn(Encode(Head(h, opcode) + rest)) == []
  {
    var body := Head(h, opcode) + rest;
    UnstuffFrame(Checksum(body), body);
    HeadAt(Checksum(body), h, opcode, rest);
  }

  // An acknowledgement is a data packet whose payload is the status.
  lemma AckReadBack(h: Sender, p: DataPacket)
    ensures AckIn(Encode(AckBody(h, p))) == [ReceiptOf(p)]
  {
    var q := p.(payload := [0]);
    assert AckBody(h, p) == DataBody(h, q);
    DataFrameParses(Checksum(AckBody(h, p)), h, q);
  }

  // What a step passes on for writing: nothing, or one body that carries the request made, if any, and
  // acknowledges the data packet handled, if any.
  ghost predicate Sends(s: State, receipts: seq<Receipt>, t: State) {
    || (t.sent == s.sent && t.requests == s.requests && receipts == [])
    || (exists body :: SendsBody(s, receipts, t, body))
  }

  ghost predicate SendsBody(s: State, receipts: seq<Receipt>, t: State, body: seq<byte>) {
    && t.sent == s.sent + [body]
    && t.requests == s.requests + RequestIn(Encode(body))
    && receipts == AckIn(Encode(body))
  }

  lemma MessageSends(s: State, m: Message)
    requires OnMessage(s, m).Some?
    ensures Sends(s, MessageReceipts(m), OnMessage(s, m).value)
  {
    var t := OnMessage(s, m).value;
    assert s.requests + [] == s.requests;
    match m
    case MediaData(p) =>
      var h := Acknowledge(Release(s), p).sender;
      AckIsNotARequest(h, p);
      AckReadBack(h, p);
      assert SendsBody(s, [ReceiptOf(p)], t, AckBody(h, p));
    case StatusReport =>
      var block := Config.WriteScript(s.config, Config.Writes(s.sender.terminal));
      NotARequest(s.sender, OP_CONFIG_SET, block);
      NotAnAck(s.sender, OP_CONFIG_SET, block);
      if s.sender.terminal == Config.ADASID || s.sender.terminal == Config.DMSID {
        assert SendsBody(s, [], t, ConfigBody(s.sender, OP_CONFIG_SET, s.config));
      }
    case _ =>
  }

  lemma RequestIsNotAnAck(h: Sender, m: Descriptor)
    ensures AckIn(Encode(RequestBody(h, m))) == []
  {
    Associative(Head(h, OP_MEDIA_REQUEST), [m.mediaType], BigEndian(m.mediaId, 4));
    NotAnAck(h, OP_MEDIA_REQUEST, [m.mediaType] + BigEndian(m.mediaId, 4));
  }

  lemma TickSends(s: State, tick: Tick)
    ensures Sends(s, [], OnTick(s, tick))
  {
    match tick
    case Expire =>
    case TimerRun =>
      if s.due > 0 {
        RequestNames(s.sender, s.queue.current);
        RequestIsNotAnAck(s.sender, s.queue.current);
        assert SendsBody(s, [], OnTimer(s), RequestBody(s.sender, s.queue.current));
      }
    case Heartbeat(time) =>
      var h := SwapSequence(s.sender);
      HeartbeatIsNeither(h, time);
      assert s.requests + [] == s.requests;
      assert SendsBody(s, [], OnHeartbeat(s, time), RealtimeBody(h, time));
  }

  lemma StepSends(s: State, e: Event)
    requires Step(s, e).Some?
    ensures Sends(s, EventReceipts(e), Step(s, e).value)
  {
    match e
    case Chunk(bytes) =>
      var incoming := ParseChunk(bytes).value;
      var named := s.(sender := s.sender.(terminal := incoming.terminal));
      MessageSends(named, incoming.message);
      SendsAlike(named, s, MessageReceipts(incoming.message), Step(s, e).value);
    case Clock(tick) => TickSends(s, tick);
  }

  lemma SendsAlike(u: State, s: State, receipts: seq<Receipt>, t: State)
    requires u.sent == s.sent && u.requests == s.requests && Sends(u, receipts, t)
    ensures Sends(s, receipts, t)
  {
    if body :| SendsBody(u, receipts, t, body) { assert SendsBody(s, receipts, t, body); }
  }

  lemma SendingWires(s: State, receipts: seq<Receipt>, t: State)
    requires Sends(s, receipts, t)
    ensures Wired(s) ==> Wired(t)
    ensures WireAcks(Encodings(t.sent)) == WireAcks(Encodings(s.sent)) + receipts
  {
    if exists body :: SendsBody(s, receipts, t, body) {
      var body :| SendsBody(s, receipts, t, body);
      EncodingsSnoc(s.sent, body);
      WireRequestsConcat(Encodings(s.sent), [Encode(body)]);
      WireRequestsOne(Encode(body));
      WireAcksConcat(Encodings(s.sent), [Encode(body)]);
      assert [Encode(body)][1..] == [];
    }
  }

  lemma {:induction false} RequestsOnTheWire(s: State, es: seq<Event>)
    requires Wired(s) && Run(s, es).Some?
    ensures Wired(Run(s, es).value)
    decreases |es|
  {
    if es != [] {
      StepSends(s, es[0]);
      SendingWires(s, EventReceipts(es[0]), Step(s, es[0]).value);
      RequestsOnTheWire(Step(s, es[0]).value, es[1..]);
    }
  }

  /* ------------------------- timers do not touch the queue ------------------------- */

  function Chunks(es: seq<Event>): seq<seq<byte>> {
    if es == [] then []
    else (if es[0].Chunk? then [es[0].bytes] else []) + Chunks(es[1..])
  }

  lemma ChunkQueue(s: State, chunk: seq<byte>)
    requires OnChunk(s, chunk).Some?
    ensures Transfer.OnChunk(s.queue, chunk) == Some(OnChunk(s, chunk).value.queue)
  {
  }

  // The queue and the file depend on the chunks alone, however timer events fall between them.
  lemma {:induction false} QueueFollowsChunks(s: State, es: seq<Event>)
    requires Run(s, es).Some?
    ensures OnChunks(s.queue, Chunks(es)) == Some(Run(s, es).value.queue)
    decreases |es|
  {
    if es != [] {
      var next := Step(s, es[0]).value;
      QueueFollowsChunks(next, es[1..]);
      if es[0].Chunk? {
        ChunkQueue(s, es[0].bytes);
        assert Chunks(es)[0] == es[0].bytes && Chunks(es)[1..] == Chunks(es[1..]);
      } else {
        assert Chunks(es) == Chunks(es[1..]);
      }
    }
  }

  // In every run the acknowledgements in the frames of what has been passed on are the data packets
  // received, in order.
  lemma {:induction false} AcksOnTheWire(s: State, es: seq<Event>)
    requires Run(s, es).Some?
    ensures WireAcks(Encodings(Run(s, es).value.sent)) == WireAcks(Encodings(s.sent)) + Receipts(Chunks(es))
    decreases |es|
  {
    var acks := WireAcks(Encodings(s.sent));
    if es == [] {
      assert acks + [] == acks;
    } else {
      var next := Step(s, es[0]).value;
      StepSends(s, es[0]);
      SendingWires(s, EventReceipts(es[0]), next);
      AcksOnTheWire(next, es[1..]);
      ChunksReceipts(es);
      Associative(acks, EventReceipts(es[0]), Receipts(Chunks(es[1..])));
    }
  }

  lemma ChunksReceipts(es: seq<Event>)
    requires es != []
    ensures Receipts(Chunks(es)) == EventReceipts(es[0]) + Receipts(Chunks(es[1..]))
  {
    if es[0].Chunk? {
      assert Chunks(es)[0] == es[0].bytes && Chunks(es)[1..] == Chunks(es[1..]);
    } else {
      assert Chunks(es) == Chunks(es[1..]);
    }
  }

  // Chunks that are alarm reports or media data.
  ghost predicate MediaOnly(chunks: seq<seq<byte>>) {
    forall i :: 0 <= i < |chunks| ==> IsMedia(chunks[i])
  }

  predicate IsMedia(chunk: seq<byte>) {
    match ParseChunk(chunk)
    case None => false
    case Some(incoming) => incoming.message.Alarm? || incoming.message.MediaData?
  }

  lemma MediaStepIsDefined(s: State, chunk: seq<byte>)
    requires IsMedia(chunk) && Transfer.OnChunk(s.queue, chunk).Some?
    ensures OnChunk(s, chunk).Some?
  {
  }

  // Such a run never faults unless its data finds no open file.
  lemma {:induction false} MediaRunIsDefined(s: State, es: seq<Event>)
    requires MediaOnly(Chunks(es)) && OnChunks(s.queue, Chunks(es)).Some?
    ensures Run(s, es).Some?
    decreases |es|
  {
    if es != [] {
      var c := Chunks(es);
      if es[0].Chunk? {
        assert c[0] == es[0].bytes && c[1..] == Chunks(es[1..]);
        assert forall i :: 0 <= i < |c| - 1 ==> c[1..][i] == c[i + 1];
        assert IsMedia(c[0]);
        MediaStepIsDefined(s, c[0]);
        ChunkQueue(s, c[0]);
      } else {
        assert c == Chunks(es[1..]);
      }
      MediaRunIsDefined(Step(s, es[0]).value, es[1..]);
    }
  }

  /* ------------------------- every item requested exactly once ------------------------- */

  // What the outstanding handlers will ask for if nothing more is popped.
  function Owed(s: State): (r: seq<Descriptor>)
    ensures |r| == Outstanding(s)
  {
    seq(Outstanding(s), _ => s.queue.current)
  }

  // The items popped are those requested and those still to be requested. With no handler outstanding,
  // the items popped are the items requested.
  ghost predicate InStep(s: State) {
    s.queue.popped == s.requests + Owed(s)
  }

  // While a handler is outstanding the step pops nothing but the current descriptor once more.
  predicate Calm(s: State, e: Event) {
    Outstanding(s) > 0 && NextPop(s, e).Some? ==> NextPop(s, e).value == s.queue.current
  }

  predicate Undisturbed(s: State, es: seq<Event>)
    decreases |es|
  {
    es == [] ||
    (&& Calm(s, es[0])
     && match Step(s, es[0])
        case None => true
        case Some(next) => Undisturbed(next, es[1..]))
  }

  // The i-th item popped was not requested in its place, nor will it be as things stand.
  ghost predicate Lost(s: State, i: nat)
    requires i < |s.queue.popped|
  {
    s.queue.popped[i] != if i < |s.requests| then s.requests[i] else s.queue.current
  }

  ghost predicate Spoiled(s: State) {
    && Conserved(s)
    && (Outstanding(s) > 0 ==> s.queue.popped != [] && s.queue.current == s.queue.popped[|s.queue.popped| - 1])
    && exists i: nat :: i < |s.queue.popped| && Lost(s, i)
  }

  lemma CalmStepKeeps(s: State, e: Event)
    requires InStep(s) && Calm(s, e) && Step(s, e).Some?
    ensures InStep(Step(s, e).value)
  {
    StepEffect(s, e);
    var t := Step(s, e).value;
    if NextPop(s, e).Some? {
      assert Owed(t) == Owed(s) + [t.queue.current];
    } else if e == Clock(TimerRun) && s.due > 0 {
      assert Owed(s) == [s.queue.current] + Owed(t);
    } else {
      assert Owed(t) == Owed(s);
    }
  }

  lemma HastyStepSpoils(s: State, e: Event)
    requires InStep(s) && !Calm(s, e) && Step(s, e).Some?
    ensures Spoiled(Step(s, e).value)
  {
    StepEffect(s, e);
    var t := Step(s, e).value;
    assert s.queue.popped[|s.requests|] == s.queue.current;
    assert Lost(t, |s.requests|);
  }

  // What is lost is lost: if the item comes round again, the one popped in between is lost instead.
  lemma SpoiledStep(s: State, e: Event)
    requires Spoiled(s) && Step(s, e).Some?
    ensures Spoiled(Step(s, e).value)
  {
    StepEffect(s, e);
    var t := Step(s, e).value;
    if NextPop(s, e).Some? {
      SpoiledByPop(s, NextPop(s, e).value, t);
    } else if e == Clock(TimerRun) && s.due > 0 {
      SpoiledByRequest(s, t);
    } else {
      SpoiledAlike(s, t);
    }
  }

  lemma SpoiledByPop(s: State, d: Descriptor, t: State)
    requires Spoiled(s) && Pops(s, d, t)
    ensures Spoiled(t)
  {
    var i: nat :| i < |s.queue.popped| && Lost(s, i);
    assert Lost(t, i) || Lost(t, |s.queue.popped| - 1);
  }

  lemma SpoiledByRequest(s: State, t: State)
    requires Spoiled(s) && Requests(s, t)
    ensures Spoiled(t)
  {
    var i: nat :| i < |s.queue.popped| && Lost(s, i);
    assert Lost(t, i);
  }

  lemma SpoiledAlike(s: State, t: State)
    requires Spoiled(s) && SameItems(s, t)
    ensures Spoiled(t)
  {
    var i: nat :| i < |s.queue.popped| && Lost(s, i);
    assert Lost(t, i);
  }

  lemma {:induction false} SpoiledForGood(s: State, es: seq<Event>)
    requires Spoiled(s) && Run(s, es).Some?
    ensures Spoiled(Run(s, es).value)
    decreases |es|
  {
    if es != [] {
      SpoiledStep(s, es[0]);
      SpoiledForGood(Step(s, es[0]).value, es[1..]);
    }
  }

  lemma SpoiledIsOutOfStep(s: State)
    requires Spoiled(s)
    ensures !InStep(s)
  {
    var i: nat :| i < |s.queue.popped| && Lost(s, i);
    assert i < |s.requests| || i - |s.requests| < |Owed(s)|;
  }

  // At the end of a run requests and items match exactly when the run was undisturbed throughout. What
  // decides is known before each step, and a step that disturbs is never made good later.
  lemma {:induction false} InStepIff(s: State, es: seq<Event>)
    requires InStep(s) && Run(s, es).Some?
    ensures InStep(Run(s, es).value) <==> Undisturbed(s, es)
    decreases |es|
  {
    if es != [] {
      var next := Step(s, es[0]).value;
      if Calm(s, es[0]) {
        CalmStepKeeps(s, es[0]);
        InStepIff(next, es[1..]);
      } else {
        HastyStepSpoils(s, es[0]);
        SpoiledForGood(next, es[1..]);
        SpoiledIsOutOfStep(Run(s, es).value);
      }
    }
  }

  // So when every handler has run, each item popped has been requested once, in order, exactly if the
  // run was undisturbed.
  lemma RequestedOnceIff(s: State, es: seq<Event>)
    requires InStep(s) && Run(s, es).Some? && Outstanding(Run(s, es).value) == 0
    ensures var t := Run(s, es).value; t.requests == t.queue.popped <==> Undisturbed(s, es)
  {
    InStepIff(s, es);
    var t := Run(s, es).value;
    assert t.requests + Owed(t) == t.requests;
  }

  // The peer reports an alarm or sends data only when no timer handler is outstanding, that is, when
  // the request for the current item has been made.
  predicate Patient(s: State, es: seq<Event>)
    decreases |es|
  {
    es == [] ||
    (&& (es[0].Chunk? && IsMedia(es[0].bytes) ==> Outstanding(s) == 0)
     && match Step(s, es[0])
        case None => true
        case Some(next) => Patient(next, es[1..]))
  }

  lemma {:induction false} PatientIsUndisturbed(s: State, es: seq<Event>)
    requires Patient(s, es)
    ensures Undisturbed(s, es)
    decreases |es|
  {
    if es != [] {
      assert NextPop(s, es[0]).Some? ==> IsMedia(es[0].bytes);
      if Step(s, es[0]).Some? { PatientIsUndisturbed(Step(s, es[0]).value, es[1..]); }
    }
  }

  // Nothing of an item arrives before it has been requested.
  ghost predicate Served(s: State) {
    && InStep(s) && Outstanding(s) <= 1
    && (Outstanding(s) == 1 ==> NewFile(s.queue))
  }

  lemma PatientStep(s: State, e: Event)
    requires Served(s) && Step(s, e).Some?
    requires e.Chunk? && IsMedia(e.bytes) ==> Outstanding(s) == 0
    ensures Served(Step(s, e).value)
  {
    assert NextPop(s, e).Some? ==> IsMedia(e.bytes);
    CalmStepKeeps(s, e);
    StepEffect(s, e);
    if e.Chunk? { ChunkQueue(s, e.bytes); }
  }

  lemma {:induction false} RequestedExactlyOnce(s: State, es: seq<Event>)
    requires Served(s) && Patient(s, es) && Run(s, es).Some?
    ensures Served(Run(s, es).value)
    decreases |es|
  {
    if es != [] {
      PatientStep(s, es[0]);
      RequestedExactlyOnce(Step(s, es[0]).value, es[1..]);
    }
  }

  lemma AlarmStep(s: State, c: byte, h: Sender, fixed: seq<byte>, media: seq<Descriptor>)
    requires |fixed| == 30 && |media| < 0x100 && (h.terminal == Config.ADASID || h.terminal == Config.DMSID)
    ensures Step(s, Chunk(AlarmFrame(c, h, fixed, media))) ==
            Some(WithQueue(s.(sender := s.sender.(terminal := h.terminal)), OnAlarm(s.queue, media)))
  {
    AlarmFrameParses(c, h, fixed, media);
  }

  // The timer expires and two of its handlers run.
  const BOTH_HANDLERS: seq<Event> := [Clock(Expire), Clock(TimerRun), Clock(TimerRun)]

  function TwoAlarms(c: byte, h: Sender, fixed: seq<byte>, a: Descriptor, b: Descriptor): seq<Event>
    requires |fixed| == 30
  {
    [Chunk(AlarmFrame(c, h, fixed, [a])), Chunk(AlarmFrame(c, h, fixed, [b]))] + BOTH_HANDLERS
  }

  // A peer that does not wait: two alarms before the first handler has run. Both handlers ask for the
  // second item, on the wire too, and the first is never asked for.
  lemma HastyAlarm(sender: Sender, config: Config.Store, c: byte, h: Sender, fixed: seq<byte>,
                   a: Descriptor, b: Descriptor)
    requires |fixed| == 30 && (h.terminal == Config.ADASID || h.terminal == Config.DMSID)
    ensures var r := Run(Fresh(sender, config), TwoAlarms(c, h, fixed, a, b));
            && r.Some? && Outstanding(r.value) == 0
            && r.value.queue.popped == [a, b]
            && r.value.requests == [b, b] == WireRequests(Encodings(r.value.sent))
  {
    var s, es := Fresh(sender, config), TwoAlarms(c, h, fixed, a, b);
    var first := OneAlarm(s, c, h, fixed, a);
    var second := OneAlarm(first, c, h, fixed, b);
    TwoSteps(s, es, first, second);
    LastSteps(second);
    RequestsOnTheWire(s, es);
  }

  lemma TwoSteps(s: State, es: seq<Event>, first: State, second: State)
    requires |es| >= 2 && Step(s, es[0]) == Some(first) && Step(first, es[1]) == Some(second)
    ensures Run(s, es) == Run(second, es[2..])
  {
    assert es[1..][0] == es[1] && es[1..][1..] == es[2..];
  }

  lemma OneAlarm(s: State, c: byte, h: Sender, fixed: seq<byte>, a: Descriptor) returns (t: State)
    requires |fixed| == 30 && (h.terminal == Config.ADASID || h.terminal == Config.DMSID)
    ensures Step(s, Chunk(AlarmFrame(c, h, fixed, [a]))) == Some(t)
    ensures Pops(s, a, t)
  {
    AlarmStep(s, c, h, fixed, [a]);
    t := Step(s, Chunk(AlarmFrame(c, h, fixed, [a]))).value;
  }

  lemma LastSteps(s: State)
    requires Outstanding(s) == 2
    ensures var r := Run(s, BOTH_HANDLERS);
            && r.Some? && Outstanding(r.value) == 0 && r.value.queue == s.queue
            && r.value.requests == s.requests + [s.queue.current, s.queue.current]
  {
    var es := BOTH_HANDLERS;
    var more, last := es[1..], es[1..][1..];
    assert more == [Clock(TimerRun), Clock(TimerRun)] && last == [Clock(TimerRun)] && last[1..] == [];
    var t := Release(s);
    var u := OnTimer(t);
    assert Run(s, es) == Run(t, more);
    assert Run(t, more) == Run(u, last);
    assert Run(u, last) == Run(OnTimer(u), last[1..]) == Some(OnTimer(u));
  }
}
