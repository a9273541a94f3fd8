/** From reads off the socket to files: the layers put together. */
module EndToEnd {
  import opened Bytes
  import opened Sequences
  import opened Wrappers
  import opened Framing
  import opened Messages
  import opened Transfer
  import opened Session
  import opened Reassembly

  // What can happen to the receiving side of a connection: a read completes, or the clock acts.
  datatype Input = Segment(bytes: seq<byte>) | Timer(tick: Tick)

  // held is what the read buffer holds.
  function SystemStep(held: seq<byte>, s: State, input: Input): Option<(seq<byte>, State)> {
    match input
    case Timer(tick) => Some((held, OnTick(s, tick)))
    case Segment(bytes) =>
      var (chunk, rest) := Feed(held, bytes);
      match chunk
      case None => Some((rest, s))
      case Some(c) => (match Session.OnChunk(s, c) case None => None case Some(t) => Some((rest, t)))
  }

  function SystemRun(held: seq<byte>, s: State, ins: seq<Input>): Option<(seq<byte>, State)>
    decreases |ins|
  {
    if ins == [] then Some((held, s))
    else match SystemStep(held, s, ins[0])
      case None => None
      case Some((h, t)) => SystemRun(h, t, ins[1..])
  }

  function Segments(ins: seq<Input>): seq<seq<byte>> {
    if ins == [] then []
    else (if ins[0].Segment? then [ins[0].bytes] else []) + Segments(ins[1..])
  }

  // The same run with every read replaced by the chunk it completes, if any.
  function Deliver(held: seq<byte>, ins: seq<Input>): seq<Event>
    decreases |ins|
  {
    if ins == [] then []
    else match ins[0]
      case Timer(tick) => [Clock(tick)] + Deliver(held, ins[1..])
      case Segment(bytes) =>
        var (chunk, rest) := Feed(held, bytes);
        (match chunk case None => [] case Some(c) => [Chunk(c)]) + Deliver(rest, ins[1..])
  }

  lemma {:induction false} DeliveredChunks(held: seq<byte>, ins: seq<Input>)
    ensures Chunks(Deliver(held, ins)) == FeedAll(held, Segments(ins)).0
    decreases |ins|
  {
    if ins != [] {
      match ins[0]
      case Timer(tick) =>
        DeliveredChunks(held, ins[1..]);
        assert Segments(ins) == Segments(ins[1..]);
        assert Deliver(held, ins)[1..] == Deliver(held, ins[1..]);
        assert Chunks(Deliver(held, ins)) == Chunks(Deliver(held, ins[1..]));
      case Segment(bytes) =>
        var (chunk, rest) := Feed(held, bytes);
        DeliveredChunks(rest, ins[1..]);
        assert Segments(ins)[0] == bytes && Segments(ins)[1..] == Segments(ins[1..]);
        var events := Deliver(rest, ins[1..]);
        if chunk.Some? {
          assert Deliver(held, ins)[1..] == events;
        } else {
          assert Deliver(held, ins) == events;
        }
    }
  }

  lemma {:induction false} RunDelivers(held: seq<byte>, s: State, ins: seq<Input>)
    ensures var rest := FeedAll(held, Segments(ins)).1;
            SystemRun(held, s, ins) ==
            match Session.Run(s, Deliver(held, ins)) { case None => None case Some(t) => Some((rest, t)) }
    decreases |ins|
  {
    if ins != [] {
      match ins[0]
      case Timer(tick) =>
        assert Segments(ins) == Segments(ins[1..]);
        assert Deliver(held, ins)[1..] == Deliver(held, ins[1..]);
        RunDelivers(held, OnTick(s, tick), ins[1..]);
      case Segment(bytes) =>
        var (chunk, rest) := Feed(held, bytes);
        assert Segments(ins)[0] == bytes && Segments(ins)[1..] == Segments(ins[1..]);
        var events := Deliver(rest, ins[1..]);
        if chunk.Some? {
          assert Deliver(held, ins)[0] == Chunk(chunk.value) && Deliver(held, ins)[1..] == events;
          var next := Session.OnChunk(s, chunk.value);
          if next.Some? { RunDelivers(rest, next.value, ins[1..]); }
        } else {
          assert Deliver(held, ins) == events;
          RunDelivers(rest, s, ins[1..]);
        }
    }
  }

  /* ------------------------- segmentation independence ------------------------- */

  // Non-empty reads of these frames that respect their boundaries.
  ghost predicate Cuts(segments: seq<seq<byte>>, frames: seq<seq<byte>>) {
    NonEmptyReads(segments) && Concat(segments) == Concat(frames) && Respects(segments, frames, 0)
  }

  lemma CutsHandOver(segments: seq<seq<byte>>, frames: seq<seq<byte>>)
    requires Frames(frames) && Cuts(segments, frames)
    ensures HandsOver([], segments, frames)
  {
    assert [] + Concat(segments) == Concat(segments);
    ReassemblyIff(segments, frames, 0);
  }

  // Reads with nothing in between.
  function Arrivals(segments: seq<seq<byte>>): seq<Input> {
    if segments == [] then [] else [Segment(segments[0])] + Arrivals(segments[1..])
  }

  function ChunkEvents(chunks: seq<seq<byte>>): seq<Event> {
    if chunks == [] then [] else [Chunk(chunks[0])] + ChunkEvents(chunks[1..])
  }

  lemma {:induction false} ArrivalsDeliver(held: seq<byte>, segments: seq<seq<byte>>)
    ensures Segments(Arrivals(segments)) == segments
    ensures Deliver(held, Arrivals(segments)) == ChunkEvents(FeedAll(held, segments).0)
    decreases |segments|
  {
    if segments != [] {
      var (chunk, rest) := Feed(held, segments[0]);
      ArrivalsDeliver(rest, segments[1..]);
      var ins, chunks := Arrivals(segments), FeedAll(rest, segments[1..]).0;
      assert ins[0] == Segment(segments[0]) && ins[1..] == Arrivals(segments[1..]);
      assert [segments[0]] + segments[1..] == segments;
      if chunk.Some? {
        assert ([chunk.value] + chunks)[1..] == chunks;
      } else {
        assert [] + ChunkEvents(chunks) == ChunkEvents(chunks);
      }
    }
  }

  // Two cuts of the same frames lead a connection to the same end, be it a fault or a state.
  lemma SegmentationIndependence(s: State, a: seq<seq<byte>>, b: seq<seq<byte>>, frames: seq<seq<byte>>)
    requires Frames(frames) && Cuts(a, frames) && Cuts(b, frames)
    ensures SystemRun([], s, Arrivals(a)) == SystemRun([], s, Arrivals(b))
  {
    CutsHandOver(a, frames);
    CutsHandOver(b, frames);
    ArrivalsDeliver([], a);
    ArrivalsDeliver([], b);
    RunDelivers([], s, Arrivals(a));
    RunDelivers([], s, Arrivals(b));
  }

  // With the clock acting at different points in between, at least the same bytes are held, and queue
  // and file are the same.
  lemma SegmentationIndependenceOfQueue(s: State, a: seq<Input>, b: seq<Input>, frames: seq<seq<byte>>)
    requires Frames(frames) && Cuts(Segments(a), frames) && Cuts(Segments(b), frames)
    requires SystemRun([], s, a).Some? && SystemRun([], s, b).Some?
    ensures var (x, y) := (SystemRun([], s, a).value, SystemRun([], s, b).value);
            x.0 == [] == y.0 && x.1.queue == y.1.queue
  {
    QueueOfCut(s, a, frames);
    QueueOfCut(s, b, frames);
  }

  lemma QueueOfCut(s: State, ins: seq<Input>, frames: seq<seq<byte>>)
    requires Frames(frames) && Cuts(Segments(ins), frames) && SystemRun([], s, ins).Some?
    ensures var (held, t) := SystemRun([], s, ins).value;
            held == [] && OnChunks(s.queue, frames) == Some(t.queue)
  {
    CutsHandOver(Segments(ins), frames);
    RunDelivers([], s, ins);
    DeliveredChunks([], ins);
    QueueFollowsChunks(s, Deliver([], ins));
  }

  // A read that does not respect the boundaries: a data frame and another frame at once. They are
  // handed over as one chunk, the second frame is written to the file as if it were media, and only
  // the first is acknowledged.
  lemma TwoFramesInOneRead(s: State, c: byte, h: Sender, p: DataPacket, c2: byte, body2: seq<byte>)
    requires p.payload != [] && s.queue.file.Open?
    ensures TakenAsOne(s, Frame(c, DataBody(h, p)) + Frame(c2, body2), p, [SIGN, SIGN, c2] + body2)
  {
    var first, second := Frame(c, DataBody(h, p)), Frame(c2, body2);
    var more := [SIGN, SIGN, c2] + body2;
    TwoFramesParseAsOne(c, h, p, c2, body2);
    assert p.payload + more == p.payload + [SIGN, SIGN, c2] + body2;
    FrameHasShape(c2, body2);
    LastOfTwo(first, second);
    PacketRead(s, first + second, h, p, more);
  }

  // The other kind: a read that ends right after an opening delimiter. That byte is handed over, and
  // reading the header off it throws, whatever follows.
  lemma LoneDelimiter(s: State, ins: seq<Input>)
    requires ins != [] && ins[0] == Segment([SIGN])
    ensures Feed([], [SIGN]) == (Some([SIGN]), [])
    ensures SystemRun([], s, ins).None?
  {
    WholeRead(s, [SIGN]);
    assert [SIGN][1..] == [] && Unstuff([SIGN]) == Prepend([SIGN], Unstuff([]));
    OnChunkDecodes(s, [SIGN]);
  }

  // The read is handed over at once and treated as packet p with more behind its payload.
  ghost predicate TakenAsOne(s: State, read: seq<byte>, p: DataPacket, more: seq<byte>)
    requires s.queue.file.Open?
  {
    var r := SystemStep([], s, Segment(read));
    var all := Stored(s.queue, p.(payload := p.payload + more));
    && Feed([], read) == (Some(read), [])
    && r.Some? && r.value.0 == []
    && r.value.1.queue == (if IsLast(p) then Pop(CloseFile(all)) else all)
    && r.value.1.sent == s.sent + [AckBody(r.value.1.sender, p)]
  }

  lemma LastOfTwo(a: seq<byte>, b: seq<byte>)
    requires b != []
    ensures (a + b)[|a + b| - 1] == b[|b| - 1]
  {
  }

  lemma PacketRead(s: State, read: seq<byte>, h: Sender, p: DataPacket, more: seq<byte>)
    requires read != [] && read[|read| - 1] == SIGN
    requires ParseChunk(read) == Some(Incoming(h.terminal, MediaData(p.(payload := p.payload + more))))
    requires s.queue.file.Open?
    ensures TakenAsOne(s, read, p, more)
  {
    var q := p.(payload := p.payload + more);
    PacketStored(s, read, h, q);
    var t := Session.OnChunk(s, read).value;
    SameAck(t.sender, p, q.payload);
    WholeRead(s, read);
    assert IsLast(q) == IsLast(p);
  }

  // An acknowledgement does not depend on the payload.
  lemma SameAck(h: Sender, p: DataPacket, payload: seq<byte>)
    ensures AckBody(h, p.(payload := payload)) == AckBody(h, p)
  {
  }

  lemma WholeRead(s: State, read: seq<byte>)
    requires read != [] && read[|read| - 1] == SIGN
    ensures Feed([], read) == (Some(read), [])
    ensures SystemStep([], s, Segment(read)) ==
            match Session.OnChunk(s, read) { case None => None case Some(t) => Some(([], t)) }
  {
    assert [] + read == read;
  }

  lemma PacketStored(s: State, chunk: seq<byte>, h: Sender, q: DataPacket)
    requires ParseChunk(chunk) == Some(Incoming(h.terminal, MediaData(q))) && s.queue.file.Open?
    ensures var r := Session.OnChunk(s, chunk);
            var all := Stored(s.queue, q);
            && r.Some?
            && r.value.queue == (if IsLast(q) then Pop(CloseFile(all)) else all)
            && r.value.sent == s.sent + [AckBody(r.value.sender, q)]
  {
    DataSteps(Release(s.(sender := s.sender.(terminal := h.terminal))), q);
  }

  /* ------------------------- frames of the sensor ------------------------- */

  lemma {:induction false} ItemsFramesAreFrames(items: seq<Item>)
    requires AllSendable(items)
    ensures Frames(ItemsFrames(items)) && MediaOnly(ItemsFrames(items))
  {
    if items != [] {
      assert Sendable(items[0]);
      ItemFramesAreFrames(items[0]);
      ItemsFramesAreFrames(items[1..]);
    }
  }

  lemma SessionIsFrames(a: AlarmSession)
    requires Answerable(a)
    ensures Frames(SessionFrames(a)) && MediaOnly(SessionFrames(a))
  {
    FrameHasShape(a.checksum, AlarmBody(a.head, a.fixed, a.media));
    AlarmFrameParses(a.checksum, a.head, a.fixed, a.media);
    ItemsFramesAreFrames(a.items);
  }

  lemma {:induction false} SessionsAreFrames(alarms: seq<AlarmSession>)
    requires AllAnswerable(alarms)
    ensures Frames(SessionsFrames(alarms)) && MediaOnly(SessionsFrames(alarms))
  {
    if alarms != [] {
      assert Answerable(alarms[0]);
      SessionIsFrames(alarms[0]);
      SessionsAreFrames(alarms[1..]);
    }
  }

  /* ------------------------- the whole way ------------------------- */

  lemma ItemFramesAreFrames(item: Item)
    requires Sendable(item)
    ensures Frames(ItemFrames(item)) && MediaOnly(ItemFrames(item))
  {
    forall k | 0 <= k < |item.parts|
      ensures FrameShape(ItemFrames(item)[k]) && IsMedia(ItemFrames(item)[k])
    {
      FrameHasShape(item.parts[k].checksum, DataBody(item.parts[k].head, PartPacket(item, k)));
      PartParses(item, k);
    }
  }

  /**
   * The first m packets of a media item, in frames cut into reads in any way that respects the frame
   * boundaries, with timer events anywhere in between, reach the freshly opened file: before the last
   * packet it is open and holds the payloads so far, with the last packet it is closed and saved.
   */
  lemma {:induction false} ItemOverTheWire(s: State, ins: seq<Input>, item: Item, m: nat)
    requires Sendable(item) && m <= |item.parts| && NewFile(s.queue)
    requires Cuts(Segments(ins), ItemFrames(item)[..m])
    ensures SystemRun([], s, ins).Some?
    ensures var (held, t) := SystemRun([], s, ins).value;
            && held == []
            && var all := Received(s.queue, item, m);
               t.queue == if m < |item.parts| then all else Pop(CloseFile(all))
  {
    var frames := ItemFrames(item)[..m];
    ItemFramesAreFrames(item);
    CutsHandOver(Segments(ins), frames);
    DeliveredChunks([], ins);
    if m < |item.parts| {
      PartsAccumulate(s.queue, item, m);
    } else {
      assert frames == ItemFrames(item);
      ItemIsSaved(s.queue, item);
    }
    MediaRunIsDefined(s, Deliver([], ins));
    QueueFollowsChunks(s, Deliver([], ins));
    RunDelivers([], s, ins);
  }

  /**
   * A sensor reports alarms with media and sends every item of one before it reports the next, in frames
   * cut into reads in any way that respects the frame boundaries, with clock events anywhere in between.
   * Then the connection neither faults nor keeps bytes back, every descriptor is popped in report order,
   * and the file opened for the i-th of an alarm holds its i-th item, byte for byte.
   */
  lemma {:induction false} AlarmsOverTheWire(s: State, ins: seq<Input>, alarms: seq<AlarmSession>)
    requires AllAnswerable(alarms) && Cuts(Segments(ins), SessionsFrames(alarms))
    ensures SystemRun([], s, ins).Some?
    ensures var (held, t) := SystemRun([], s, ins).value; held == [] && Finished(s.queue, t.queue, alarms)
  {
    var frames := SessionsFrames(alarms);
    SessionsAreFrames(alarms);
    CutsHandOver(Segments(ins), frames);
    DeliveredChunks([], ins);
    WholeAlarms(s.queue, alarms);
    MediaRunIsDefined(s, Deliver([], ins));
    QueueFollowsChunks(s, Deliver([], ins));
    RunDelivers([], s, ins);
  }

  // At the end of a run over any reads, with clock events anywhere in between, every file holds only
  // packets of the item it was opened for exactly when that was so at the start and each data packet
  // handed over was one of the item current at that time.
  lemma FilesHoldTheirMediaOverTheWire(held: seq<byte>, s: State, ins: seq<Input>)
    requires SystemRun(held, s, ins).Some?
    ensures FilesPure(SystemRun(held, s, ins).value.1.queue) <==>
            FilesPure(s.queue) && AllForCurrent(s.queue, FeedAll(held, Segments(ins)).0)
  {
    RunDelivers(held, s, ins);
    DeliveredChunks(held, ins);
    QueueFollowsChunks(s, Deliver(held, ins));
    FilesHoldTheirMedia(s.queue, FeedAll(held, Segments(ins)).0);
  }

  // With frames no larger than the read buffer, every one of those reads fits what is left of it.
  lemma {:induction false} AlarmReadsFit(ins: seq<Input>, frames: seq<seq<byte>>)
    requires Frames(frames) && forall i :: 0 <= i < |frames| ==> |frames[i]| <= BUF_SIZE
    requires Cuts(Segments(ins), frames)
    ensures Fits([], Segments(ins))
  {
    assert [] + Concat(Segments(ins)) == Concat(Segments(ins));
    RespectedFramesFit(Segments(ins), frames, 0);
  }
}
