/** A sensor that waits for every request: the hypotheses of the end-to-end results can always be met. */
module PoliteSensor {
  import opened Bytes
  import opened Sequences
  import opened Wrappers
  import opened Framing
  import opened Messages
  import opened Transfer
  import opened Session
  import opened Reassembly
  import opened EndToEnd
  import Wire
  import Outbox
  import Config

  // Before the packets of each item the timer expires and its handler runs. rest comes after the items.
  ghost function ItemEvents(items: seq<Item>, rest: seq<Event>): seq<Event>
    requires AllSendable(items)
  {
    if items == [] then rest
    else [Clock(Expire), Clock(TimerRun)] + (ChunkEvents(ItemFrames(items[0])) + ItemEvents(items[1..], rest))
  }

  ghost function ItemInputs(items: seq<Item>, rest: seq<Input>): seq<Input>
    requires AllSendable(items)
  {
    if items == [] then rest
    else [Timer(Expire), Timer(TimerRun)] + (Arrivals(ItemFrames(items[0])) + ItemInputs(items[1..], rest))
  }

  function Report(a: AlarmSession): seq<byte>
    requires |a.fixed| == 30 && |a.media| < 0x100
  {
    AlarmFrame(a.checksum, a.head, a.fixed, a.media)
  }

  ghost function SessionEvents(alarms: seq<AlarmSession>): seq<Event>
    requires AllAnswerable(alarms)
  {
    if alarms == [] then []
    else
      assert Answerable(alarms[0]);
      [Chunk(Report(alarms[0]))] + ItemEvents(alarms[0].items, SessionEvents(alarms[1..]))
  }

  ghost function SessionInputs(alarms: seq<AlarmSession>): seq<Input>
    requires AllAnswerable(alarms)
  {
    if alarms == [] then []
    else
      assert Answerable(alarms[0]);
      [Segment(Report(alarms[0]))] + ItemInputs(alarms[0].items, SessionInputs(alarms[1..]))
  }

  /* ------------------------- the events are patient ------------------------- */

  // One packet: afterwards no handler is outstanding, unless it was the last and more is pending.
  lemma PartStep(s: State, item: Item, k: nat)
    requires Sendable(item) && k < |item.parts| && s.queue.file.Open? && Outstanding(s) == 0
    ensures Step(s, Chunk(PartFrame(item, k))).Some? && IsMedia(PartFrame(item, k))
    ensures var t := Step(s, Chunk(PartFrame(item, k))).value;
            if k < |item.parts| - 1 then
              Outstanding(t) == 0 && t.queue.file.Open? && t.queue.pending == s.queue.pending
            else Popped(s, t)
  {
    PartParses(item, k);
    PacketStep(s, PartFrame(item, k), item.parts[k].head, PartPacket(item, k));
  }

  lemma PacketStep(s: State, chunk: seq<byte>, h: Sender, p: DataPacket)
    requires ParseChunk(chunk) == Some(Incoming(h.terminal, MediaData(p)))
    requires s.queue.file.Open? && Outstanding(s) == 0
    ensures Step(s, Chunk(chunk)).Some?
    ensures var t := Step(s, Chunk(chunk)).value;
            if IsLast(p) then Popped(s, t)
            else Outstanding(t) == 0 && t.queue.file.Open? && t.queue.pending == s.queue.pending
  {
  }

  ghost predicate Popped(s: State, t: State) {
    if s.queue.pending == [] then Outstanding(t) == 0
    else Outstanding(t) == 1 && NewFile(t.queue) && t.queue.pending == s.queue.pending[1..]
  }

  lemma ChunkEventsCons(frames: seq<seq<byte>>, rest: seq<Event>)
    requires frames != []
    ensures var events := ChunkEvents(frames) + rest;
            && events != [] && events[0] == Chunk(frames[0])
            && events[1..] == ChunkEvents(frames[1..]) + rest
  {
    ConsConcat(ChunkEvents(frames), rest);
    assert ChunkEvents(frames)[1..] == ChunkEvents(frames[1..]);
  }

  lemma {:induction false} PatientParts(s: State, item: Item, k: nat, rest: seq<Event>) returns (t: State)
    requires Sendable(item) && k < |item.parts| && s.queue.file.Open? && Outstanding(s) == 0
    ensures Popped(s, t)
    ensures Patient(t, rest) ==> Patient(s, ChunkEvents(ItemFrames(item)[k..]) + rest)
    decreases |item.parts| - k
  {
    var frames := ItemFrames(item)[k..];
    PartStep(s, item, k);
    var next := Step(s, Chunk(PartFrame(item, k))).value;
    assert frames[0] == PartFrame(item, k) && frames[1..] == ItemFrames(item)[k + 1..];
    ChunkEventsCons(frames, rest);
    if k < |item.parts| - 1 {
      t := PatientParts(next, item, k + 1, rest);
    } else {
      t := next;
      assert frames[1..] == [] && [] + rest == rest;
    }
  }

  lemma {:induction false} PatientItems(s: State, items: seq<Item>, rest: seq<Event>) returns (t: State)
    requires AllSendable(items) && NewFile(s.queue)
    requires |items| == |s.queue.pending| + 1 && Outstanding(s) == 1
    ensures Outstanding(t) == 0
    ensures Patient(t, rest) ==> Patient(s, ItemEvents(items, rest))
    decreases |items|
  {
    var item, more := items[0], ItemEvents(items[1..], rest);
    assert Sendable(item);
    var asked := OnTimer(Release(s));
    t := PatientParts(asked, item, 0, more);
    assert ItemFrames(item)[0..] == ItemFrames(item);
    RequestFirst(s, ChunkEvents(ItemFrames(item)) + more);
    if s.queue.pending != [] { t := PatientItems(t, items[1..], rest); }
  }

  lemma RequestFirst(s: State, events: seq<Event>)
    requires Outstanding(s) == 1
    ensures Patient(OnTimer(Release(s)), events) ==> Patient(s, [Clock(Expire), Clock(TimerRun)] + events)
  {
    var all := [Clock(Expire), Clock(TimerRun)] + events;
    assert all[0] == Clock(Expire) && all[1..][0] == Clock(TimerRun) && all[1..][1..] == events;
  }

  lemma {:induction false} PatientSessions(s: State, alarms: seq<AlarmSession>)
    requires AllAnswerable(alarms) && Outstanding(s) == 0
    ensures Patient(s, SessionEvents(alarms))
    decreases |alarms|
  {
    if alarms != [] {
      var a, more := alarms[0], SessionEvents(alarms[1..]);
      assert Answerable(a);
      var next := Reported(s, a);
      var t := PatientItems(next, a.items, more);
      PatientSessions(t, alarms[1..]);
      var events := SessionEvents(alarms);
      assert events[0] == Chunk(Report(a)) && events[1..] == ItemEvents(a.items, more);
    }
  }

  lemma Reported(s: State, a: AlarmSession) returns (t: State)
    requires Answerable(a) && Outstanding(s) == 0
    ensures Step(s, Chunk(Report(a))) == Some(t)
    ensures Outstanding(t) == 1 && NewFile(t.queue) && t.queue.pending == a.media[1..]
  {
    AlarmStep(s, a.checksum, a.head, a.fixed, a.media);
    t := Step(s, Chunk(Report(a))).value;
  }

  /* ------------------------- the inputs deliver them ------------------------- */

  lemma SegmentDelivers(f: seq<byte>, tail: seq<Input>)
    requires FrameShape(f)
    ensures var ins := [Segment(f)] + tail;
            Deliver([], ins) == [Chunk(f)] + Deliver([], tail) && Segments(ins) == [f] + Segments(tail)
  {
    var ins := [Segment(f)] + tail;
    assert [] + f == f && ins[0] == Segment(f) && ins[1..] == tail;
    assert Feed([], f) == (Some(f), []);
  }

  lemma {:induction false} FramesDeliver(frames: seq<seq<byte>>, rest: seq<Input>)
    requires Frames(frames)
    ensures Deliver([], Arrivals(frames) + rest) == ChunkEvents(frames) + Deliver([], rest)
    ensures Segments(Arrivals(frames) + rest) == frames + Segments(rest)
  {
    if frames == [] {
      assert Arrivals(frames) + rest == rest;
      assert ChunkEvents(frames) + Deliver([], rest) == Deliver([], rest);
    } else {
      var f, more := frames[0], frames[1..];
      assert FrameShape(f);
      FramesDeliver(more, rest);
      SegmentDelivers(f, Arrivals(more) + rest);
      Associative([Segment(f)], Arrivals(more), rest);
      Associative([Chunk(f)], ChunkEvents(more), Deliver([], rest));
      Associative([f], more, Segments(rest));
      assert [f] + more == frames;
    }
  }

  lemma TimerDelivers(tick: Tick, tail: seq<Input>)
    ensures var ins := [Timer(tick)] + tail;
            Deliver([], ins) == [Clock(tick)] + Deliver([], tail) && Segments(ins) == Segments(tail)
  {
    var ins := [Timer(tick)] + tail;
    assert ins[0] == Timer(tick) && ins[1..] == tail;
  }

  lemma TimersDeliver(rest: seq<Input>)
    ensures var ins := [Timer(Expire), Timer(TimerRun)] + rest;
            && Deliver([], ins) == [Clock(Expire), Clock(TimerRun)] + Deliver([], rest)
            && Segments(ins) == Segments(rest)
  {
    TimerDelivers(TimerRun, rest);
    TimerDelivers(Expire, [Timer(TimerRun)] + rest);
    Associative([Timer(Expire)], [Timer(TimerRun)], rest);
    Associative([Clock(Expire)], [Clock(TimerRun)], Deliver([], rest));
  }

  lemma {:induction false} ItemInputsDeliver(items: seq<Item>, rest: seq<Input>)
    requires AllSendable(items)
    ensures Deliver([], ItemInputs(items, rest)) == ItemEvents(items, Deliver([], rest))
    ensures Segments(ItemInputs(items, rest)) == ItemsFrames(items) + Segments(rest)
  {
    if items != [] {
      var more := ItemInputs(items[1..], rest);
      assert Sendable(items[0]);
      ItemInputsDeliver(items[1..], rest);
      ItemFramesAreFrames(items[0]);
      FramesDeliver(ItemFrames(items[0]), more);
      TimersDeliver(Arrivals(ItemFrames(items[0])) + more);
      Associative(ItemFrames(items[0]), ItemsFrames(items[1..]), Segments(rest));
    } else {
      assert [] + Segments(rest) == Segments(rest);
    }
  }

  lemma {:induction false} SessionInputsDeliver(alarms: seq<AlarmSession>)
    requires AllAnswerable(alarms)
    ensures Deliver([], SessionInputs(alarms)) == SessionEvents(alarms)
    ensures Segments(SessionInputs(alarms)) == SessionsFrames(alarms)
  {
    if alarms != [] {
      var a, more := alarms[0], SessionInputs(alarms[1..]);
      assert Answerable(a);
      SessionInputsDeliver(alarms[1..]);
      FrameHasShape(a.checksum, AlarmBody(a.head, a.fixed, a.media));
      SegmentDelivers(Report(a), ItemInputs(a.items, more));
      ItemInputsDeliver(a.items, more);
      Associative([Report(a)], ItemsFrames(a.items), SessionsFrames(alarms[1..]));
    }
  }

  /* ------------------------- every frame is written at once ------------------------- */

  function Prompt(ins: seq<Input>): seq<Wire.Input> {
    if ins == [] then []
    else [Wire.Local(ins[0])] + ([Wire.HandOver] + ([Wire.Completed(false)] + Prompt(ins[1..])))
  }

  lemma PromptInThree(ins: seq<Input>)
    requires ins != []
    ensures var all := Prompt(ins);
            && |all| >= 3 && all[0] == Wire.Local(ins[0]) && all[1..][0] == Wire.HandOver
            && all[1..][1..][0] == Wire.Completed(false) && all[1..][1..][1..] == Prompt(ins[1..])
  {
    var third := [Wire.Completed(false)] + Prompt(ins[1..]);
    var second := [Wire.HandOver] + third;
    assert Prompt(ins)[1..] == second && second[1..] == third && third[1..] == Prompt(ins[1..]);
  }

  // Everything passed on has been written.
  function Idle(frames: seq<seq<byte>>): Outbox.State {
    Outbox.State(true, [], [], [], frames, frames, frames)
  }

  function AllWritten(held: seq<byte>, s: State): Wire.System {
    Wire.System(held, s, Idle(Encodings(s.sent)))
  }

  lemma {:induction false} PromptReads(ins: seq<Input>)
    ensures Wire.Reads(Prompt(ins)) == Segments(ins)
  {
    if ins != [] {
      PromptReads(ins[1..]);
      PromptInThree(ins);
      var all := Prompt(ins);
      assert Wire.Reads(all[1..][1..]) == Wire.Reads(all[1..][1..][1..]);
      assert Wire.Reads(all[1..]) == Wire.Reads(all[1..][1..]);
    }
  }

  lemma RoundWrites(held: seq<byte>, s: State, input: Input)
    requires SystemStep(held, s, input).Some?
    ensures var r := SystemStep(held, s, input).value;
            var posted := Wire.Step(AllWritten(held, s), Wire.Local(input));
            && posted.Some?
            && var handed := Wire.Step(posted.value, Wire.HandOver);
            && handed.Some?
            && Wire.Step(handed.value, Wire.Completed(false)) == Some(AllWritten(r.0, r.1))
  {
    Wire.LocalSends(held, s, input);
    QueueRound(s, Wire.InputReceipts(held, input), SystemStep(held, s, input).value.1);
  }

  lemma QueueRound(s: State, receipts: seq<Receipt>, t: State)
    requires Sends(s, receipts, t)
    ensures var posted := Wire.PostNew(Idle(Encodings(s.sent)), s.sent, t.sent);
            Outbox.Step(Outbox.Step(posted, Outbox.HandOver), Outbox.Completed(false)) == Idle(Encodings(t.sent))
  {
    var frames := Encodings(s.sent);
    if body :| SendsBody(s, receipts, t, body) {
      Wire.PostsOne(Idle(frames), s.sent, body);
      EncodingsSnoc(s.sent, body);
      OneWrite(frames, Encode(body));
    } else {
      Wire.PostsNothing(Idle(frames), s.sent);
    }
  }

  lemma OneWrite(frames: seq<seq<byte>>, frame: seq<byte>)
    ensures var handed := Outbox.Step(Outbox.Step(Idle(frames), Outbox.Post(frame)), Outbox.HandOver);
            Outbox.Step(handed, Outbox.Completed(false)) == Idle(frames + [frame])
  {
    assert [frame][1..] == [];
  }

  lemma {:induction false} PromptIsAttentive(held: seq<byte>, s: State, ins: seq<Input>)
    requires Patient(s, Deliver(held, ins)) && Wired(s) && Conserved(s)
    ensures Wire.Attentive(AllWritten(held, s), Prompt(ins))
    decreases |ins|
  {
    if ins != [] {
      PatientInput(held, s, ins);
      var r := SystemStep(held, s, ins[0]);
      if r.Some? {
        RoundWrites(held, s, ins[0]);
        Wire.LocalSends(held, s, ins[0]);
        SendingWires(s, Wire.InputReceipts(held, ins[0]), r.value.1);
        PromptIsAttentive(r.value.0, r.value.1, ins[1..]);
      }
      AttentiveRound(held, s, ins);
    }
  }

  lemma PatientInput(held: seq<byte>, s: State, ins: seq<Input>)
    requires ins != [] && Patient(s, Deliver(held, ins))
    ensures Wire.MediaEvent(Wire.EventOf(held, ins[0])) ==> Outstanding(s) == 0
    ensures var r := SystemStep(held, s, ins[0]);
            r.Some? ==> Patient(r.value.1, Deliver(r.value.0, ins[1..]))
  {
    assert [ins[0]] + ins[1..] == ins;
    Wire.OneDelivered(held, ins[0], ins[1..]);
  }

  lemma AttentiveRound(held: seq<byte>, s: State, ins: seq<Input>)
    requires ins != [] && Wired(s) && Conserved(s)
    requires Wire.MediaEvent(Wire.EventOf(held, ins[0])) ==> Outstanding(s) == 0
    requires var r := SystemStep(held, s, ins[0]);
             r.Some? ==> Wire.Attentive(AllWritten(r.value.0, r.value.1), Prompt(ins[1..]))
    ensures Wire.Attentive(AllWritten(held, s), Prompt(ins))
  {
    PromptInThree(ins);
    var y, all := AllWritten(held, s), Prompt(ins);
    Wire.StepOfPart(y, all[0]);
    if SystemStep(held, s, ins[0]).Some? {
      RoundWrites(held, s, ins[0]);
      var posted := Wire.Step(y, all[0]).value;
      var handed := Wire.Step(posted, Wire.HandOver).value;
      assert Wire.Attentive(handed, all[1..][1..]);
      assert Wire.Attentive(posted, all[1..]);
    }
  }

  /**
   * For all alarms with all their items there are inputs under which the sensor waits for every request
   * frame, and a fresh connection turns them into exactly the files and the requests wanted.
   */
  lemma {:induction false} PoliteSensorIsServed(start: Sender, config: Config.Store, alarms: seq<AlarmSession>)
    requires AllAnswerable(alarms) && alarms != []
    ensures exists ins ::
              && Wire.Reads(ins) == SessionsFrames(alarms)
              && Wire.Attentive(Wire.Start(start, config), ins)
              && Wire.Run(Wire.Start(start, config), ins).Some?
              && var t := Wire.Run(Wire.Start(start, config), ins).value;
                 t.session.queue.saved == SessionsFiles(alarms) && WireRequests(t.queue.delivered) == Listed(alarms)
  {
    var s, ins := Fresh(start, config), SessionInputs(alarms);
    SessionInputsDeliver(alarms);
    SessionsAreFrames(alarms);
    WholeFramesCut(SessionsFrames(alarms));
    PatientSessions(s, alarms);
    assert AllWritten([], s) == Wire.Start(start, config);
    PromptIsAttentive([], s, ins);
    PromptReads(ins);
    Wire.FirstAlarms(start, config, Prompt(ins), alarms);
  }

  lemma WholeFramesCut(frames: seq<seq<byte>>)
    requires Frames(frames)
    ensures Cuts(frames, frames)
  {
    WholeFramesRespect(frames);
    forall i | 0 <= i < |frames| ensures frames[i] != [] { assert FrameShape(frames[i]); }
  }
}
