/** The whole connection, with its send queue: what the sensor gets to see. */
module Wire {
  import opened Bytes
  import opened Sequences
  import opened Wrappers
  import opened Framing
  import opened Messages
  import opened Transfer
  import opened Session
  import opened Reassembly
  import opened EndToEnd
  import Outbox
  import Config
  import MediaTimer
  import Settings

  datatype System = System(held: seq<byte>, session: State, queue: Outbox.State)

  // Local inputs reach the receiving side. Of the others, a posted frame is handed over to the outbox,
  // the write in flight completes, and the connection is stopped.
  datatype Input = Local(input: EndToEnd.Input) | HandOver | Completed(error: bool) | Close

  function PostAll(q: Outbox.State, bodies: seq<seq<byte>>): Outbox.State
    decreases |bodies|
  {
    if bodies == [] then q else PostAll(Outbox.Step(q, Outbox.Post(Encode(bodies[0]))), bodies[1..])
  }

  // What a history has gained.
  function Added(before: seq<seq<byte>>, after: seq<seq<byte>>): seq<seq<byte>> {
    if |before| <= |after| then after[|before|..] else []
  }

  // The bodies passed on in between are posted.
  function PostNew(q: Outbox.State, before: seq<seq<byte>>, after: seq<seq<byte>>): Outbox.State {
    PostAll(q, Added(before, after))
  }

  // The heartbeat does not send on a closed socket.
  predicate Skipped(y: System, input: EndToEnd.Input) {
    input.Timer? && input.tick.Heartbeat? && !y.queue.open
  }

  // Stopping, also after a failed write, cancels the media timer.
  function Step(y: System, i: Input): Option<System> {
    match i
    case Local(input) =>
      if Skipped(y, input) then Some(y)
      else (match SystemStep(y.held, y.session, input)
            case None => None
            case Some((held, t)) => Some(System(held, t, PostNew(y.queue, y.session.sent, t.sent))))
    case HandOver => Some(y.(queue := Outbox.Step(y.queue, Outbox.HandOver)))
    case Completed(error) =>
      var s := if error && y.queue.inFlight != [] then Release(y.session) else y.session;
      Some(System(y.held, s, Outbox.Step(y.queue, Outbox.Completed(error))))
    case Close => Some(System(y.held, Release(y.session), Outbox.Step(y.queue, Outbox.Close)))
  }

  function Run(y: System, ins: seq<Input>): Option<System>
    decreases |ins|
  {
    if ins == [] then Some(y)
    else match Step(y, ins[0])
      case None => None
      case Some(next) => Run(next, ins[1..])
  }

  function Start(sender: Sender, config: Config.Store): System {
    System([], Fresh(sender, config), Outbox.FRESH)
  }

  /* ------------------------- from requests to frames written ------------------------- */

  // The queue has accepted the frames of what has been passed on, all of them unless the socket has
  // been closed in between.
  ghost predicate Carries(q: Outbox.State, sent: seq<seq<byte>>) {
    && Outbox.Inv(q)
    && q.accepted <= Encodings(sent)
    && (q.open ==> q.accepted == Encodings(sent))
  }

  ghost predicate Linked(y: System) {
    Carries(y.queue, y.session.sent) && Wired(y.session) && Conserved(y.session)
  }

  predicate Drained(q: Outbox.State) {
    q.open && q.posted == [] && q.inFlight == []
  }

  lemma PostsNothing(q: Outbox.State, sent: seq<seq<byte>>)
    ensures PostNew(q, sent, sent) == q
  {
    assert Added(sent, sent) == [];
  }

  lemma PostsOne(q: Outbox.State, sent: seq<seq<byte>>, body: seq<byte>)
    ensures PostNew(q, sent, sent + [body]) == Outbox.Step(q, Outbox.Post(Encode(body)))
  {
    assert Added(sent, sent + [body]) == [body] && [body][1..] == [];
    assert PostAll(q, [body]) == PostAll(Outbox.Step(q, Outbox.Post(Encode(body))), []);
  }

  lemma SendingCarries(q: Outbox.State, s: State, receipts: seq<Receipt>, t: State)
    requires Carries(q, s.sent) && Sends(s, receipts, t)
    ensures Carries(PostNew(q, s.sent, t.sent), t.sent)
  {
    if body :| SendsBody(s, receipts, t, body) {
      PostsOne(q, s.sent, body);
      EncodingsSnoc(s.sent, body);
      Outbox.StepKeeps(q, Outbox.Post(Encode(body)));
    } else {
      PostsNothing(q, s.sent);
    }
  }

  lemma QueueStepCarries(q: Outbox.State, sent: seq<seq<byte>>, e: Outbox.Event)
    requires Carries(q, sent) && !e.Post?
    ensures Carries(Outbox.Step(q, e), sent)
  {
    Outbox.StepKeeps(q, e);
  }

  // The receipts of the data packets that an input hands over.
  function InputReceipts(held: seq<byte>, input: EndToEnd.Input): seq<Receipt> {
    match input
    case Timer(_) => []
    case Segment(bytes) => if Feed(held, bytes).0.Some? then ReceiptsIn(Feed(held, bytes).0.value) else []
  }

  lemma LocalSends(held: seq<byte>, s: State, input: EndToEnd.Input)
    requires SystemStep(held, s, input).Some?
    ensures var t := SystemStep(held, s, input).value.1;
            Sends(s, InputReceipts(held, input), t) && (Conserved(s) ==> Conserved(t))
  {
    match input
    case Timer(tick) =>
      StepSends(s, Clock(tick));
      if Conserved(s) { StepConserves(s, Clock(tick)); }
    case Segment(bytes) =>
      var chunk := Feed(held, bytes).0;
      if chunk.Some? {
        StepSends(s, Chunk(chunk.value));
        if Conserved(s) { StepConserves(s, Chunk(chunk.value)); }
      }
  }

  lemma StepLinks(y: System, i: Input)
    requires Linked(y) && Step(y, i).Some?
    ensures Linked(Step(y, i).value)
  {
    match i
    case Local(input) =>
      if !Skipped(y, input) {
        LocalSends(y.held, y.session, input);
        var t := SystemStep(y.held, y.session, input).value.1;
        SendingWires(y.session, InputReceipts(y.held, input), t);
        SendingCarries(y.queue, y.session, InputReceipts(y.held, input), t);
      }
    case HandOver => QueueStepCarries(y.queue, y.session.sent, Outbox.HandOver);
    case Completed(error) => QueueStepCarries(y.queue, y.session.sent, Outbox.Completed(error));
    case Close => QueueStepCarries(y.queue, y.session.sent, Outbox.Close);
  }

  lemma {:induction false} RunLinks(y: System, ins: seq<Input>)
    requires Linked(y) && Run(y, ins).Some?
    ensures Linked(Run(y, ins).value)
    decreases |ins|
  {
    if ins != [] {
      StepLinks(y, ins[0]);
      RunLinks(Step(y, ins[0]).value, ins[1..]);
    }
  }

  // The requests that can be read off the frames written are a prefix of the requests made; they are
  // all of them once an open queue has been drained.
  lemma WrittenRequests(y: System)
    requires Linked(y)
    ensures WireRequests(y.queue.delivered) <= y.session.requests
    ensures Drained(y.queue) ==>
              y.queue.delivered == Encodings(y.session.sent) && WireRequests(y.queue.delivered) == y.session.requests
  {
    var q := y.queue;
    assert q.delivered <= q.popped <= q.accepted;
    WireRequestsPrefix(q.delivered, Encodings(y.session.sent));
  }

  // In every run from the start, with errors, closing and heartbeats anywhere.
  lemma {:induction false} RequestsReachTheWire(sender: Sender, config: Config.Store, ins: seq<Input>)
    requires Run(Start(sender, config), ins).Some?
    ensures var y := Run(Start(sender, config), ins).value;
            && y.queue.delivered <= y.queue.accepted <= Encodings(y.session.sent)
            && (y.queue.open ==> y.queue.accepted == Encodings(y.session.sent))
            && WireRequests(y.queue.delivered) <= y.session.requests
            && (Drained(y.queue) ==> WireRequests(y.queue.delivered) == y.session.requests)
  {
    RunLinks(Start(sender, config), ins);
    var y := Run(Start(sender, config), ins).value;
    WrittenRequests(y);
    assert y.queue.delivered <= y.queue.popped <= y.queue.accepted;
  }

  /* ------------------------- the receiving side alone ------------------------- */

  function Reads(ins: seq<Input>): seq<seq<byte>> {
    if ins == [] then []
    else (if ins[0].Local? && ins[0].input.Segment? then [ins[0].input.bytes] else []) + Reads(ins[1..])
  }

  // What an input means to the receiving side.
  function LocalPart(y: System, i: Input): seq<EndToEnd.Input> {
    match i
    case Local(input) => if Skipped(y, input) then [] else [input]
    case HandOver => []
    case Completed(error) => if error && y.queue.inFlight != [] then [Timer(Expire)] else []
    case Close => [Timer(Expire)]
  }

  function LocalParts(y: System, ins: seq<Input>): seq<EndToEnd.Input>
    decreases |ins|
  {
    if ins == [] then []
    else LocalPart(y, ins[0]) +
         match Step(y, ins[0])
         case None => Arrivals(Reads(ins[1..]))
         case Some(next) => LocalParts(next, ins[1..])
  }

  lemma {:induction false} SegmentsConcat(a: seq<EndToEnd.Input>, b: seq<EndToEnd.Input>)
    ensures Segments(a + b) == Segments(a) + Segments(b)
  {
    if a == [] {
      assert a + b == b;
    } else {
      SegmentsConcat(a[1..], b);
      ConsConcat(a, b);
      Associative(if a[0].Segment? then [a[0].bytes] else [], Segments(a[1..]), Segments(b));
    }
  }

  lemma LocalPartReads(y: System, i: Input)
    ensures Segments(LocalPart(y, i)) == if i.Local? && i.input.Segment? then [i.input.bytes] else []
  {
    var part := LocalPart(y, i);
    if part != [] { assert part[1..] == []; }
  }

  lemma {:induction false} LocalPartsRead(y: System, ins: seq<Input>)
    ensures Segments(LocalParts(y, ins)) == Reads(ins)
    decreases |ins|
  {
    if ins != [] {
      LocalPartReads(y, ins[0]);
      match Step(y, ins[0])
      case None =>
        SegmentsConcat(LocalPart(y, ins[0]), Arrivals(Reads(ins[1..])));
        ArrivalsDeliver([], Reads(ins[1..]));
      case Some(next) =>
        SegmentsConcat(LocalPart(y, ins[0]), LocalParts(next, ins[1..]));
        LocalPartsRead(next, ins[1..]);
    }
  }

  // The receiving side of a run.
  lemma {:induction false} RunProjects(y: System, ins: seq<Input>)
    ensures SystemRun(y.held, y.session, LocalParts(y, ins)) ==
            match Run(y, ins) { case None => None case Some(t) => Some((t.held, t.session)) }
    decreases |ins|
  {
    if ins != [] {
      var part := LocalPart(y, ins[0]);
      match Step(y, ins[0])
      case None =>
        OneFirst(y, part, Arrivals(Reads(ins[1..])));
      case Some(next) =>
        var more := LocalParts(next, ins[1..]);
        RunProjects(next, ins[1..]);
        OneFirst(y, part, more);
    }
  }

  lemma OneFirst(y: System, part: seq<EndToEnd.Input>, more: seq<EndToEnd.Input>)
    ensures part == [] ==> part + more == more
    ensures |part| == 1 ==>
              SystemRun(y.held, y.session, part + more) ==
              match SystemStep(y.held, y.session, part[0])
              case None => None
              case Some((h, t)) => SystemRun(h, t, more)
  {
    if |part| == 1 { assert (part + more)[0] == part[0] && (part + more)[1..] == more; }
  }

  // When every handler has run and the open queue has been drained, the sensor has read a request for
  // each item popped, once and in order, exactly if the run was undisturbed.
  lemma ReadRequestsIff(sender: Sender, config: Config.Store, ins: seq<Input>)
    requires Run(Start(sender, config), ins).Some?
    requires var t := Run(Start(sender, config), ins).value; Drained(t.queue) && Outstanding(t.session) == 0
    ensures var y := Start(sender, config);
            var t := Run(y, ins).value;
            WireRequests(t.queue.delivered) == t.session.queue.popped <==>
            Undisturbed(y.session, Deliver([], LocalParts(y, ins)))
  {
    var y := Start(sender, config);
    RequestsReachTheWire(sender, config, ins);
    RunProjects(y, ins);
    RunDelivers([], y.session, LocalParts(y, ins));
    RequestedOnceIff(y.session, Deliver([], LocalParts(y, ins)));
  }

  // In every run from the start, the acknowledgements that can be read off the frames written are a
  // prefix of the data packets received, and all of them once an open queue has been drained.
  lemma AcksReachTheWire(sender: Sender, config: Config.Store, ins: seq<Input>)
    requires Run(Start(sender, config), ins).Some?
    ensures var q := Run(Start(sender, config), ins).value.queue;
            var received := Receipts(FeedAll([], Reads(ins)).0);
            && WireAcks(q.delivered) <= received
            && (Drained(q) ==> WireAcks(q.delivered) == received)
  {
    var y := Start(sender, config);
    var locals, t := LocalParts(y, ins), Run(y, ins).value;
    RunLinks(y, ins);
    WrittenRequests(t);
    RunProjects(y, ins);
    RunDelivers([], y.session, locals);
    LocalPartsRead(y, ins);
    DeliveredChunks([], locals);
    AcksOnTheWire(y.session, Deliver([], locals));
    assert t.queue.delivered <= t.queue.popped <= t.queue.accepted;
    WireAcksPrefix(t.queue.delivered, Encodings(t.session.sent));
    var received := Receipts(FeedAll([], Reads(ins)).0);
    assert WireAcks(Encodings([])) + received == received;
  }

  // Which files hold only their own media, for the whole connection and whatever happens to its queue.
  lemma FilesHoldTheirMedia(y: System, ins: seq<Input>)
    requires Run(y, ins).Some?
    ensures FilesPure(Run(y, ins).value.session.queue) <==>
            FilesPure(y.session.queue) && AllForCurrent(y.session.queue, FeedAll(y.held, Reads(ins)).0)
  {
    LocalPartsRead(y, ins);
    RunProjects(y, ins);
    FilesHoldTheirMediaOverTheWire(y.held, y.session, LocalParts(y, ins));
  }

  // When no handler is due and nothing in the run ends a wait, stopping included, no request is made and
  // none is written but those made before.
  lemma RequestsWait(y: System, ins: seq<Input>)
    requires Linked(y) && y.session.due == 0 && Run(y, ins).Some?
    requires MediaTimer.NoWaitEnded(y.session, Deliver(y.held, LocalParts(y, ins)))
    ensures var t := Run(y, ins).value;
            t.session.requests == y.session.requests && WireRequests(t.queue.delivered) <= y.session.requests
  {
    RunLinks(y, ins);
    WrittenRequests(Run(y, ins).value);
    RunProjects(y, ins);
    RunDelivers(y.held, y.session, LocalParts(y, ins));
    MediaTimer.RequestsWait(y.session, Deliver(y.held, LocalParts(y, ins)));
  }

  // In every run from the start, the configurations that can be read off the frames written are one per
  // status report of a known sensor, in order, for a first part of the reports; for all of them once an
  // open queue has been drained.
  lemma ConfigsReachTheWire(sender: Sender, config: Config.Store, ins: seq<Input>)
    requires Config.InRange(config) && Run(Start(sender, config), ins).Some?
    ensures var q := Run(Start(sender, config), ins).value.queue;
            var read := Settings.WireConfigs(q.delivered);
            var dues := Settings.DueIn(Fresh(sender, config), Deliver([], LocalParts(Start(sender, config), ins)));
            && |read| <= |dues| && Settings.AllAnswered(read, dues[..|read|])
            && (Drained(q) ==> |read| == |dues|)
  {
    var y := Start(sender, config);
    var events, t := Deliver([], LocalParts(y, ins)), Run(y, ins).value;
    RunLinks(y, ins);
    WrittenRequests(t);
    RunProjects(y, ins);
    RunDelivers([], y.session, LocalParts(y, ins));
    Settings.ReportsAreAnswered(y.session, events, []);
    assert [] + Settings.DueIn(y.session, events) == Settings.DueIn(y.session, events);
    assert t.queue.delivered <= t.queue.popped <= t.queue.accepted;
    Settings.FirstAnswers(t.queue.delivered, Encodings(t.session.sent), Settings.DueIn(y.session, events));
  }

  /* ------------------------- closing ------------------------- */

  // Stopping closes the socket and makes every wait due; nothing else changes.
  lemma StoppingStops(y: System)
    ensures var r := Step(y, Close);
            && r.Some? && !r.value.queue.open && r.value.queue == y.queue.(open := false)
            && r.value.session == y.session.(waiting := 0, due := y.session.waiting + y.session.due)
            && r.value.held == y.held
  {
  }

  // So does a write that fails.
  lemma FailedWriteStops(y: System)
    requires Outbox.Inv(y.queue) && y.queue.inFlight != []
    ensures var r := Step(y, Completed(true));
            && r.Some? && !r.value.queue.open && r.value.queue.delivered == y.queue.delivered
            && r.value.session == y.session.(waiting := 0, due := y.session.waiting + y.session.due)
            && r.value.held == y.held
  {
  }

  lemma ClosedHeartbeat(y: System, time: Time)
    requires !y.queue.open
    ensures Step(y, Local(Timer(Heartbeat(time)))) == Some(y)
  {
  }

  lemma {:induction false} PostingClosed(q: Outbox.State, bodies: seq<seq<byte>>)
    requires !q.open
    ensures PostAll(q, bodies) == q
    decreases |bodies|
  {
    if bodies != [] { PostingClosed(q, bodies[1..]); }
  }

  // Nothing is accepted for writing and no write is started once the socket is closed.
  lemma ClosedStep(y: System, i: Input)
    requires !y.queue.open && Outbox.Inv(y.queue) && Step(y, i).Some?
    ensures var q := Step(y, i).value.queue;
            && !q.open && q.accepted == y.queue.accepted
            && q.delivered + q.inFlight <= y.queue.delivered + y.queue.inFlight
  {
    match i
    case Local(input) =>
      if !Skipped(y, input) {
        PostingClosed(y.queue, Added(y.session.sent, SystemStep(y.held, y.session, input).value.1.sent));
      }
    case HandOver => Outbox.ClosedStep(y.queue, Outbox.HandOver);
    case Completed(error) => Outbox.ClosedStep(y.queue, Outbox.Completed(error));
    case Close => Outbox.ClosedStep(y.queue, Outbox.Close);
  }

  lemma {:induction false} ClosedRun(y: System, ins: seq<Input>)
    requires !y.queue.open && Linked(y) && Run(y, ins).Some?
    ensures var q := Run(y, ins).value.queue;
            && !q.open && q.accepted == y.queue.accepted
            && q.delivered + q.inFlight <= y.queue.delivered + y.queue.inFlight
    decreases |ins|
  {
    if ins != [] {
      ClosedStep(y, ins[0]);
      StepLinks(y, ins[0]);
      ClosedRun(Step(y, ins[0]).value, ins[1..]);
    }
  }

  lemma {:induction false} RunAppend(y: System, a: seq<Input>, b: seq<Input>)
    ensures Run(y, a + b) == match Run(y, a) { case None => None case Some(t) => Run(t, b) }
    decreases |a|
  {
    if a == [] {
      assert a + b == b;
    } else {
      ConsConcat(a, b);
      var next := Step(y, a[0]);
      if next.Some? { RunAppend(next.value, a[1..], b); }
    }
  }

  // Whatever happens after the connection has been stopped, the cancelled handlers that still run included:
  // nothing more is accepted for writing, and at most the write under way completes.
  lemma AfterClosing(y: System, a: seq<Input>, b: seq<Input>)
    requires Linked(y) && Run(y, a + ([Close] + b)).Some?
    ensures Run(y, a).Some?
    ensures var before, after := Run(y, a).value.queue, Run(y, a + ([Close] + b)).value.queue;
            && !after.open && after.accepted == before.accepted
            && after.delivered + after.inFlight <= before.delivered + before.inFlight
  {
    RunAppend(y, a, [Close] + b);
    var t := Run(y, a).value;
    assert ([Close] + b)[1..] == b;
    RunLinks(y, a);
    StoppingStops(t);
    StepLinks(t, Close);
    ClosedRun(Step(t, Close).value, b);
  }

  /* ------------------------- a sensor that waits for the frames ------------------------- */

  // The frames written carry as many requests as items have been popped. Since they are a prefix of the
  // requests made, and these are never more than the items popped, no request is then still to come.
  predicate AllAsked(y: System) {
    |WireRequests(y.queue.delivered)| >= |y.session.queue.popped|
  }

  // The sensor reports alarms and sends data only when it has been sent as many requests as items have
  // been popped.
  predicate Attentive(y: System, ins: seq<Input>)
    decreases |ins|
  {
    ins == [] ||
    (&& (CompletesMedia(y, ins[0]) ==> AllAsked(y))
     && match Step(y, ins[0])
        case None => true
        case Some(next) => Attentive(next, ins[1..]))
  }

  predicate CompletesMedia(y: System, i: Input) {
    && i.Local? && i.input.Segment?
    && match Feed(y.held, i.input.bytes).0 { case None => false case Some(chunk) => IsMedia(chunk) }
  }

  lemma AskedMeansIdle(y: System)
    requires Linked(y) && AllAsked(y)
    ensures Outstanding(y.session) == 0
    ensures WireRequests(y.queue.delivered) == y.session.requests
  {
    WrittenRequests(y);
  }

  lemma {:induction false} AttentiveIsPatient(y: System, ins: seq<Input>)
    requires Linked(y) && Attentive(y, ins)
    ensures Patient(y.session, Deliver(y.held, LocalParts(y, ins)))
    decreases |ins|
  {
    if ins != [] {
      var part := LocalPart(y, ins[0]);
      if CompletesMedia(y, ins[0]) { AskedMeansIdle(y); }
      StepOfPart(y, ins[0]);
      match Step(y, ins[0])
      case None =>
        PatientFront(y.held, y.session, part[0], Arrivals(Reads(ins[1..])));
      case Some(next) =>
        var more := LocalParts(next, ins[1..]);
        StepLinks(y, ins[0]);
        AttentiveIsPatient(next, ins[1..]);
        if part == [] {
          assert part + more == more;
        } else {
          PatientFront(y.held, y.session, part[0], more);
        }
    }
  }

  // A step of the whole is a step of the receiving side, or none.
  lemma StepOfPart(y: System, i: Input)
    ensures var part := LocalPart(y, i);
            match Step(y, i)
            case None => part == [part[0]] && SystemStep(y.held, y.session, part[0]).None?
            case Some(next) =>
              if part == [] then next.held == y.held && next.session == y.session
              else part == [part[0]] && SystemStep(y.held, y.session, part[0]) == Some((next.held, next.session))
    ensures CompletesMedia(y, i) <==>
              LocalPart(y, i) != [] && MediaEvent(EventOf(y.held, LocalPart(y, i)[0]))
  {
  }

  predicate MediaEvent(es: seq<Event>) {
    es != [] && es[0].Chunk? && IsMedia(es[0].bytes)
  }

  lemma PatientFront(held: seq<byte>, s: State, input: EndToEnd.Input, more: seq<EndToEnd.Input>)
    requires MediaEvent(EventOf(held, input)) ==> Outstanding(s) == 0
    ensures var r := SystemStep(held, s, input);
            (r.Some? ==> Patient(r.value.1, Deliver(r.value.0, more))) ==> Patient(s, Deliver(held, [input] + more))
  {
    OneDelivered(held, input, more);
  }

  // One input in front means at most one event in front.
  function EventOf(held: seq<byte>, input: EndToEnd.Input): seq<Event> {
    match input
    case Timer(tick) => [Clock(tick)]
    case Segment(bytes) => if Feed(held, bytes).0.Some? then [Chunk(Feed(held, bytes).0.value)] else []
  }

  function HeldAfter(held: seq<byte>, input: EndToEnd.Input): seq<byte> {
    match input
    case Timer(tick) => held
    case Segment(bytes) => Feed(held, bytes).1
  }

  lemma OneDelivered(held: seq<byte>, input: EndToEnd.Input, more: seq<EndToEnd.Input>)
    ensures var events := Deliver(held, [input] + more);
            var rest := Deliver(HeldAfter(held, input), more);
            if EventOf(held, input) == [] then events == rest
            else events != [] && events[0] == EventOf(held, input)[0] && events[1..] == rest
  {
    assert ([input] + more)[0] == input && ([input] + more)[1..] == more;
  }

  // That many requests have been written, or nothing of the last item popped has arrived.
  ghost predicate Fulfilled(y: System) {
    AllAsked(y) || NewFile(y.session.queue)
  }

  lemma FulfilledStep(y: System, i: Input)
    requires Linked(y) && Fulfilled(y) && Step(y, i).Some?
    requires CompletesMedia(y, i) ==> AllAsked(y)
    ensures Fulfilled(Step(y, i).value)
  {
    var next := Step(y, i).value;
    DeliveredGrows(y, i);
    WireRequestsPrefix(y.queue.delivered, next.queue.delivered);
    if i.Local? && i.input.Segment? {
      var chunk := Feed(y.held, i.input.bytes).0;
      if chunk.Some? {
        StepEffect(y.session, Chunk(chunk.value));
        ChunkQueue(y.session, chunk.value);
      }
    }
  }

  lemma DeliveredGrows(y: System, i: Input)
    requires Step(y, i).Some?
    ensures y.queue.delivered <= Step(y, i).value.queue.delivered
  {
    if i.Local? && !Skipped(y, i.input) {
      var t := SystemStep(y.held, y.session, i.input).value.1;
      PostingDelivers(y.queue, Added(y.session.sent, t.sent));
    }
  }

  lemma {:induction false} PostingDelivers(q: Outbox.State, bodies: seq<seq<byte>>)
    ensures PostAll(q, bodies).delivered == q.delivered
    decreases |bodies|
  {
    if bodies != [] { PostingDelivers(Outbox.Step(q, Outbox.Post(Encode(bodies[0]))), bodies[1..]); }
  }

  lemma {:induction false} FulfilledRun(y: System, ins: seq<Input>)
    requires Linked(y) && Fulfilled(y) && Attentive(y, ins) && Run(y, ins).Some?
    ensures Fulfilled(Run(y, ins).value)
    decreases |ins|
  {
    if ins != [] {
      StepLinks(y, ins[0]);
      FulfilledStep(y, ins[0]);
      FulfilledRun(Step(y, ins[0]).value, ins[1..]);
    }
  }

  /* ------------------------- alarms, seen by the sensor ------------------------- */

  // What AlarmsOverTheWire says, for the whole connection: whatever happens to the send queue.
  lemma AlarmsReceived(y: System, ins: seq<Input>, alarms: seq<AlarmSession>)
    requires AllAnswerable(alarms) && y.held == [] && Cuts(Reads(ins), SessionsFrames(alarms))
    ensures Run(y, ins).Some?
    ensures var t := Run(y, ins).value; t.held == [] && Finished(y.session.queue, t.session.queue, alarms)
  {
    LocalPartsRead(y, ins);
    RunProjects(y, ins);
    AlarmsOverTheWire(y.session, LocalParts(y, ins), alarms);
  }

  /**
   * If the sensor reports and sends only when no timer handler is outstanding, every descriptor of every
   * alarm is requested exactly once, in order. The requests it reads off the frames written are a prefix
   * of these, and all of them once the queue has been drained with the socket still open.
   */
  lemma {:induction false} AlarmsRequested(y: System, ins: seq<Input>, alarms: seq<AlarmSession>)
    requires AllAnswerable(alarms) && alarms != []
    requires y.held == [] && Cuts(Reads(ins), SessionsFrames(alarms))
    requires Linked(y) && Served(y.session) && Patient(y.session, Deliver([], LocalParts(y, ins)))
    ensures Run(y, ins).Some?
    ensures var t := Run(y, ins).value;
            && t.held == [] && Linked(t) && Served(t.session) && Outstanding(t.session) == 0
            && t.session.requests == y.session.queue.popped + Listed(alarms)
            && WireRequests(t.queue.delivered) <= t.session.requests
            && (Drained(t.queue) ==> WireRequests(t.queue.delivered) == t.session.requests)
  {
    AlarmsReceived(y, ins, alarms);
    RunProjects(y, ins);
    RunDelivers([], y.session, LocalParts(y, ins));
    RequestedExactlyOnce(y.session, Deliver([], LocalParts(y, ins)));
    RunLinks(y, ins);
    var t := Run(y, ins).value;
    WrittenRequests(t);
    assert t.session.requests + Owed(t.session) == t.session.requests;
  }

  /**
   * If the sensor reports and sends only when it has been sent the requests for all items so far, the
   * requests it has read off the frames written by the end are exactly the items it listed, whatever
   * else is still queued and whether or not the socket is still open.
   */
  lemma {:induction false} AlarmsAnswered(y: System, ins: seq<Input>, alarms: seq<AlarmSession>)
    requires AllAnswerable(alarms) && alarms != []
    requires y.held == [] && Cuts(Reads(ins), SessionsFrames(alarms))
    requires Linked(y) && Served(y.session) && Fulfilled(y) && Attentive(y, ins)
    ensures Run(y, ins).Some?
    ensures var t := Run(y, ins).value;
            && t.held == [] && Linked(t) && Served(t.session) && Fulfilled(t)
            && WireRequests(t.queue.delivered) == y.session.queue.popped + Listed(alarms)
  {
    AttentiveIsPatient(y, ins);
    AlarmsReceived(y, ins, alarms);
    AlarmsRequested(y, ins, alarms);
    FulfilledRun(y, ins);
    AskedMeansIdle(Run(y, ins).value);
  }

  // The first alarms of a connection, read as what the sensor and the disk see.
  lemma {:induction false} FirstAlarms(start: Sender, config: Config.Store, ins: seq<Input>, alarms: seq<AlarmSession>)
    requires AllAnswerable(alarms) && alarms != [] && Cuts(Reads(ins), SessionsFrames(alarms))
    requires Attentive(Start(start, config), ins)
    ensures Run(Start(start, config), ins).Some?
    ensures var t := Run(Start(start, config), ins).value;
            && t.session.queue.saved == SessionsFiles(alarms) && t.session.queue.abandoned == []
            && WireRequests(t.queue.delivered) == Listed(alarms)
  {
    var y := Start(start, config);
    AlarmsReceived(y, ins, alarms);
    AlarmsAnswered(y, ins, alarms);
    assert [] + SessionsFiles(alarms) == SessionsFiles(alarms) && [] + Listed(alarms) == Listed(alarms);
  }
}
