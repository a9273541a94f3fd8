/** The media timer in terms of its two counters: when a request has to wait, and for what. */
module MediaTimer {
  import opened Bytes
  import opened Sequences
  import opened Wrappers
  import opened Framing
  import opened Messages
  import opened Transfer
  import opened Session

  /* ------------------------- one step ------------------------- */

  // The waits that are left when the data handler has cancelled the timer, or as before.
  function LeftWaiting(s: State, m: Message): nat {
    if m.MediaData? then 0 else s.waiting
  }

  // A pop of a picture (type 0x00) or a video (0x02) cancels every earlier wait before it starts its own;
  // a pop of any other type leaves them waiting. No pop makes its own handler due.
  lemma MessageTimer(s: State, m: Message)
    requires Session.OnMessage(s, m).Some?
    ensures var t := Session.OnMessage(s, m).value;
            match PoppedBy(s.queue, m)
            case None => t.waiting == LeftWaiting(s, m) && t.waiting + t.due == s.waiting + s.due
            case Some(d) =>
              if d.mediaType == 0x00 || d.mediaType == 0x02
              then t.waiting == 1 && t.due == s.waiting + s.due
              else t.waiting == LeftWaiting(s, m) + 1 && t.waiting + t.due == s.waiting + s.due + 1
  {
    PopsAsForeseen(s.queue, m);
  }

  // Expiry makes every wait due; a run uses up one that was due and makes the others due; a heartbeat
  // does neither.
  lemma TickTimer(s: State, tick: Tick)
    ensures var t := OnTick(s, tick);
            match tick
            case Expire => t.waiting == 0 && t.due == s.waiting + s.due && t.requests == s.requests
            case TimerRun => if s.due == 0 then t == s else t.waiting == 0 && t.due == s.waiting + s.due - 1
            case Heartbeat(_) => t.waiting == s.waiting && t.due == s.due && t.requests == s.requests
  {
  }

  /* ------------------------- over runs ------------------------- */

  // A message that cancels the timer: a data packet, or an alarm whose first item is a picture or a video.
  predicate CancelsWaits(m: Message) {
    m.MediaData? || (m.Alarm? && m.media != [] && (m.media[0].mediaType == 0x00 || m.media[0].mediaType == 0x02))
  }

  predicate ChunkCancelsWaits(chunk: seq<byte>) {
    match ParseChunk(chunk)
    case None => false
    case Some(incoming) => CancelsWaits(incoming.message)
  }

  // The event ends a wait.
  predicate EndsWait(s: State, e: Event) {
    s.waiting > 0 && (match e case Chunk(bytes) => ChunkCancelsWaits(bytes) case Clock(tick) => tick.Expire?)
  }

  predicate NoWaitEnded(s: State, es: seq<Event>)
    decreases |es|
  {
    es == [] ||
    match Step(s, es[0])
    case None => true
    case Some(next) => !EndsWait(s, es[0]) && NoWaitEnded(next, es[1..])
  }

  // No handler is ever due.
  predicate NeverDue(s: State, es: seq<Event>)
    decreases |es|
  {
    s.due == 0 && (es == [] || match Step(s, es[0]) { case None => true case Some(next) => NeverDue(next, es[1..]) })
  }

  lemma DueAfterMessage(s: State, m: Message)
    requires s.due == 0 && Session.OnMessage(s, m).Some?
    ensures Session.OnMessage(s, m).value.due == 0 <==> !(s.waiting > 0 && CancelsWaits(m))
    ensures Session.OnMessage(s, m).value.requests == s.requests
  {
    MessageTimer(s, m);
    MessageEffect(s, m);
  }

  // From a state where no handler is due, one becomes due exactly by a step that ends a wait.
  lemma DueStep(s: State, e: Event)
    requires s.due == 0 && Step(s, e).Some?
    ensures Step(s, e).value.due == 0 <==> !EndsWait(s, e)
    ensures Step(s, e).value.requests == s.requests
  {
    match e
    case Chunk(bytes) =>
      var incoming := ParseChunk(bytes).value;
      DueAfterMessage(s.(sender := s.sender.(terminal := incoming.terminal)), incoming.message);
    case Clock(tick) => TickTimer(s, tick);
  }

  // No handler becomes due in a run exactly when nothing in it ends a wait; then no request is made,
  // whatever else happens and however often a handler run is tried.
  lemma {:induction false} RequestsWait(s: State, es: seq<Event>)
    requires s.due == 0
    ensures NeverDue(s, es) <==> NoWaitEnded(s, es)
    ensures NoWaitEnded(s, es) && Run(s, es).Some? ==>
              Run(s, es).value.requests == s.requests && Run(s, es).value.due == 0
    decreases |es|
  {
    if es != [] && Step(s, es[0]).Some? {
      var next := Step(s, es[0]).value;
      DueStep(s, es[0]);
      if next.due == 0 { RequestsWait(next, es[1..]); }
      else { NotNeverDue(next, es[1..]); }
    }
  }

  lemma NotNeverDue(s: State, es: seq<Event>)
    requires s.due != 0
    ensures !NeverDue(s, es)
  {
  }

  // At its input: an alarm that lists one item, on a fresh connection. One wait has been started, no
  // handler can run before it ends, and the run that follows expiry makes the request.
  lemma FirstRequestWaits(sender: Sender, config: Config.Store, c: byte, h: Sender, fixed: seq<byte>, a: Descriptor)
    requires |fixed| == 30 && (h.terminal == 0x64 || h.terminal == 0x65)
    ensures var r := Step(Fresh(sender, config), Chunk(AlarmFrame(c, h, fixed, [a])));
            && r.Some? && r.value.waiting == 1 && r.value.due == 0
            && OnTick(r.value, TimerRun) == r.value
            && OnTick(r.value, Expire).due == 1
            && OnTick(OnTick(r.value, Expire), TimerRun).requests == [a]
  {
    AlarmStep(Fresh(sender, config), c, h, fixed, [a]);
    assert [] + [a] == [a];
  }
}
