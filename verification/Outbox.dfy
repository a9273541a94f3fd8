/** The single-writer send queue: posted hand-overs, the outbox, and the write in flight. */
module Outbox {
  import opened Bytes
  import opened Sequences

  type WireFrame = seq<byte>

  /**
   * posted are the frames whose hand-over to the strand is still to run, outbox is _outbox, inFlight
   * lists the asynchronous writes started and not yet completed. accepted, popped and delivered are
   * history: frames posted while the socket was open, frames popped, and frames written without error.
   */
  datatype State = State(
    open: bool,
    posted: seq<WireFrame>,
    outbox: seq<WireFrame>,
    inFlight: seq<WireFrame>,
    accepted: seq<WireFrame>,
    popped: seq<WireFrame>,
    delivered: seq<WireFrame>)

  datatype Event = Post(frame: WireFrame) | HandOver | Completed(error: bool) | Close

  const FRESH: State := State(true, [], [], [], [], [], [])

  // packetwrite(): a write of the front element, if the socket is open.
  function StartWrite(s: State): State
    requires s.outbox != []
  {
    if s.open then s.(inFlight := s.inFlight + [s.outbox[0]]) else s
  }

  // packetwrite_impl: only the first element of an empty outbox starts a write.
  function OnHandOver(s: State): State
    requires s.posted != []
  {
    var t := s.(posted := s.posted[1..], outbox := s.outbox + [s.posted[0]]);
    if |t.outbox| > 1 then t else StartWrite(t)
  }

  function OnCompleted(s: State, error: bool): State
    requires s.outbox != [] && s.inFlight != []
  {
    var t := s.(outbox := s.outbox[1..],
                popped := s.popped + [s.outbox[0]],
                inFlight := s.inFlight[1..],
                delivered := if error then s.delivered else s.delivered + [s.inFlight[0]]);
    if error then t.(open := false)
    else if t.outbox != [] then StartWrite(t)
    else t
  }

  // An event that is not possible leaves the state alone.
  function Step(s: State, e: Event): State {
    match e
    case Post(f) => if s.open then s.(posted := s.posted + [f], accepted := s.accepted + [f]) else s
    case HandOver => if s.posted == [] then s else OnHandOver(s)
    case Completed(error) => if s.inFlight == [] || s.outbox == [] then s else OnCompleted(s, error)
    case Close => s.(open := false)
  }

  function Run(s: State, es: seq<Event>): State
    decreases |es|
  {
    if es == [] then s else Run(Step(s, es[0]), es[1..])
  }

  // The frames posted, in order.
  function Posts(es: seq<Event>): seq<WireFrame> {
    if es == [] then [] else (if es[0].Post? then [es[0].frame] else []) + Posts(es[1..])
  }

  // At most one write, of the front element; nothing lost or reordered; the outbox moves as long as
  // the socket is open; what was delivered is a prefix of what was accepted.
  ghost predicate Inv(s: State) {
    && (s.inFlight == [] || (s.outbox != [] && s.inFlight == [s.outbox[0]]))
    && s.popped + s.outbox + s.posted == s.accepted
    && (s.open ==> (s.outbox != [] <==> s.inFlight != []))
    && (s.delivered == s.popped
        || (!s.open && s.inFlight == [] && s.popped != [] && s.delivered == s.popped[..|s.popped| - 1]))
  }

  lemma HandOverKeeps(s: State)
    requires Inv(s) && s.posted != []
    ensures Inv(OnHandOver(s))
  {
    var t := OnHandOver(s);
    assert [s.posted[0]] + s.posted[1..] == s.posted;
    Associative(s.outbox, [s.posted[0]], s.posted[1..]);
    Associative(s.popped, s.outbox, s.posted);
    Associative(s.popped, t.outbox, t.posted);
  }

  lemma CompletedKeeps(s: State, error: bool)
    requires Inv(s) && s.outbox != [] && s.inFlight != []
    ensures Inv(OnCompleted(s, error))
  {
    var t := OnCompleted(s, error);
    Associative(s.popped, [s.outbox[0]], s.outbox[1..]);
    assert [s.outbox[0]] + s.outbox[1..] == s.outbox;
    assert t.popped[..|t.popped| - 1] == s.popped;
    assert s.inFlight[1..] == [];
  }

  lemma StepKeeps(s: State, e: Event)
    requires Inv(s)
    ensures Inv(Step(s, e))
  {
    match e
    case Post(f) => if s.open { Associative(s.popped + s.outbox, s.posted, [f]); }
    case HandOver => if s.posted != [] { HandOverKeeps(s); }
    case Completed(error) => if s.inFlight != [] && s.outbox != [] { CompletedKeeps(s, error); }
    case Close =>
  }

  lemma HistoryGrows(s: State, e: Event)
    ensures s.accepted <= Step(s, e).accepted && s.popped <= Step(s, e).popped
  {
  }

  lemma {:induction false} SingleWriterFifo(s: State, es: seq<Event>)
    requires Inv(s)
    ensures Inv(Run(s, es))
    ensures s.accepted <= Run(s, es).accepted && s.popped <= Run(s, es).popped
    decreases |es|
  {
    if es != [] {
      var next := Step(s, es[0]);
      StepKeeps(s, es[0]);
      HistoryGrows(s, es[0]);
      SingleWriterFifo(next, es[1..]);
    }
  }

  // Whatever is posted, handed over, completed or closed, in whatever order.
  lemma FifoFromStart(es: seq<Event>)
    ensures var s := Run(FRESH, es);
            && |s.inFlight| <= 1 && s.inFlight <= s.outbox
            && s.popped + s.outbox + s.posted == s.accepted
            && (s.open ==> (s.outbox != [] <==> s.inFlight != []))
            && s.delivered <= s.accepted
  {
    SingleWriterFifo(FRESH, es);
    var s := Run(FRESH, es);
    assert s.delivered <= s.popped;
    assert s.accepted[..|s.popped|] == s.popped;
    assert s.accepted[..|s.delivered|] == s.popped[..|s.delivered|];
  }

  // Frames are accepted as posted, until the socket is closed.
  lemma {:induction false} AcceptedArePosts(s: State, es: seq<Event>)
    ensures var t := Run(s, es);
            && s.accepted <= t.accepted <= s.accepted + Posts(es)
            && (t.open ==> t.accepted == s.accepted + Posts(es))
    decreases |es|
  {
    if es != [] {
      var next := Step(s, es[0]);
      AcceptedArePosts(next, es[1..]);
      if es[0].Post? {
        Associative(s.accepted, [es[0].frame], Posts(es[1..]));
        if !s.open { ClosedStaysClosed(next, es[1..]); }
      }
    }
  }

  // On a closed socket nothing is accepted any more and no write is started: what has been delivered,
  // followed by what is still in flight, is at most what it was.
  lemma {:induction false} ClosedStaysClosed(s: State, es: seq<Event>)
    requires !s.open
    ensures !Run(s, es).open && Run(s, es).accepted == s.accepted
    ensures Inv(s) ==> Run(s, es).delivered + Run(s, es).inFlight <= s.delivered + s.inFlight
    decreases |es|
  {
    if es != [] {
      var next := Step(s, es[0]);
      ClosedStep(s, es[0]);
      ClosedStaysClosed(next, es[1..]);
      if Inv(s) { StepKeeps(s, es[0]); }
    }
  }

  lemma ClosedStep(s: State, e: Event)
    requires !s.open
    ensures var t := Step(s, e);
            !t.open && t.accepted == s.accepted && (Inv(s) ==> t.delivered + t.inFlight <= s.delivered + s.inFlight)
  {
    if Inv(s) && e.Completed? && s.inFlight != [] {
      assert s.inFlight == [s.inFlight[0]] && s.inFlight[1..] == [];
      assert s.delivered + [] == s.delivered;
    }
  }

  // Closing closes, and touches nothing else.
  lemma ClosingCloses(s: State)
    ensures var t := Step(s, Close);
            && !t.open
            && t.posted == s.posted && t.outbox == s.outbox && t.inFlight == s.inFlight
            && t.accepted == s.accepted && t.popped == s.popped && t.delivered == s.delivered
  {
  }

  lemma {:induction false} RunAppend(s: State, a: seq<Event>, b: seq<Event>)
    ensures Run(s, a + b) == Run(Run(s, a), b)
    decreases |a|
  {
    if a == [] {
      assert a + b == b;
    } else {
      ConsConcat(a, b);
      RunAppend(Step(s, a[0]), a[1..], b);
    }
  }

  // Whatever happens after closing, nothing more is accepted, and at most the write under way completes.
  lemma AfterClosing(s: State, a: seq<Event>, b: seq<Event>)
    requires Inv(s)
    ensures var before, after := Run(s, a), Run(s, a + [Close] + b);
            && !after.open && after.accepted == before.accepted
            && after.delivered + after.inFlight <= before.delivered + before.inFlight
  {
    RunAppend(s, a + [Close], b);
    RunAppend(s, a, [Close]);
    assert [Close][1..] == [];
    var closed := Step(Run(s, a), Close);
    assert Run(Run(s, a), [Close]) == closed;
    ClosingCloses(Run(s, a));
    SingleWriterFifo(s, a);
    StepKeeps(Run(s, a), Close);
    ClosedStaysClosed(closed, b);
  }

  // What has been written without error is a prefix of what has been posted, in the order posted.
  lemma DeliveredInPostingOrder(es: seq<Event>)
    ensures Run(FRESH, es).delivered <= Posts(es)
  {
    FifoFromStart(es);
    AcceptedArePosts(FRESH, es);
    assert [] + Posts(es) == Posts(es);
  }

  // Once everything posted has been handed over and every write has completed without an error or a
  // close, everything accepted has been delivered.
  lemma DrainedMeansDelivered(es: seq<Event>)
    requires var s := Run(FRESH, es); s.open && s.posted == [] && s.inFlight == []
    ensures var s := Run(FRESH, es); s.delivered == Posts(es) && s.outbox == []
  {
    SingleWriterFifo(FRESH, es);
    AcceptedArePosts(FRESH, es);
    assert [] + Posts(es) == Posts(es);
    var s := Run(FRESH, es);
    assert s.popped + [] + [] == s.popped;
  }

  /** The send queue of a connection. */
  class SendQueue {
    var open: bool
    var posted: seq<WireFrame>
    var outbox: seq<WireFrame>
    var inFlight: seq<WireFrame>
    ghost var accepted: seq<WireFrame>
    ghost var popped: seq<WireFrame>
    ghost var delivered: seq<WireFrame>

    ghost function View(): State
      reads this
    {
      State(open, posted, outbox, inFlight, accepted, popped, delivered)
    }

    ghost predicate Valid()
      reads this
    {
      Inv(View())
    }

    constructor ()
      ensures Valid() && View() == FRESH
    {
      open, posted, outbox, inFlight := true, [], [], [];
      accepted, popped, delivered := [], [], [];
    }

    // packetwrite(WorldPacket&): the packet is copied into the posted handler.
    method PostPacket(frame: WireFrame)
      requires Valid()
      modifies this`posted, this`accepted
      ensures Valid() && View() == Step(old(View()), Post(frame))
    {
      StepKeeps(View(), Post(frame));
      if open {
        posted := posted + [frame];
        accepted := accepted + [frame];
      }
    }

    method PacketWrite()
      requires outbox != []
      modifies this`inFlight
      ensures View() == StartWrite(old(View()))
    {
      var message := outbox[0];
      if open { inFlight := inFlight + [message]; }
    }

    method PacketWriteImpl()
      requires Valid() && posted != []
      modifies this
      ensures Valid() && View() == Step(old(View()), HandOver)
    {
      StepKeeps(View(), HandOver);
      var packet := posted[0];
      posted := posted[1..];
      outbox := outbox + [packet];
      if |outbox| > 1 { return; }
      PacketWrite();
    }

    method WriteHandler(error: bool)
      requires Valid() && inFlight != []
      modifies this
      ensures Valid() && View() == Step(old(View()), Completed(error))
      ensures error ==> !open
    {
      StepKeeps(View(), Completed(error));
      if !error { delivered := delivered + [inFlight[0]]; }
      inFlight := inFlight[1..];
      popped := popped + [outbox[0]];
      outbox := outbox[1..];
      if error {
        open := false;
        return;
      }
      if outbox != [] { PacketWrite(); }
    }

    method Stop()
      requires Valid()
      modifies this
      ensures Valid() && View() == Step(old(View()), Close) && !open
    {
      StepKeeps(View(), Close);
      if open { open := false; }
    }
  }
}
