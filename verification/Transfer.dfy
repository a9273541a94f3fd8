/** The media queue and the file being received, as a fold over the chunks handed over. */
module Transfer {
  import opened Bytes
  import opened Sequences
  import opened Wrappers
  import opened Framing
  import opened Messages
  import Config

  datatype File = NoFile | Open(data: seq<byte>)

  // A file no longer written to: the descriptor it was opened for, its contents, and the media type and
  // ID that each packet written to it carried.
  datatype PastFile = PastFile(media: Descriptor, data: seq<byte>, labels: seq<Descriptor>)

  /**
   * pending and current are the descriptor list and the current descriptor; file is m_file. The rest
   * is history: the labels of the packets in the open file, files closed so far, files replaced while
   * open, descriptors popped so far, the alarm reports handled so far and what has been popped of each.
   */
  datatype Queue = Queue(
    pending: seq<Descriptor>,
    current: Descriptor,
    file: File,
    labels: seq<Descriptor>,
    saved: seq<PastFile>,
    abandoned: seq<PastFile>,
    popped: seq<Descriptor>,
    reports: seq<seq<Descriptor>>,
    taken: seq<seq<Descriptor>>)

  const EMPTY: Queue := Queue([], Descriptor(0, 0), NoFile, [], [], [], [], [], [])

  function TakeOneMore(taken: seq<seq<Descriptor>>, d: Descriptor): seq<seq<Descriptor>> {
    if taken == [] then [] else taken[|taken| - 1 := taken[|taken| - 1] + [d]]
  }

  // The open file, if any, as a past one.
  function Current(q: Queue): seq<PastFile> {
    match q.file
    case NoFile => []
    case Open(data) => [PastFile(q.current, data, q.labels)]
  }

  // The head of the list becomes current and a new file is opened for it, whatever was open before.
  function Pop(q: Queue): Queue {
    if q.pending == [] then q
    else q.(pending := q.pending[1..],
            current := q.pending[0],
            file := Open([]),
            labels := [],
            abandoned := q.abandoned + Current(q),
            popped := q.popped + [q.pending[0]],
            taken := TakeOneMore(q.taken, q.pending[0]))
  }

  // An alarm report replaces the list and asks for its first item.
  function OnAlarm(q: Queue, media: seq<Descriptor>): Queue {
    Pop(q.(pending := media, reports := q.reports + [media], taken := q.taken + [[]]))
  }

  // The number of the packet that comes next, in 16 bits.
  function NextNumber(p: DataPacket): uint16 {
    (p.current + 1) % 0x1_0000
  }

  predicate IsLast(p: DataPacket) {
    p.total == NextNumber(p)
  }

  function Label(p: DataPacket): Descriptor {
    Descriptor(p.mediaType, p.mediaId)
  }

  predicate NewFile(q: Queue) {
    q.file == Open([]) && q.labels == []
  }

  function Stored(q: Queue, p: DataPacket): Queue
    requires q.file.Open?
  {
    q.(file := Open(q.file.data + p.payload), labels := q.labels + [Label(p)])
  }

  function CloseFile(q: Queue): Queue {
    q.(file := NoFile, labels := [], saved := q.saved + Current(q))
  }

  // None when no file is open. The packet's media ID plays no part.
  function OnData(q: Queue, p: DataPacket): Option<Queue> {
    if q.file == NoFile then None
    else
      var mid := Stored(q, p);
      Some(if IsLast(p) then Pop(CloseFile(mid)) else mid)
  }

  function OnMessage(q: Queue, m: Message): Option<Queue> {
    match m
    case Alarm(media) => Some(OnAlarm(q, media))
    case MediaData(p) => OnData(q, p)
    case _ => Some(q)
  }

  function OnChunk(q: Queue, chunk: seq<byte>): Option<Queue> {
    match ParseChunk(chunk)
    case None => None
    case Some(incoming) => OnMessage(q, incoming.message)
  }

  function OnChunks(q: Queue, chunks: seq<seq<byte>>): Option<Queue>
    decreases |chunks|
  {
    if chunks == [] then Some(q)
    else match OnChunk(q, chunks[0])
      case None => None
      case Some(next) => OnChunks(next, chunks[1..])
  }

  lemma {:induction false} OnChunksAppend(q: Queue, a: seq<seq<byte>>, b: seq<seq<byte>>)
    ensures OnChunks(q, a + b) ==
            match OnChunks(q, a) { case None => None case Some(mid) => OnChunks(mid, b) }
    decreases |a|
  {
    if a == [] {
      assert a + b == b;
    } else {
      ConsConcat(a, b);
      var next := OnChunk(q, a[0]);
      if next.Some? { OnChunksAppend(next.value, a[1..], b); }
    }
  }

  /* ------------------------- queue safety ------------------------- */

  /**
   * Of every report a prefix has been popped, of one that listed media at least its first item; what
   * is pending is the rest of the latest report.
   */
  ghost predicate Safe(q: Queue) {
    && |q.reports| == |q.taken|
    && (forall i :: 0 <= i < |q.reports| ==> q.taken[i] <= q.reports[i])
    && (forall i :: 0 <= i < |q.reports| && q.reports[i] != [] ==> q.taken[i] != [])
    && (q.reports == [] ==> q.pending == [])
    && (q.reports != [] ==> q.taken[|q.taken| - 1] + q.pending == q.reports[|q.reports| - 1])
  }

  // Nothing else has been popped, and the current descriptor is the one popped last.
  ghost predicate Accounted(q: Queue) {
    && q.popped == Concat(q.taken)
    && (q.popped != [] ==> q.current == q.popped[|q.popped| - 1])
  }

  // Safe, except that nothing of the latest report need have been popped yet.
  ghost predicate Ready(q: Queue) {
    && |q.reports| == |q.taken| && q.reports != []
    && (forall i :: 0 <= i < |q.reports| ==> q.taken[i] <= q.reports[i])
    && (forall i :: 0 <= i < |q.reports| - 1 && q.reports[i] != [] ==> q.taken[i] != [])
    && q.taken[|q.taken| - 1] + q.pending == q.reports[|q.reports| - 1]
  }

  lemma PopIsSafe(q: Queue)
    requires Ready(q)
    ensures Safe(Pop(q))
  {
    var n := |q.reports| - 1;
    if q.pending != [] {
      assert [q.pending[0]] + q.pending[1..] == q.pending;
      Associative(q.taken[n], [q.pending[0]], q.pending[1..]);
    }
  }

  lemma PopIsAccounted(q: Queue)
    requires Accounted(q) && q.taken != []
    ensures Accounted(Pop(q))
  {
    if q.pending != [] { ConcatOneMore(q.taken, q.pending[0]); }
  }

  lemma ConcatOneMore(taken: seq<seq<Descriptor>>, d: Descriptor)
    requires taken != []
    ensures Concat(TakeOneMore(taken, d)) == Concat(taken) + [d]
  {
    var n := |taken| - 1;
    var front, last := taken[..n], taken[n];
    assert taken == front + [last] && TakeOneMore(taken, d) == front + [last + [d]];
    ConcatAppend(front, [last]);
    ConcatAppend(front, [last + [d]]);
    ConcatSingle(last);
    ConcatSingle(last + [d]);
    Associative(Concat(front), last, [d]);
  }

  lemma OnAlarmIsSafe(q: Queue, media: seq<Descriptor>)
    requires Safe(q)
    ensures Safe(OnAlarm(q, media))
  {
    PopIsSafe(q.(pending := media, reports := q.reports + [media], taken := q.taken + [[]]));
  }

  lemma OnAlarmIsAccounted(q: Queue, media: seq<Descriptor>)
    requires Accounted(q)
    ensures Accounted(OnAlarm(q, media))
  {
    ConcatAppend(q.taken, [[]]);
    ConcatSingle<Descriptor>([]);
    assert q.popped + [] == q.popped;
    PopIsAccounted(q.(pending := media, reports := q.reports + [media], taken := q.taken + [[]]));
  }

  lemma ClosingKeeps(q: Queue)
    requires Safe(q) && Accounted(q)
    ensures Safe(Pop(CloseFile(q))) && Accounted(Pop(CloseFile(q)))
  {
    var closed := CloseFile(q);
    if q.reports != [] {
      ReadyOnceSafe(closed);
      PopIsSafe(closed);
      PopIsAccounted(closed);
    }
  }

  lemma ReadyOnceSafe(q: Queue)
    requires Safe(q) && q.reports != []
    ensures Ready(q)
  {
  }

  lemma OnDataKeeps(q: Queue, p: DataPacket)
    requires Safe(q) && Accounted(q) && OnData(q, p).Some?
    ensures Safe(OnData(q, p).value) && Accounted(OnData(q, p).value)
  {
    var mid := Stored(q, p);
    StoringKeeps(q, mid);
    if IsLast(p) { ClosingKeeps(mid); }
  }

  lemma StoringKeeps(q: Queue, r: Queue)
    requires Safe(q) && Accounted(q)
    requires r.pending == q.pending && r.current == q.current
    requires r.reports == q.reports && r.taken == q.taken && r.popped == q.popped
    ensures Safe(r) && Accounted(r)
  {
  }

  lemma OnMessageKeeps(q: Queue, m: Message)
    requires Safe(q) && Accounted(q) && OnMessage(q, m).Some?
    ensures Safe(OnMessage(q, m).value) && Accounted(OnMessage(q, m).value)
  {
    match m
    case Alarm(media) =>
      OnAlarmIsSafe(q, media);
      OnAlarmIsAccounted(q, media);
    case MediaData(p) => OnDataKeeps(q, p);
    case _ =>
  }

  // Reports that have been superseded are frozen: none of their descriptors is popped any more.
  ghost predicate Extends(before: Queue, after: Queue) {
    && before.reports <= after.reports
    && |before.taken| <= |after.taken|
    && (forall i :: 0 <= i < |before.taken| - 1 ==> after.taken[i] == before.taken[i])
    && before.popped <= after.popped
    && before.saved <= after.saved
  }

  lemma StepExtends(q: Queue, m: Message)
    requires Safe(q) && OnMessage(q, m).Some?
    ensures Extends(q, OnMessage(q, m).value)
  {
  }

  lemma {:induction false} QueueSafety(q: Queue, chunks: seq<seq<byte>>)
    requires Safe(q) && Accounted(q) && OnChunks(q, chunks).Some?
    ensures Safe(OnChunks(q, chunks).value) && Accounted(OnChunks(q, chunks).value)
    ensures Extends(q, OnChunks(q, chunks).value)
    decreases |chunks|
  {
    if chunks != [] {
      var m := ParseChunk(chunks[0]).value.message;
      var next := OnChunk(q, chunks[0]).value;
      assert OnMessage(q, m) == Some(next);
      OnMessageKeeps(q, m);
      StepExtends(q, m);
      QueueSafety(next, chunks[1..]);
      ExtendsFurther(q, next, OnChunks(q, chunks).value);
    }
  }

  lemma ExtendsFurther(a: Queue, b: Queue, c: Queue)
    requires Extends(a, b) && Extends(b, c)
    ensures Extends(a, c)
  {
  }

  // From a fresh connection, in every run.
  lemma QueueSafetyFromStart(chunks: seq<seq<byte>>)
    requires OnChunks(EMPTY, chunks).Some?
    ensures var q := OnChunks(EMPTY, chunks).value; Safe(q) && Accounted(q)
  {
    QueueSafety(EMPTY, chunks);
  }

  // The current descriptor comes from the latest report that listed any media.
  lemma CurrentFromLatestMedia(q: Queue, i: nat)
    requires Safe(q) && Accounted(q) && i < |q.reports| && q.reports[i] != []
    requires forall j :: i < j < |q.reports| ==> q.reports[j] == []
    ensures q.taken[i] != [] && q.current == q.taken[i][|q.taken[i]| - 1] && q.current in q.reports[i]
  {
    assert forall j :: i < j < |q.taken| ==> q.taken[j] == [];
    ConcatEndsAt(q.taken, i);
    assert q.current == q.reports[i][|q.taken[i]| - 1];
  }

  /* ------------------------- which file holds which media ------------------------- */

  ghost predicate OnlyOf(labels: seq<Descriptor>, media: Descriptor) {
    forall i :: 0 <= i < |labels| ==> labels[i] == media
  }

  ghost predicate AllOwn(files: seq<PastFile>) {
    forall i :: 0 <= i < |files| ==> OnlyOf(files[i].labels, files[i].media)
  }

  // Every file, open or not, holds only packets of the media item it was opened for.
  ghost predicate FilesPure(q: Queue) {
    AllOwn(q.saved) && AllOwn(q.abandoned) && AllOwn(Current(q))
  }

  // The packet, if the message is one, carries the type and ID of the current descriptor.
  predicate ForCurrent(q: Queue, m: Message) {
    m.MediaData? ==> Label(m.packet) == q.current
  }

  predicate ChunkForCurrent(q: Queue, chunk: seq<byte>) {
    match ParseChunk(chunk)
    case None => true
    case Some(incoming) => ForCurrent(q, incoming.message)
  }

  // So does every packet of the run at its time.
  predicate AllForCurrent(q: Queue, chunks: seq<seq<byte>>)
    decreases |chunks|
  {
    chunks == [] ||
    (&& ChunkForCurrent(q, chunks[0])
     && match OnChunk(q, chunks[0])
        case None => true
        case Some(next) => AllForCurrent(next, chunks[1..]))
  }

  lemma AllOwnConcat(a: seq<PastFile>, b: seq<PastFile>)
    ensures AllOwn(a + b) <==> AllOwn(a) && AllOwn(b)
  {
    if AllOwn(a + b) {
      forall i | 0 <= i < |a| ensures OnlyOf(a[i].labels, a[i].media) { assert a[i] == (a + b)[i]; }
      forall i | 0 <= i < |b| ensures OnlyOf(b[i].labels, b[i].media) { assert b[i] == (a + b)[|a| + i]; }
    }
  }

  // Closing or replacing a file does not change what it holds.
  lemma PopPure(q: Queue)
    ensures FilesPure(Pop(q)) <==> FilesPure(q)
  {
    AllOwnConcat(q.abandoned, Current(q));
  }

  lemma ClosePure(q: Queue)
    ensures FilesPure(CloseFile(q)) <==> FilesPure(q)
  {
    AllOwnConcat(q.saved, Current(q));
  }

  lemma StoredPure(q: Queue, p: DataPacket)
    requires q.file.Open?
    ensures FilesPure(Stored(q, p)) <==> FilesPure(q) && Label(p) == q.current
  {
    var before, after := q.labels, Stored(q, p).labels;
    assert after[|before|] == Label(p) && forall i :: 0 <= i < |before| ==> after[i] == before[i];
    OwnAlone(q);
    OwnAlone(Stored(q, p));
  }

  lemma OwnAlone(q: Queue)
    requires q.file.Open?
    ensures AllOwn(Current(q)) <==> OnlyOf(q.labels, q.current)
  {
    var f := Current(q)[0];
    assert f.labels == q.labels && f.media == q.current;
  }

  lemma MessagePure(q: Queue, m: Message)
    requires OnMessage(q, m).Some?
    ensures FilesPure(OnMessage(q, m).value) <==> FilesPure(q) && ForCurrent(q, m)
  {
    match m
    case Alarm(media) =>
      PopPure(q.(pending := media, reports := q.reports + [media], taken := q.taken + [[]]));
    case MediaData(p) =>
      var mid := Stored(q, p);
      StoredPure(q, p);
      ClosePure(mid);
      PopPure(CloseFile(mid));
    case _ =>
  }

  /**
   * The handler does not compare media IDs. At the end of a run every file holds only packets of the
   * item it was opened for exactly when that was so at the start and each data packet carried the type
   * and ID of the descriptor that was current when it arrived.
   */
  lemma {:induction false} FilesHoldTheirMedia(q: Queue, chunks: seq<seq<byte>>)
    requires OnChunks(q, chunks).Some?
    ensures FilesPure(OnChunks(q, chunks).value) <==> FilesPure(q) && AllForCurrent(q, chunks)
    decreases |chunks|
  {
    if chunks != [] {
      var m := ParseChunk(chunks[0]).value.message;
      var next := OnChunk(q, chunks[0]).value;
      assert OnMessage(q, m) == Some(next);
      MessagePure(q, m);
      FilesHoldTheirMedia(next, chunks[1..]);
    }
  }

  // An alarm that arrives while a file is open drops the interrupted item exactly if it lists media.
  lemma AlarmDropsIff(q: Queue, media: seq<Descriptor>)
    requires q.file.Open?
    ensures var r := OnAlarm(q, media);
            && r.saved == q.saved
            && (r.abandoned == q.abandoned + Current(q) <==> media != [])
            && (media == [] ==> r.file == q.file && r.current == q.current && r.pending == [])
  {
    if media == [] { assert |q.abandoned + Current(q)| == |q.abandoned| + 1; }
  }

  function AlarmFrame(c: byte, h: Sender, fixed: seq<byte>, media: seq<Descriptor>): seq<byte>
    requires |fixed| == 30 && |media| < 0x100
  {
    Frame(c, AlarmBody(h, fixed, media))
  }

  lemma AlarmChunk(q: Queue, c: byte, h: Sender, fixed: seq<byte>, media: seq<Descriptor>)
    requires |fixed| == 30 && |media| < 0x100 && (h.terminal == Config.ADASID || h.terminal == Config.DMSID)
    ensures OnChunk(q, AlarmFrame(c, h, fixed, media)) == Some(OnAlarm(q, media))
  {
    AlarmFrameParses(c, h, fixed, media);
  }

  lemma DataChunk(q: Queue, c: byte, h: Sender, p: DataPacket)
    requires p.payload != []
    ensures OnChunk(q, Frame(c, DataBody(h, p))) == OnData(q, p)
  {
    DataFrameParses(c, h, p);
  }

  // Two alarm frames and a data frame, on a fresh connection.
  function Interrupted(c: byte, h: Sender, fixed: seq<byte>, first: seq<Descriptor>, second: seq<Descriptor>,
                       p: DataPacket): seq<seq<byte>>
    requires |fixed| == 30 && |first| < 0x100 && |second| < 0x100
  {
    [AlarmFrame(c, h, fixed, first), AlarmFrame(c, h, fixed, second), Frame(c, DataBody(h, p))]
  }

  lemma InterruptedRun(c: byte, h: Sender, fixed: seq<byte>, first: seq<Descriptor>, second: seq<Descriptor>,
                       p: DataPacket)
    requires |fixed| == 30 && (h.terminal == Config.ADASID || h.terminal == Config.DMSID)
    requires |first| < 0x100 && |second| < 0x100 && p.payload != []
    ensures OnChunks(EMPTY, Interrupted(c, h, fixed, first, second, p)) ==
            OnData(OnAlarm(OnAlarm(EMPTY, first), second), p)
  {
    var x, y := AlarmFrame(c, h, fixed, first), AlarmFrame(c, h, fixed, second);
    var z := Frame(c, DataBody(h, p));
    var q1 := OnAlarm(EMPTY, first);
    AlarmChunk(EMPTY, c, h, fixed, first);
    AlarmChunk(q1, c, h, fixed, second);
    DataChunk(OnAlarm(q1, second), c, h, p);
    ThreeChunks(EMPTY, x, y, z, q1, OnAlarm(q1, second));
  }

  lemma ThreeChunks(q: Queue, a: seq<byte>, b: seq<byte>, c: seq<byte>, q1: Queue, q2: Queue)
    requires OnChunk(q, a) == Some(q1) && OnChunk(q1, b) == Some(q2)
    ensures OnChunks(q, [a, b, c]) == OnChunk(q2, c)
  {
    assert [a, b, c][1..] == [b, c] && [b, c][1..] == [c];
    OneChunk(q2, c);
  }

  // The last packet of an interrupted item arrives after the alarm that interrupted it: it is saved as
  // the new item, complete with one packet; the packets of the new item then find no open file.
  lemma LatePacket(c: byte, h: Sender, fixed: seq<byte>, a: Descriptor, b: Descriptor,
                   p: DataPacket, later: DataPacket)
    requires |fixed| == 30 && (h.terminal == Config.ADASID || h.terminal == Config.DMSID)
    requires p.payload != [] && IsLast(p) && Label(p) == a && later.payload != []
    ensures var r := OnChunks(EMPTY, Interrupted(c, h, fixed, [a], [b], p));
            && r.Some?
            && r.value.saved == [PastFile(b, p.payload, [a])] && r.value.abandoned == [PastFile(a, [], [])]
            && (FilesPure(r.value) <==> a == b)
            && OnChunk(r.value, Frame(c, DataBody(h, later))).None?
  {
    InterruptedRun(c, h, fixed, [a], [b], p);
    LateSaved(a, b, p);
    DataChunk(OnChunks(EMPTY, Interrupted(c, h, fixed, [a], [b], p)).value, c, h, later);
  }

  lemma LateSaved(a: Descriptor, b: Descriptor, p: DataPacket)
    requires IsLast(p) && Label(p) == a
    ensures var r := OnData(OnAlarm(OnAlarm(EMPTY, [a]), [b]), p);
            && r.Some? && r.value.file == NoFile
            && r.value.saved == [PastFile(b, p.payload, [a])] && r.value.abandoned == [PastFile(a, [], [])]
            && (FilesPure(r.value) <==> a == b)
  {
    var q2 := OnAlarm(OnAlarm(EMPTY, [a]), [b]);
    var r := OnData(q2, p).value;
    assert NewFile(q2) && q2.current == b && q2.pending == [];
    assert [] + p.payload == p.payload && [] + [a] == [a];
    OnePure(r, a, b, p.payload);
  }

  lemma OnePure(q: Queue, a: Descriptor, b: Descriptor, data: seq<byte>)
    requires q.file == NoFile && q.saved == [PastFile(b, data, [a])] && q.abandoned == [PastFile(a, [], [])]
    ensures FilesPure(q) <==> a == b
  {
    assert q.saved[0].labels[0] == a;
  }

  // An alarm that lists nothing does not drop the interrupted item, only those still pending.
  lemma EmptyAlarm(c: byte, h: Sender, fixed: seq<byte>, a: Descriptor, b: Descriptor, p: DataPacket)
    requires |fixed| == 30 && (h.terminal == Config.ADASID || h.terminal == Config.DMSID)
    requires p.payload != [] && IsLast(p)
    ensures var r := OnChunks(EMPTY, Interrupted(c, h, fixed, [a, b], [], p));
            && r.Some?
            && r.value.saved == [PastFile(a, p.payload, [Label(p)])] && r.value.abandoned == []
            && r.value.popped == [a] && r.value.pending == []
  {
    InterruptedRun(c, h, fixed, [a, b], [], p);
    EmptyAlarmSaved(a, b, p);
  }

  lemma EmptyAlarmSaved(a: Descriptor, b: Descriptor, p: DataPacket)
    requires IsLast(p)
    ensures var r := OnData(OnAlarm(OnAlarm(EMPTY, [a, b]), []), p);
            && r.Some?
            && r.value.saved == [PastFile(a, p.payload, [Label(p)])] && r.value.abandoned == []
            && r.value.popped == [a] && r.value.pending == []
  {
    var q1 := OnAlarm(EMPTY, [a, b]);
    var q2 := OnAlarm(q1, []);
    assert NewFile(q1) && q1.current == a && q1.popped == [a];
    assert NewFile(q2) && q2.current == a && q2.pending == [];
    assert [] + p.payload == p.payload && [] + [Label(p)] == [Label(p)];
  }

  /* ------------------------- one media item ------------------------- */

  // A media item as the sensor sends it: packet k carries number k of n and its own frame fields.
  datatype Part = Part(checksum: byte, head: Sender, payload: seq<byte>)
  datatype Item = Item(mediaType: byte, mediaId: uint32, parts: seq<Part>)

  ghost predicate Sendable(item: Item) {
    && 1 <= |item.parts| <= 0xFFFF
    && forall k :: 0 <= k < |item.parts| ==> item.parts[k].payload != []
  }

  function PartPacket(item: Item, k: nat): DataPacket
    requires k < |item.parts| <= 0xFFFF
  {
    DataPacket(item.mediaType, item.mediaId, |item.parts|, k, item.parts[k].payload)
  }

  function PartFrame(item: Item, k: nat): seq<byte>
    requires k < |item.parts| <= 0xFFFF
  {
    Frame(item.parts[k].checksum, DataBody(item.parts[k].head, PartPacket(item, k)))
  }

  function ItemFrames(item: Item): (r: seq<seq<byte>>)
    requires |item.parts| <= 0xFFFF
    ensures |r| == |item.parts|
  {
    seq(|item.parts|, k requires 0 <= k < |item.parts| => PartFrame(item, k))
  }

  // Despite the 16-bit count only the last part is taken for the last.
  lemma PartParses(item: Item, k: nat)
    requires Sendable(item) && k < |item.parts|
    ensures var p := PartPacket(item, k);
            && ParseChunk(PartFrame(item, k)) == Some(Incoming(item.parts[k].head.terminal, MediaData(p)))
            && (IsLast(p) <==> k == |item.parts| - 1)
  {
    var p := PartPacket(item, k);
    DataFrameParses(item.parts[k].checksum, item.parts[k].head, p);
    assert NextNumber(p) == k + 1;
  }

  function Payloads(parts: seq<Part>): seq<byte> {
    if parts == [] then [] else Payloads(parts[..|parts| - 1]) + parts[|parts| - 1].payload
  }

  function ItemLabel(item: Item): Descriptor {
    Descriptor(item.mediaType, item.mediaId)
  }

  // The open file was new before the first m packets of the item.
  function Received(q: Queue, item: Item, m: nat): Queue
    requires m <= |item.parts|
  {
    q.(file := Open(Payloads(item.parts[..m])), labels := seq(m, _ => ItemLabel(item)))
  }

  // Everything received but the last part: the file stays open and nothing else changes.
  lemma {:induction false} PartsAccumulate(q: Queue, item: Item, m: nat)
    requires Sendable(item) && m < |item.parts| && NewFile(q)
    ensures OnChunks(q, ItemFrames(item)[..m]) == Some(Received(q, item, m))
    decreases m
  {
    var frames := ItemFrames(item);
    if m == 0 {
      assert frames[..0] == [] && item.parts[..0] == [];
      assert Payloads([]) == [] && Received(q, item, 0) == q;
    } else {
      var frame := PartFrame(item, m - 1);
      PartsAccumulate(q, item, m - 1);
      assert frames[..m] == frames[..m - 1] + [frame];
      PartArrives(q, item, m - 1);
      OneMoreChunk(q, frames[..m - 1], Received(q, item, m - 1), frame);
    }
  }

  lemma ReceivedOneMore(q: Queue, item: Item, k: nat)
    requires k < |item.parts| <= 0xFFFF
    ensures Stored(Received(q, item, k), PartPacket(item, k)) == Received(q, item, k + 1)
  {
    assert item.parts[..k + 1][..k] == item.parts[..k];
    assert seq(k, _ => ItemLabel(item)) + [ItemLabel(item)] == seq(k + 1, _ => ItemLabel(item));
  }

  lemma PartArrives(q: Queue, item: Item, k: nat)
    requires Sendable(item) && k < |item.parts|
    ensures var next := Received(q, item, k + 1);
            OnChunk(Received(q, item, k), PartFrame(item, k)) ==
            Some(if k < |item.parts| - 1 then next else Pop(CloseFile(next)))
  {
    PartParses(item, k);
    ReceivedOneMore(q, item, k);
  }

  lemma OneChunk(q: Queue, chunk: seq<byte>)
    ensures OnChunks(q, [chunk]) == OnChunk(q, chunk)
  {
    assert [chunk][1..] == [];
    if OnChunk(q, chunk).Some? { assert OnChunks(OnChunk(q, chunk).value, []) == OnChunk(q, chunk); }
  }

  lemma OneMoreChunk(q: Queue, chunks: seq<seq<byte>>, mid: Queue, chunk: seq<byte>)
    requires OnChunks(q, chunks) == Some(mid)
    ensures OnChunks(q, chunks + [chunk]) == OnChunk(mid, chunk)
  {
    OnChunksAppend(q, chunks, [chunk]);
    OneChunk(mid, chunk);
  }

  // The file is closed at the last part (and, by PartsAccumulate, never earlier), and then holds
  // exactly the payloads.
  lemma ItemIsSaved(q: Queue, item: Item)
    requires Sendable(item) && NewFile(q)
    ensures OnChunks(q, ItemFrames(item)) == Some(Pop(CloseFile(Received(q, item, |item.parts|))))
  {
    var n := |item.parts| - 1;
    var frames, last := ItemFrames(item), PartFrame(item, n);
    PartsAccumulate(q, item, n);
    assert frames == frames[..n] + [last];
    PartArrives(q, item, n);
    OneMoreChunk(q, frames[..n], Received(q, item, n), last);
  }

  /* ------------------------- a whole alarm ------------------------- */

  ghost predicate AllSendable(items: seq<Item>) {
    forall i :: 0 <= i < |items| ==> Sendable(items[i])
  }

  ghost function ItemsFrames(items: seq<Item>): seq<seq<byte>>
    requires AllSendable(items)
  {
    if items == [] then [] else ItemFrames(items[0]) + ItemsFrames(items[1..])
  }

  // The file that results when the item is received into the one opened for media.
  function FileFor(media: Descriptor, item: Item): PastFile {
    PastFile(media, Payloads(item.parts), seq(|item.parts|, _ => ItemLabel(item)))
  }

  // Item i in the file opened for media[i].
  function FilesFor(media: seq<Descriptor>, items: seq<Item>): seq<PastFile>
    requires |media| == |items|
  {
    if items == [] then [] else [FileFor(media[0], items[0])] + FilesFor(media[1..], items[1..])
  }

  // Popping an item whose file was just saved, seen without the per-report bookkeeping.
  ghost predicate SavedAll(before: Queue, after: Queue, items: seq<Item>)
    requires |items| == |before.pending| + 1
  {
    && after.saved == before.saved + FilesFor([before.current] + before.pending, items)
    && after.popped == before.popped + before.pending
    && after.pending == []
    && after.file == NoFile
    && after.reports == before.reports
    && after.abandoned == before.abandoned
  }

  lemma {:induction false} ItemsAreSaved(q: Queue, items: seq<Item>)
    requires AllSendable(items)
    requires |items| == |q.pending| + 1 && NewFile(q)
    ensures OnChunks(q, ItemsFrames(items)).Some?
    ensures SavedAll(q, OnChunks(q, ItemsFrames(items)).value, items)
    decreases |items|
  {
    var item, rest := items[0], items[1..];
    assert Sendable(item);
    ItemIsSaved(q, item);
    OnChunksAppend(q, ItemFrames(item), ItemsFrames(rest));
    var next := OnChunks(q, ItemFrames(item)).value;
    var first := FileFor(q.current, item);
    assert item.parts[..|item.parts|] == item.parts;
    assert next.saved == q.saved + [first];
    assert q.abandoned + [] == q.abandoned;
    assert ([q.current] + q.pending)[1..] == q.pending;
    if q.pending == [] {
      assert rest == [];
      assert q.popped + [] == q.popped;
      assert [first] + [] == [first];
    } else {
      ItemsAreSaved(next, rest);
      Associative(q.saved, [first], FilesFor(q.pending, rest));
      Associative(q.popped, [q.pending[0]], q.pending[1..]);
      assert [q.pending[0]] + q.pending[1..] == q.pending;
    }
  }

  // An alarm report and what the sensor sends for it.
  datatype AlarmSession = AlarmSession(checksum: byte, head: Sender, fixed: seq<byte>,
                                       media: seq<Descriptor>, items: seq<Item>)

  ghost predicate Answerable(a: AlarmSession) {
    && |a.fixed| == 30 && 0 < |a.media| < 0x100 && |a.items| == |a.media| && AllSendable(a.items)
    && (a.head.terminal == Config.ADASID || a.head.terminal == Config.DMSID)
  }

  ghost function SessionFrames(a: AlarmSession): seq<seq<byte>>
    requires Answerable(a)
  {
    [AlarmFrame(a.checksum, a.head, a.fixed, a.media)] + ItemsFrames(a.items)
  }

  // An alarm report with media followed by the frames of as many items: a file left open is abandoned,
  // every descriptor is popped in report order, and the file opened for the i-th of them holds exactly
  // the i-th item.
  lemma WholeAlarm(q: Queue, a: AlarmSession)
    requires Answerable(a)
    ensures var r := OnChunks(q, SessionFrames(a));
            && r.Some?
            && r.value.saved == q.saved + FilesFor(a.media, a.items)
            && r.value.abandoned == q.abandoned + Current(q)
            && r.value.popped == q.popped + a.media
            && r.value.pending == [] && r.value.file == NoFile
            && r.value.reports == q.reports + [a.media]
  {
    var alarm, media := AlarmFrame(a.checksum, a.head, a.fixed, a.media), a.media;
    AlarmFrameParses(a.checksum, a.head, a.fixed, media);
    var next := OnAlarm(q, media);
    assert OnChunk(q, alarm) == Some(next);
    assert SessionFrames(a)[1..] == ItemsFrames(a.items);
    ItemsAreSaved(next, a.items);
    assert [media[0]] + media[1..] == media;
    Associative(q.popped, [media[0]], media[1..]);
  }

  /* ------------------------- one alarm after another ------------------------- */

  ghost predicate AllAnswerable(alarms: seq<AlarmSession>) {
    forall i :: 0 <= i < |alarms| ==> Answerable(alarms[i])
  }

  ghost function SessionsFrames(alarms: seq<AlarmSession>): seq<seq<byte>>
    requires AllAnswerable(alarms)
  {
    if alarms == [] then [] else SessionFrames(alarms[0]) + SessionsFrames(alarms[1..])
  }

  // All descriptors listed, and the files wanted for them.
  function Listed(alarms: seq<AlarmSession>): seq<Descriptor> {
    if alarms == [] then [] else alarms[0].media + Listed(alarms[1..])
  }

  ghost function SessionsFiles(alarms: seq<AlarmSession>): seq<PastFile>
    requires AllAnswerable(alarms)
  {
    if alarms == [] then [] else FilesFor(alarms[0].media, alarms[0].items) + SessionsFiles(alarms[1..])
  }

  ghost predicate Finished(before: Queue, after: Queue, alarms: seq<AlarmSession>)
    requires AllAnswerable(alarms)
  {
    && after.saved == before.saved + SessionsFiles(alarms)
    && after.popped == before.popped + Listed(alarms)
    && (alarms != [] ==>
          after.pending == [] && after.file == NoFile && after.abandoned == before.abandoned + Current(before))
  }

  lemma {:induction false} WholeAlarms(q: Queue, alarms: seq<AlarmSession>)
    requires AllAnswerable(alarms)
    ensures OnChunks(q, SessionsFrames(alarms)).Some?
    ensures Finished(q, OnChunks(q, SessionsFrames(alarms)).value, alarms)
    decreases |alarms|
  {
    if alarms != [] {
      var a, more := alarms[0], alarms[1..];
      assert Answerable(a);
      WholeAlarm(q, a);
      OnChunksAppend(q, SessionFrames(a), SessionsFrames(more));
      var next := OnChunks(q, SessionFrames(a)).value;
      WholeAlarms(next, more);
      Associative(q.saved, FilesFor(a.media, a.items), SessionsFiles(more));
      Associative(q.popped, a.media, Listed(more));
      assert next.abandoned + [] == next.abandoned;
    }
  }
}
