/** The connection object: read buffer, packet in hand, media queue, timer and send queue. */
module Connections {
  import opened Bytes
  import opened Sequences
  import opened Wrappers
  import opened Framing
  import opened Buffers
  import opened Messages
  import opened Transfer
  import opened Config
  import Session
  import Outbox
  import Reassembly
  import EndToEnd
  import Wire

  class Connection {
    // reading
    const buf: array<byte>
    const readpacket: ByteBuffer
    var totalBytesRead: nat
    var sSync: byte
    var sChecksum: byte
    var sSequence: uint16
    var sManufacturer: uint16
    var sTerminal: byte
    var sOpcode: byte
    // the data packet in hand
    var mMediaType: byte
    var mMultimediaId: uint32
    var mTotalPacketNo: uint16
    var mCurrentPacketNo: uint16
    // the media queue and the file
    var pending: seq<Descriptor>
    var current: Descriptor
    var file: File
    // wait handlers of the media timer: waiting, and queued to run
    var waiting: nat
    var due: nat
    // globals
    var sequence: uint16
    var manufacturer: uint16
    var config: Store
    // sending
    const outbox: Outbox.SendQueue
    // history
    ghost var labels: seq<Descriptor>
    ghost var saved: seq<PastFile>
    ghost var abandoned: seq<PastFile>
    ghost var popped: seq<Descriptor>
    ghost var reports: seq<seq<Descriptor>>
    ghost var taken: seq<seq<Descriptor>>
    ghost var requests: seq<Descriptor>
    ghost var sent: seq<seq<byte>>

    ghost predicate Valid()
      reads this`totalBytesRead, this`config, readpacket`escbuffer, outbox
    {
      && buf.Length == Reassembly.BUF_SIZE && totalBytesRead <= buf.Length
      && readpacket.escbuffer == [] && InRange(config) && outbox.Valid()
    }

    ghost function MediaQueue(): Queue
      reads this
    {
      Queue(pending, current, file, labels, saved, abandoned, popped, reports, taken)
    }

    ghost function View(): Session.State
      reads this
    {
      Session.State(MediaQueue(), waiting, due, Sender(sequence, manufacturer, sTerminal), config, requests, sent)
    }

    // What has been received and not yet handed over.
    ghost function Held(): seq<byte>
      requires totalBytesRead <= buf.Length
      reads this, buf
    {
      buf[..totalBytesRead]
    }

    ghost function System(): Wire.System
      requires totalBytesRead <= buf.Length
      reads this, buf, outbox
    {
      Wire.System(Held(), View(), outbox.View())
    }

    constructor (manufacturer: uint16, terminal: byte, config: Store)
      requires InRange(config)
      ensures Valid() && fresh(buf) && fresh(readpacket) && fresh(outbox)
      ensures buf.Length == 131072
      ensures System() == Wire.Start(Sender(0, manufacturer, terminal), config)
    {
      buf := new byte[Reassembly.BUF_SIZE](_ => 0);
      readpacket := new ByteBuffer();
      outbox := new Outbox.SendQueue();
      totalBytesRead := 0;
      sSync, sChecksum, sSequence, sManufacturer, sTerminal, sOpcode := 0, 0, 0, 0, terminal, 0;
      mMediaType, mMultimediaId, mTotalPacketNo, mCurrentPacketNo := 0, 0, 0, 0;
      pending, current, file := [], Descriptor(0, 0), NoFile;
      waiting, due := 0, 0;
      sequence, this.manufacturer, this.config := 0, manufacturer, config;
      labels, saved, abandoned, popped, reports, taken, requests, sent := [], [], [], [], [], [], [], [];
    }

    /* ------------------------- sending ------------------------- */

    // << of the three globals and the opcode that head every packet.
    method NewPacket(opcode: byte) returns (packet: ByteBuffer)
      ensures fresh(packet) && packet.escbuffer == [] && packet.wpos == |packet.storage|
      ensures packet.storage == Head(Sender(sequence, manufacturer, sTerminal), opcode)
    {
      Widths();
      packet := new ByteBuffer();
      packet.AppendValue(sequence, 2);
      packet.AppendValue(manufacturer, 2);
      packet.AppendValue(sTerminal, 1);
      packet.AppendValue(opcode, 1);
      ByteImage(sTerminal);
      ByteImage(opcode);
      assert [sTerminal] + [opcode] == [sTerminal, opcode];
    }

    // jt808encode and packetwrite.
    method EncodeAndPost(packet: ByteBuffer)
      requires 1 <= |packet.storage| <= 0xFF && packet.escbuffer == [] && outbox.Valid()
      modifies packet, outbox, this`sent
      ensures outbox.Valid()
      ensures outbox.View() == Outbox.Step(old(outbox.View()), Outbox.Post(Encode(old(packet.storage))))
      ensures sent == old(sent) + [old(packet.storage)]
    {
      sent := sent + [packet.storage];
      var st, j := packet.Jt808Encode();
      outbox.PostPacket(packet.storage);
    }

    // << swap_endian(v).
    method AppendSwapped(packet: ByteBuffer, v: nat, n: nat)
      requires n > 0 && v < Pow256(n) && packet.wpos == |packet.storage|
      modifies packet
      ensures packet.storage == old(packet.storage) + BigEndian(v, n)
      ensures packet.wpos == |packet.storage| && packet.escbuffer == old(packet.escbuffer)
    {
      var swapped := SwapEndianCopy(v, n);
      packet.AppendValue(swapped, n);
    }

    // 0x50
    method SendCurrentMultimediaRequest()
      requires Valid()
      modifies this`sent, outbox
      ensures Valid()
      ensures View() == Session.Post(old(View()), RequestBody(old(View()).sender, current))
      ensures outbox.View() ==
              Outbox.Step(old(outbox.View()), Outbox.Post(Encode(RequestBody(old(View()).sender, current))))
    {
      Widths();
      var request := NewPacket(OP_MEDIA_REQUEST);
      request.AppendValue(current.mediaType, 1);
      AppendSwapped(request, current.mediaId, 4);
      ByteImage(current.mediaType);
      EncodeAndPost(request);
    }

    method SwapPacketNumbers()
      modifies this`mTotalPacketNo, this`mCurrentPacketNo
      ensures mTotalPacketNo == SwapEndian(old(mTotalPacketNo), 2)
      ensures mCurrentPacketNo == SwapEndian(old(mCurrentPacketNo), 2)
      ensures LittleEndian(mTotalPacketNo, 2) == BigEndian(old(mTotalPacketNo), 2)
      ensures LittleEndian(mCurrentPacketNo, 2) == BigEndian(old(mCurrentPacketNo), 2)
    {
      Widths();
      SwapEndianBytes(mTotalPacketNo, 2);
      SwapEndianBytes(mCurrentPacketNo, 2);
      var swapped := SwapEndianCopy(mTotalPacketNo, 2);
      mTotalPacketNo := swapped;
      swapped := SwapEndianCopy(mCurrentPacketNo, 2);
      mCurrentPacketNo := swapped;
    }

    // 0x51: the two packet numbers are swapped in place.
    method BuildAttachmentLoadAck(ghost payload: seq<byte>) returns (ack: ByteBuffer)
      modifies this`sequence, this`mTotalPacketNo, this`mCurrentPacketNo
      ensures sequence == (old(sequence) + 1) % 0x1_0000
      ensures mTotalPacketNo == SwapEndian(old(mTotalPacketNo), 2)
      ensures mCurrentPacketNo == SwapEndian(old(mCurrentPacketNo), 2)
      ensures fresh(ack) && ack.escbuffer == []
      ensures ack.storage == AckBody(Sender(sequence, manufacturer, sTerminal),
                DataPacket(mMediaType, mMultimediaId, old(mTotalPacketNo), old(mCurrentPacketNo), payload))
    {
      Widths();
      sequence := (sequence + 1) % 0x1_0000;
      ack := NewPacket(OP_MEDIA_DATA);
      ack.AppendValue(mMediaType, 1);
      AppendSwapped(ack, mMultimediaId, 4);
      SwapPacketNumbers();
      ack.AppendValue(mTotalPacketNo, 2);
      ack.AppendValue(mCurrentPacketNo, 2);
      ack.AppendValue(0, 1);
      ByteImage(mMediaType);
      ByteImage(0);
      AckAssembled(Sender(sequence, manufacturer, sTerminal),
                   DataPacket(mMediaType, mMultimediaId, old(mTotalPacketNo), old(mCurrentPacketNo), payload));
    }

    method SendAttachmentLoadAck(ghost payload: seq<byte>)
      requires Valid()
      modifies this`sequence, this`mTotalPacketNo, this`mCurrentPacketNo, this`sent, outbox
      ensures Valid()
      ensures View() == Session.Acknowledge(old(View()),
                DataPacket(mMediaType, mMultimediaId, old(mTotalPacketNo), old(mCurrentPacketNo), payload))
      ensures outbox.View() == Outbox.Step(old(outbox.View()), Outbox.Post(Encode(AckBody(View().sender,
                DataPacket(mMediaType, mMultimediaId, old(mTotalPacketNo), old(mCurrentPacketNo), payload)))))
      ensures mTotalPacketNo == SwapEndian(old(mTotalPacketNo), 2)
      ensures mCurrentPacketNo == SwapEndian(old(mCurrentPacketNo), 2)
    {
      ghost var p := DataPacket(mMediaType, mMultimediaId, mTotalPacketNo, mCurrentPacketNo, payload);
      ghost var after := Session.Acknowledge(View(), p);
      var ack := BuildAttachmentLoadAck(payload);
      assert ack.storage == AckBody(after.sender, p);
      EncodeAndPost(ack);
    }

    // 0x35: one statement of << per step of the script.
    method AppendBlock(packet: ByteBuffer)
      requires InRange(config) && packet.wpos == |packet.storage|
      modifies packet
      ensures packet.storage == old(packet.storage) + WriteScript(config, Writes(sTerminal))
      ensures packet.escbuffer == old(packet.escbuffer)
    {
      var w := Writes(sTerminal);
      ghost var done: seq<byte> := [];
      WrittenStart(config, w);
      ScriptsMirror(sTerminal);
      MirrorsTypedWriter(w, Reads(sTerminal));
      assert packet.storage + [] == packet.storage;
      while w.Then?
        invariant packet.wpos == |packet.storage| && packet.escbuffer == old(packet.escbuffer)
        invariant packet.storage == old(packet.storage) + done
        invariant done + WriteScript(config, w) == WriteScript(config, Writes(sTerminal))
        invariant TypedWriter(w)
        decreases w
      {
        ghost var before := packet.storage;
        match w.op {
          case PutBytes(fs) => AppendFields(packet, fs);
          case PutSwapped16(f) =>
            assert Get(config, f) < Pow256(Width(f));
            AppendSwapped(packet, Get(config, f), 2);
          case PutReserved(n) => AppendReserved(packet, n);
        }
        assert packet.storage == before + OpBytes(config, w.op);
        Associative(old(packet.storage), done, OpBytes(config, w.op));
        Associative(done, OpBytes(config, w.op), WriteScript(config, w.next));
        done := done + OpBytes(config, w.op);
        w := w.next;
      }
      assert done + [] == done;
    }

    method AppendFields(packet: ByteBuffer, fs: seq<Field>)
      requires InRange(config) && AllBytes(fs) && packet.wpos == |packet.storage|
      modifies packet
      ensures packet.storage == old(packet.storage) + FieldBytes(config, fs)
      ensures packet.wpos == |packet.storage| && packet.escbuffer == old(packet.escbuffer)
    {
      ghost var done: seq<byte> := [];
      var i := 0;
      assert fs[0..] == fs && [] + FieldBytes(config, fs) == FieldBytes(config, fs);
      while i < |fs|
        invariant 0 <= i <= |fs|
        invariant packet.wpos == |packet.storage| && packet.escbuffer == old(packet.escbuffer)
        invariant packet.storage == old(packet.storage) + done
        invariant done + FieldBytes(config, fs[i..]) == FieldBytes(config, fs)
      {
        var v := Get(config, fs[i]);
        assert v < Pow256(Width(fs[i]));
        packet.AppendValue(v, 1);
        assert fs[i..][0] == fs[i] && fs[i..][1..] == fs[i + 1..];
        Associative(old(packet.storage), done, LittleEndian(v, 1));
        Associative(done, LittleEndian(v, 1), FieldBytes(config, fs[i + 1..]));
        done := done + LittleEndian(v, 1);
        i := i + 1;
      }
      assert done + [] == done;
    }

    // The loops that write reschar.
    method AppendReserved(packet: ByteBuffer, n: nat)
      requires InRange(config) && packet.wpos == |packet.storage|
      modifies packet
      ensures packet.storage == old(packet.storage) + OpBytes(config, PutReserved(n))
      ensures packet.wpos == |packet.storage| && packet.escbuffer == old(packet.escbuffer)
    {
      var c := Get(config, ResChar);
      assert c < Pow256(Width(ResChar));
      Widths();
      ByteImage(c);
      var i := 0;
      while i < n
        invariant 0 <= i <= n
        invariant packet.wpos == |packet.storage| && packet.escbuffer == old(packet.escbuffer)
        invariant packet.storage == old(packet.storage) + seq(i, _ => c)
      {
        packet.AppendValue(c, 1);
        assert seq(i, _ => c) + [c] == seq(i + 1, _ => c);
        i := i + 1;
      }
      assert OpBytes(config, PutReserved(n)) == seq(n, _ => c);
    }

    method SendActiveSetConfigPacket()
      requires Valid()
      modifies this`sent, outbox
      ensures Valid()
      ensures View() == if sTerminal == ADASID || sTerminal == DMSID
                        then Session.Post(old(View()), ConfigBody(old(View()).sender, OP_CONFIG_SET, config))
                        else old(View())
      ensures outbox.View() == if sTerminal == ADASID || sTerminal == DMSID
                then Outbox.Step(old(outbox.View()),
                                 Outbox.Post(Encode(ConfigBody(View().sender, OP_CONFIG_SET, config))))
                else old(outbox.View())
    {
      if sTerminal == ADASID || sTerminal == DMSID {
        var packet := NewPacket(OP_CONFIG_SET);
        AppendBlock(packet);
        WrittenBlockWidth(config, sTerminal);
        BlockWidth(sTerminal);
        EncodeAndPost(packet);
      }
    }

    // 0x31: the heartbeat swaps the global serial number in place.
    method BuildRealtimePacket(time: Time) returns (packet: ByteBuffer)
      modifies this`sequence
      ensures View() == old(View()).(sender := SwapSequence(old(View()).sender))
      ensures fresh(packet) && packet.escbuffer == []
      ensures packet.storage == RealtimeBody(View().sender, time)
      ensures |packet.storage| == 32
    {
      sequence := SwapSequence(Sender(sequence, manufacturer, sTerminal)).sequence;
      packet := NewPacket(OP_REALTIME);
      AppendPosition(packet);
      AppendTime(packet, time);
      Widths();
      AppendSwapped(packet, 0x10, 2);
    }

    method SendRealtimePacket(time: Time)
      requires Valid()
      modifies this`sequence, this`sent, outbox
      ensures Valid()
      ensures View() == Session.OnHeartbeat(old(View()), time)
      ensures outbox.View() ==
              Outbox.Step(old(outbox.View()), Outbox.Post(Encode(RealtimeBody(View().sender, time))))
    {
      var packet := BuildRealtimePacket(time);
      EncodeAndPost(packet);
    }

    method AppendTime(packet: ByteBuffer, time: Time)
      requires packet.wpos == |packet.storage|
      modifies packet
      ensures packet.wpos == |packet.storage| && packet.escbuffer == old(packet.escbuffer)
      ensures packet.storage == old(packet.storage) + time
    {
      Widths();
      var i := 0;
      while i < 6
        invariant 0 <= i <= 6
        invariant packet.wpos == |packet.storage| && packet.escbuffer == old(packet.escbuffer)
        invariant packet.storage == old(packet.storage) + time[..i]
      {
        packet.AppendValue(time[i], 1);
        ByteImage(time[i]);
        assert time[..i + 1] == time[..i] + [time[i]];
        i := i + 1;
      }
      assert time[..6] == time;
    }

    // The fixed fields of the heartbeat up to the time.
    method AppendPosition(packet: ByteBuffer)
      requires packet.wpos == |packet.storage|
      modifies packet
      ensures packet.wpos == |packet.storage| && packet.escbuffer == old(packet.escbuffer)
      ensures packet.storage == old(packet.storage) + [0x40, 0x00] + BigEndian(0x12345678, 4) + [0x00, 0x00]
                                + BigEndian(0x100, 2) + BigEndian(0x23232323, 4) + BigEndian(0x56125612, 4)
    {
      Widths();
      ByteImage(0x40);
      ByteImage(0x00);
      ghost var before := packet.storage;
      packet.AppendValue(0x40, 1);
      packet.AppendValue(0x00, 1);
      Associative(before, [0x40], [0x00]);
      assert [0x40] + [0x00] == [0x40, 0x00];
      AppendSwapped(packet, 0x12345678, 4);
      packet.AppendValue(0, 2);
      assert LittleEndian(0, 2) == [0x00, 0x00];
      AppendSwapped(packet, 0x100, 2);
      AppendSwapped(packet, 0x23232323, 4);
      AppendSwapped(packet, 0x56125612, 4);
    }

    // The heartbeat timer fires.
    method HeartTick(time: Time)
      requires Valid()
      modifies this`sequence, this`sent, outbox
      ensures Valid() && Wire.Step(old(System()), Wire.Local(EndToEnd.Timer(Session.Heartbeat(time)))) == Some(System())
      ensures !old(outbox.open) ==> System() == old(System())
    {
      ghost var sender := SwapSequence(View().sender);
      Wire.PostsOne(outbox.View(), sent, RealtimeBody(sender, time));
      if outbox.open { SendRealtimePacket(time); }
    }

    /* ------------------------- the send queue ------------------------- */

    // A posted frame is handed over.
    method PacketWriteImpl()
      requires Valid() && outbox.posted != []
      modifies outbox
      ensures Valid() && Wire.Step(old(System()), Wire.HandOver) == Some(System())
    {
      outbox.PacketWriteImpl();
    }

    // The write in flight completes; after an error the whole connection stops.
    method WriteHandler(error: bool)
      requires Valid() && outbox.inFlight != []
      modifies this`waiting, this`due, outbox
      ensures Valid() && Wire.Step(old(System()), Wire.Completed(error)) == Some(System())
      ensures error ==> !outbox.open && waiting == 0 && due == old(waiting) + old(due)
    {
      outbox.WriteHandler(error);
      if error { Stop(); }
    }

    /* ------------------------- the media timer ------------------------- */

    // Every wait ended early is queued to run with an error code, which the handler ignores.
    method CancelMediaTimer()
      modifies this`waiting, this`due
      ensures View() == Session.Release(old(View()))
      ensures waiting == 0 && due == old(waiting) + old(due)
    {
      due := due + waiting;
      waiting := 0;
    }

    method StartGetAlarmsMedia(mediaType: byte)
      modifies this`waiting, this`due
      ensures View() == Session.Arm(old(View()), mediaType)
      ensures mediaType == 0x00 || mediaType == 0x02 ==> waiting == 1 && due == old(waiting) + old(due)
      ensures mediaType != 0x00 && mediaType != 0x02 ==> waiting == old(waiting) + 1 && due == old(due)
    {
      // expires_from_now cancels the waits on the old expiry time
      if mediaType == 0x00 { CancelMediaTimer(); }
      if mediaType == 0x02 { CancelMediaTimer(); }
      waiting := waiting + 1;
    }

    // The timer expires.
    method MediaTimerExpires()
      requires Valid()
      modifies this`waiting, this`due
      ensures Valid() && Wire.Step(old(System()), Wire.Local(EndToEnd.Timer(Session.Expire))) == Some(System())
      ensures waiting == 0 && due == old(waiting) + old(due)
    {
      Wire.PostsNothing(outbox.View(), sent);
      CancelMediaTimer();
    }

    // Stop(): the socket is closed and the waits on the timer are cancelled.
    method Stop()
      requires Valid()
      modifies this`waiting, this`due, outbox
      ensures Valid() && Wire.Step(old(System()), Wire.Close) == Some(System())
      ensures !outbox.open && waiting == 0 && due == old(waiting) + old(due)
    {
      outbox.Stop();
      CancelMediaTimer();
    }

    // One run of the timer handler.
    method GetAlarmsMedia()
      requires Valid() && due > 0
      modifies this`waiting, this`due, this`sent, this`requests, outbox
      ensures Valid()
      ensures Wire.Step(old(System()), Wire.Local(EndToEnd.Timer(Session.TimerRun))) == Some(System())
      ensures requests == old(requests) + [current]
      ensures outbox.View() ==
              Outbox.Step(old(outbox.View()), Outbox.Post(Encode(RequestBody(old(View()).sender, current))))
    {
      Wire.PostsOne(outbox.View(), sent, RequestBody(View().sender, current));
      due := due - 1;
      SendCurrentMultimediaRequest();
      requests := requests + [current];
      CancelMediaTimer();
    }

    /* ------------------------- the media queue ------------------------- */

    // The head of the list becomes current, and a new file is opened for it.
    method PopMedia()
      requires pending != []
      modifies this`pending, this`current, this`file, this`popped, this`taken, this`abandoned, this`labels
      ensures MediaQueue() == Pop(old(MediaQueue()))
    {
      abandoned := abandoned + Current(MediaQueue());
      current := pending[0];
      pending := pending[1..];
      popped := popped + [current];
      taken := TakeOneMore(taken, current);
      file := Open([]);
      labels := [];
    }

    method SendMultimediaRequest()
      modifies this`pending, this`current, this`file, this`waiting, this`due
      modifies this`popped, this`taken, this`abandoned, this`labels
      ensures View() == Session.WithQueue(old(View()), Pop(old(MediaQueue())))
    {
      ghost var before, next := View(), Pop(MediaQueue());
      if pending != [] {
        PopMedia();
        assert View() == before.(queue := next);
        StartGetAlarmsMedia(current.mediaType);
      }
    }

    // >> of a field followed by its swap_endian.
    method ReadSwapped(n: nat) returns (st: Status, v: nat)
      modifies readpacket`rpos
      ensures st == if old(readpacket.rpos) + n > |readpacket.storage| then PositionException else Ok
      ensures st.Ok? ==> readpacket.rpos == old(readpacket.rpos) + n && v < Pow256(n)
      ensures st.Ok? ==> v == FromBigEndian(readpacket.storage[old(readpacket.rpos)..readpacket.rpos])
    {
      ghost var at := readpacket.rpos;
      v :- readpacket.Read(n);
      SwapAfterRead(readpacket.storage[at..at + n]);
      v := SwapEndianCopy(v, n);
      st := Ok;
    }

    // The loop over the media entries of an alarm report.
    method ReadMediaEntries(mediaCount: byte) returns (st: Status)
      requires readpacket.rpos == ALARM_ENTRIES <= |readpacket.storage|
      requires mediaCount == readpacket.storage[38]
      modifies this`pending, readpacket`rpos
      ensures match ParseAlarm(readpacket.storage)
              case None => st != Ok
              case Some(media) =>
                st == Ok && readpacket.rpos == ALARM_ENTRIES + 5 * |media| && pending == media
    {
      ghost var d := readpacket.storage;
      Widths();
      pending := [];
      var m := 0;
      while m < mediaCount
        invariant 0 <= m <= mediaCount
        invariant readpacket.rpos == ALARM_ENTRIES + 5 * m <= |d|
        invariant EntriesUpTo(d, m, pending)
      {
        var mediaType :- ReadByte();
        var mediaId :- ReadSwapped(4);
        pending := pending + [Descriptor(mediaType, mediaId)];
        m := m + 1;
      }
      assert pending == ParseAlarm(d).value;
      st := Ok;
    }

    // What follows that loop in both handlers: the list just read is the new report.
    method StartReport()
      modifies this`pending, this`current, this`file, this`waiting, this`due
      modifies this`popped, this`taken, this`abandoned, this`labels, this`reports
      ensures View() == Session.WithQueue(old(View()), OnAlarm(old(MediaQueue()), old(pending)))
    {
      reports := reports + [pending];
      taken := taken + [[]];
      SendMultimediaRequest();
    }

    // The fields in front of the media count, of a driver-assistance sensor.
    method ReadAdasFields() returns (st: Status)
      requires readpacket.rpos == HEADER <= |readpacket.storage|
      modifies readpacket`rpos
      ensures st == if |readpacket.storage| < ALARM_ENTRIES - 1 then PositionException else Ok
      ensures st.Ok? ==> readpacket.rpos == ALARM_ENTRIES - 1
    {
      var alarmId :- ReadSwapped(4);
      var alarmState :- readpacket.Read(1);
      var alarmType :- readpacket.Read(1);
      var frontCarSpeed :- readpacket.Read(1);
      var distance :- readpacket.Read(1);
      var departureType :- readpacket.Read(1);
      var tsrType :- readpacket.Read(1);
      var tsrData :- readpacket.Read(1);
      var myCarSpeed :- readpacket.Read(1);
      var myCarHeight :- readpacket.Read(2);
      var myCarLatitude :- readpacket.Read(4);
      var myCarLongitude :- readpacket.Read(4);
      :- readpacket.ReadSkip(6);
      var myCarState :- readpacket.Read(2);
      st := Ok;
    }

    // Those of a driver monitor.
    method ReadDsmFields() returns (st: Status)
      requires readpacket.rpos == HEADER <= |readpacket.storage|
      modifies readpacket`rpos
      ensures st == if |readpacket.storage| < ALARM_ENTRIES - 1 then PositionException else Ok
      ensures st.Ok? ==> readpacket.rpos == ALARM_ENTRIES - 1
    {
      var alarmId :- ReadSwapped(4);
      var alarmState :- readpacket.Read(1);
      var alarmType :- readpacket.Read(1);
      var drowsinessLevel :- readpacket.Read(1);
      :- readpacket.ReadSkip(4);
      var myCarSpeed :- readpacket.Read(1);
      var myCarHeight :- readpacket.Read(2);
      var myCarLatitude :- readpacket.Read(4);
      var myCarLongitude :- readpacket.Read(4);
      :- readpacket.ReadSkip(6);
      var myCarState :- readpacket.Read(2);
      st := Ok;
    }

    // 0x36 from a driver-assistance sensor.
    method HandleAdasAlarmReport() returns (st: Status)
      requires readpacket.rpos == HEADER <= |readpacket.storage|
      modifies this`pending, this`current, this`file, this`waiting, this`due
      modifies this`popped, this`taken, this`abandoned, this`labels, this`reports, readpacket`rpos
      ensures match ParseAlarm(readpacket.storage)
              case None => st != Ok
              case Some(media) =>
                && st == Ok && readpacket.rpos == ALARM_ENTRIES + 5 * |media|
                && Session.OnMessage(old(View()), Alarm(media)) == Some(View())
    {
      st := ReadAdasFields();
      if st != Ok { return; }
      var mediaCount :- ReadByte();
      :- ReadMediaEntries(mediaCount);
      StartReport();
      st := Ok;
    }

    // 0x36 from a driver monitor.
    method HandleDsmAlarmReport() returns (st: Status)
      requires readpacket.rpos == HEADER <= |readpacket.storage|
      modifies this`pending, this`current, this`file, this`waiting, this`due
      modifies this`popped, this`taken, this`abandoned, this`labels, this`reports, readpacket`rpos
      ensures match ParseAlarm(readpacket.storage)
              case None => st != Ok
              case Some(media) =>
                && st == Ok && readpacket.rpos == ALARM_ENTRIES + 5 * |media|
                && Session.OnMessage(old(View()), Alarm(media)) == Some(View())
    {
      st := ReadDsmFields();
      if st != Ok { return; }
      var mediaCount :- ReadByte();
      :- ReadMediaEntries(mediaCount);
      StartReport();
      st := Ok;
    }

    // >> of a uint8.
    method ReadByte() returns (st: Status, count: byte)
      modifies readpacket`rpos
      ensures st == if old(readpacket.rpos) + 1 > |readpacket.storage| then PositionException else Ok
      ensures st.Ok? ==> readpacket.rpos == old(readpacket.rpos) + 1
      ensures st.Ok? ==> count == readpacket.storage[old(readpacket.rpos)]
    {
      count := 0;
      ghost var at := readpacket.rpos;
      Widths();
      var v :- readpacket.Read(1);
      assert readpacket.storage[at..at + 1] == [readpacket.storage[at]];
      ByteImage(readpacket.storage[at]);
      count := v;
      st := Ok;
    }

    /* ------------------------- media data ------------------------- */

    // 0x51: >> of the packet fields, then the header and the closing delimiter are dropped.
    method ReadDataPacket() returns (st: Status, payload: seq<byte>)
      requires readpacket.rpos == HEADER <= |readpacket.storage|
      modifies this`mMediaType, this`mMultimediaId, this`mTotalPacketNo, this`mCurrentPacketNo, readpacket
      ensures readpacket.escbuffer == old(readpacket.escbuffer)
      ensures match ParseData(old(readpacket.storage))
              case None => st != Ok
              case Some(p) =>
                && st == Ok
                && p == DataPacket(mMediaType, mMultimediaId, mTotalPacketNo, mCurrentPacketNo, payload)
    {
      ghost var d := readpacket.storage;
      payload := [];
      Widths();
      mMediaType :- ReadByte();
      var mediaId :- ReadSwapped(4);
      mMultimediaId := mediaId;
      var total :- ReadSwapped(2);
      mTotalPacketNo := total;
      var current :- ReadSwapped(2);
      mCurrentPacketNo := current;
      if readpacket.rpos == |readpacket.storage| { return UndefinedBehaviour, []; }
      readpacket.ClearHeader();
      payload :- readpacket.Contents();
      st := Ok;
    }

    // fwrite
    method StorePayload(payload: seq<byte>)
      requires file.Open?
      modifies this`file, this`labels
      ensures var p := DataPacket(mMediaType, mMultimediaId, mTotalPacketNo, mCurrentPacketNo, payload);
              View() == old(View()).(queue := Stored(old(MediaQueue()), p))
    {
      file := Open(file.data + payload);
      labels := labels + [Descriptor(mMediaType, mMultimediaId)];
    }

    // fwrite and the acknowledgement.
    method StoreAndAcknowledge(payload: seq<byte>)
      requires Valid() && file.Open?
      modifies this`file, this`labels, this`sequence, this`mTotalPacketNo, this`mCurrentPacketNo, this`sent, outbox
      ensures Valid()
      ensures var p := DataPacket(mMediaType, mMultimediaId, old(mTotalPacketNo), old(mCurrentPacketNo), payload);
              View() == Session.Acked(old(View()), p)
      ensures outbox.View() == Wire.PostNew(old(outbox.View()), old(sent), sent)
    {
      ghost var p := DataPacket(mMediaType, mMultimediaId, mTotalPacketNo, mCurrentPacketNo, payload);
      ghost var before := View();
      StorePayload(payload);
      Session.AcknowledgeOtherQueue(before, p, MediaQueue());
      ghost var q := outbox.View();
      SendAttachmentLoadAck(payload);
      Wire.PostsOne(q, before.sent, AckBody(View().sender, p));
    }

    // fclose
    method CloseStream()
      modifies this`file, this`labels, this`saved
      ensures View() == old(View()).(queue := CloseFile(old(MediaQueue())))
    {
      saved := saved + Current(MediaQueue());
      file := NoFile;
      labels := [];
    }

    // fclose and the next item.
    method CloseMedia()
      requires file.Open?
      modifies this`pending, this`current, this`file, this`waiting, this`due
      modifies this`popped, this`taken, this`saved, this`abandoned, this`labels
      ensures View() == Session.Closed(old(View()))
      ensures sent == old(sent)
    {
      ghost var before := View();
      CloseStream();
      Session.WithQueueAfter(before, MediaQueue(), Pop(MediaQueue()));
      SendMultimediaRequest();
    }

    // The rest of the data handler: store, acknowledge, and after the last packet close the file.
    method AcceptPacket(payload: seq<byte>)
      requires Valid() && file.Open?
      modifies this`file, this`labels, this`sequence, this`mTotalPacketNo, this`mCurrentPacketNo, this`sent, outbox
      modifies this`pending, this`current, this`waiting, this`due
      modifies this`popped, this`taken, this`saved, this`abandoned
      ensures Valid()
      ensures var p := DataPacket(mMediaType, mMultimediaId, old(mTotalPacketNo), old(mCurrentPacketNo), payload);
              var acked := Session.Acked(old(View()), p);
              View() == if IsLast(p) then Session.Closed(acked) else acked
      ensures outbox.View() == Wire.PostNew(old(outbox.View()), old(sent), sent)
    {
      ghost var p := DataPacket(mMediaType, mMultimediaId, mTotalPacketNo, mCurrentPacketNo, payload);
      ghost var acked := Session.Acked(View(), p);
      var packetCount: uint16 := (mCurrentPacketNo + 1) % 0x1_0000;
      var totalPacketNo := mTotalPacketNo;
      assert IsLast(p) <==> totalPacketNo == packetCount;
      StoreAndAcknowledge(payload);
      assert View() == acked;
      CloseAfterLast(totalPacketNo == packetCount);
      assert View() == if IsLast(p) then Session.Closed(acked) else acked;
    }

    method CloseAfterLast(last: bool)
      requires Valid() && file.Open?
      modifies this`pending, this`current, this`file, this`waiting, this`due
      modifies this`popped, this`taken, this`saved, this`abandoned, this`labels
      ensures Valid()
      ensures View() == if last then Session.Closed(old(View())) else old(View())
    {
      if last { CloseMedia(); }
    }

    method ReceiveData() returns (st: Status)
      requires Valid() && readpacket.rpos == HEADER <= |readpacket.storage|
      modifies this`mMediaType, this`mMultimediaId, readpacket
      modifies this`file, this`labels, this`sequence, this`mTotalPacketNo, this`mCurrentPacketNo, this`sent, outbox
      modifies this`pending, this`current, this`waiting, this`due
      modifies this`popped, this`taken, this`saved, this`abandoned
      ensures Valid()
      ensures match Session.OnDataIn(old(View()), old(readpacket.storage))
              case None => st != Ok
              case Some(t) => st == Ok && View() == t
      ensures st.Ok? ==> outbox.View() == Wire.PostNew(old(outbox.View()), old(sent), sent)
    {
      ghost var before := View();
      var payload;
      st, payload := ReadDataPacket();
      if st == Ok {
        ghost var p := DataPacket(mMediaType, mMultimediaId, mTotalPacketNo, mCurrentPacketNo, payload);
        assert View() == before;
        if file == NoFile { return UndefinedBehaviour; }
        Session.DataSteps(before, p);
        AcceptPacket(payload);
      }
    }

    method HandleAttachmentLoad() returns (st: Status)
      requires Valid() && readpacket.rpos == HEADER <= |readpacket.storage|
      requires readpacket.storage[7] == OP_MEDIA_DATA
      modifies this`mMediaType, this`mMultimediaId, readpacket
      modifies this`file, this`labels, this`sequence, this`mTotalPacketNo, this`mCurrentPacketNo, this`sent, outbox
      modifies this`pending, this`current, this`waiting, this`due
      modifies this`popped, this`taken, this`saved, this`abandoned
      ensures Valid()
      ensures match Session.OnDecoded(old(View()), old(readpacket.storage))
              case None => st != Ok
              case Some(t) => st == Ok && View() == t
      ensures st.Ok? ==> outbox.View() == Wire.PostNew(old(outbox.View()), old(sent), sent)
    {
      Session.DataDecoded(View(), readpacket.storage);
      CancelMediaTimer();
      st := ReceiveData();
    }

    /* ------------------------- configuration and status ------------------------- */

    // 0x34: one statement of >> per step of the script of the sensor kind.
    method HandleActiveSetConfigPacket() returns (st: Status)
      requires Valid() && readpacket.rpos == HEADER <= |readpacket.storage|
      requires readpacket.storage[7] == OP_CONFIG_REPLY
      modifies this`config, readpacket`rpos
      ensures Valid()
      ensures match Session.OnDecoded(old(View()), readpacket.storage)
              case None => st != Ok
              case Some(t) => st == Ok && View() == t
      ensures match ReadScript(old(config), Reads(sTerminal), readpacket.storage, old(readpacket.rpos))
              case None => st != Ok
              case Some((m, end)) => st == Ok && config == m && readpacket.rpos == end
    {
      Session.ConfigReplyDecoded(View(), readpacket.storage);
      ScriptsMirror(sTerminal);
      MirrorsTyped(Writes(sTerminal), Reads(sTerminal));
      st := RunReads(Reads(sTerminal));
    }

    method RunReads(script: Script<ReadOp>) returns (st: Status)
      requires InRange(config) && Typed(script) && readpacket.rpos <= |readpacket.storage|
      modifies this`config, readpacket`rpos
      ensures InRange(config)
      ensures match ReadScript(old(config), script, readpacket.storage, old(readpacket.rpos))
              case None => st != Ok
              case Some((m, end)) => st == Ok && config == m && readpacket.rpos == end
    {
      var r := script;
      ghost var s := readpacket.storage;
      ghost var result := ReadScript(config, r, s, readpacket.rpos);
      while r.Then?
        invariant readpacket.rpos <= |s| && InRange(config) && Typed(r)
        invariant result == ReadScript(config, r, s, readpacket.rpos)
        decreases r
      {
        ReadScriptStep(config, r, s, readpacket.rpos);
        :- Execute(r.op);
        r := r.next;
      }
      st := Ok;
    }

    // One step of such a script.
    method Execute(op: ReadOp) returns (st: Status)
      requires InRange(config) && TypedOp(op) && readpacket.rpos <= |readpacket.storage|
      modifies this`config, readpacket`rpos
      ensures InRange(config)
      ensures st == if old(readpacket.rpos) + OpWidth(op) > |readpacket.storage| then PositionException else Ok
      ensures st.Ok? ==>
                && readpacket.rpos == old(readpacket.rpos) + OpWidth(op)
                && config == ApplyOp(old(config), op, readpacket.storage[old(readpacket.rpos)..readpacket.rpos])
    {
      Widths();
      match op {
        case GetBytes(fs) => :- ReadFields(fs);
        case GetHost16(f) =>
          var v :- readpacket.Read(2);
          PutInRange(config, f, v);
          config := Put(config, f, v);
        case Swap16(f) =>
          assert Get(config, f) < Pow256(Width(f));
          var v := SwapEndianCopy(Get(config, f), 2);
          PutInRange(config, f, v);
          config := Put(config, f, v);
        case SkipBytes(n) => :- readpacket.ReadSkip(n);
      }
      st := Ok;
    }

    // One statement of >> into 8-bit fields.
    method ReadFields(fs: seq<Field>) returns (st: Status)
      requires InRange(config) && AllBytes(fs) && readpacket.rpos <= |readpacket.storage|
      modifies this`config, readpacket`rpos
      ensures InRange(config)
      ensures st == if old(readpacket.rpos) + |fs| > |readpacket.storage| then PositionException else Ok
      ensures st.Ok? ==>
                && readpacket.rpos == old(readpacket.rpos) + |fs|
                && config == SetFields(old(config), fs, readpacket.storage[old(readpacket.rpos)..readpacket.rpos])
    {
      ghost var s, at := readpacket.storage, readpacket.rpos;
      ghost var enough := at + |fs| <= |s|;
      ghost var result := if enough then SetFields(config, fs, s[at..at + |fs|]) else config;
      Widths();
      var i := 0;
      assert fs[0..] == fs;
      while i < |fs|
        invariant 0 <= i <= |fs| && readpacket.rpos == at + i <= |s| && InRange(config)
        invariant enough ==> SetFrom(config, fs, s, at, i) == result
      {
        var v :- readpacket.Read(1);
        if enough { NextField(config, fs, s, at, i); }
        PutInRange(config, fs[i], v);
        config := Put(config, fs[i], v);
        i := i + 1;
      }
      st := Ok;
    }

    // 0x38
    method HandleStatusReport() returns (st: Status)
      requires Valid() && readpacket.rpos == HEADER <= |readpacket.storage|
      requires readpacket.storage[7] == OP_STATUS
      modifies this`sent, readpacket`rpos, outbox
      ensures Valid()
      ensures st.Ok? <==> |readpacket.storage| >= 13
      ensures st.Ok? && (sTerminal == 0x64 || sTerminal == 0x65) ==>
                var body := ConfigBody(old(View()).sender, 0x35, config);
                && sent == old(sent) + [body]
                && outbox.View() == Outbox.Step(old(outbox.View()), Outbox.Post(Encode(body)))
      ensures st.Ok? && sTerminal != 0x64 && sTerminal != 0x65 ==>
                sent == old(sent) && outbox.View() == old(outbox.View())
      ensures match Session.OnDecoded(old(View()), readpacket.storage)
              case None => st != Ok
              case Some(t) => st == Ok && View() == t
      ensures st.Ok? ==> outbox.View() == Wire.PostNew(old(outbox.View()), old(sent), sent)
    {
      ghost var before, q := View(), outbox.View();
      Session.StatusDecoded(before, readpacket.storage);
      var sensorState :- readpacket.Read(1);
      var alarmState :- readpacket.Read(4);
      SendActiveSetConfigPacket();
      Wire.PostsNothing(q, before.sent);
      Wire.PostsOne(q, before.sent, ConfigBody(before.sender, OP_CONFIG_SET, config));
      st := Ok;
    }

    /* ------------------------- dispatch ------------------------- */

    // 0x36, by sensor kind.
    method HandleAlarmReport() returns (st: Status)
      requires readpacket.rpos == HEADER <= |readpacket.storage|
      requires sTerminal == readpacket.storage[6] && readpacket.storage[7] == OP_ALARM
      modifies this`pending, this`current, this`file, this`waiting, this`due
      modifies this`popped, this`taken, this`abandoned, this`labels, this`reports, readpacket`rpos
      ensures match Session.OnDecoded(old(View()), readpacket.storage)
              case None => st != Ok
              case Some(t) => st == Ok && View() == t
      ensures sent == old(sent)
    {
      st := Ok;
      Session.AlarmDecoded(View(), readpacket.storage);
      if sTerminal == ADASID { st := HandleAdasAlarmReport(); }
      if sTerminal == DMSID { st := HandleDsmAlarmReport(); }
    }

    // processInput; the switch cases that only print fall under the default.
    method ProcessInput() returns (st: Status)
      requires Valid() && readpacket.rpos == HEADER <= |readpacket.storage|
      requires sTerminal == readpacket.storage[6] && sOpcode == readpacket.storage[7]
      modifies this, readpacket, outbox
      ensures totalBytesRead == old(totalBytesRead)
      ensures st.Ok? ==> Valid()
      ensures match Session.OnDecoded(old(View()), old(readpacket.storage))
              case None => st != Ok
              case Some(t) => st == Ok && View() == t
      ensures st.Ok? ==> outbox.View() == Wire.PostNew(old(outbox.View()), old(sent), sent)
    {
      st := Ok;
      Wire.PostsNothing(outbox.View(), sent);
      if sOpcode == OP_CONFIG_REPLY {
        st := HandleActiveSetConfigPacket();
      } else if sOpcode == OP_STATUS {
        st := HandleStatusReport();
      } else if sOpcode == OP_ALARM {
        st := HandleAlarmReport();
      } else if sOpcode == OP_MEDIA_DATA {
        st := HandleAttachmentLoad();
      } else {
        Session.OtherDecoded(View(), readpacket.storage);
      }
    }

    // >> of the header fields.
    method ReadHeader() returns (st: Status)
      requires readpacket.rpos == 0
      modifies this`sSync, this`sChecksum, this`sSequence, this`sManufacturer, this`sTerminal, this`sOpcode
      modifies readpacket`rpos
      ensures st == if |readpacket.storage| < HEADER then PositionException else Ok
      ensures st.Ok? ==>
                && readpacket.rpos == HEADER
                && sSync == readpacket.storage[0] && sChecksum == readpacket.storage[1]
                && sSequence == FromLittleEndian(readpacket.storage[2..4])
                && sManufacturer == FromLittleEndian(readpacket.storage[4..6])
                && sTerminal == readpacket.storage[6] && sOpcode == readpacket.storage[7]
    {
      Widths();
      sSync :- ReadByte();
      sChecksum :- ReadByte();
      var number :- readpacket.Read(2);
      sSequence := number;
      number :- readpacket.Read(2);
      sManufacturer := number;
      sTerminal :- ReadByte();
      sOpcode :- ReadByte();
      st := Ok;
    }

    // The chunk in the read buffer becomes the packet in hand.
    method LoadPacket(count: nat) returns (st: Status)
      requires count <= buf.Length && readpacket.escbuffer == []
      modifies readpacket
      ensures st == if Unstuff(buf[..count]).None? then PositionException else Ok
      ensures st.Ok? ==>
                && readpacket.storage == Unstuff(buf[..count]).value
                && readpacket.rpos == 0 && readpacket.escbuffer == []
    {
      readpacket.Clear();
      readpacket.storage := readpacket.storage + buf[..count];
      assert readpacket.storage == buf[..count];
      var decoded :- readpacket.Jt808Decode();
      st := Ok;
    }

    // The header is read off the decoded packet, and the packet handled.
    method HandlePacket() returns (st: Status)
      requires Valid() && readpacket.rpos == 0
      modifies this, readpacket, outbox
      ensures totalBytesRead == old(totalBytesRead)
      ensures st.Ok? ==> Valid() && outbox.View() == Wire.PostNew(old(outbox.View()), old(sent), sent)
      ensures match Session.OnUnstuffed(old(View()), old(readpacket.storage))
              case None => st != Ok
              case Some(t) => st == Ok && View() == t
    {
      ghost var before, d := View(), readpacket.storage;
      st := ReadHeader();
      if st == Ok {
        ghost var headed := before.(sender := before.sender.(terminal := d[6]));
        assert View() == headed && Session.OnUnstuffed(before, d) == Session.OnDecoded(headed, d);
        st := ProcessInput();
      }
    }

    method HandleChunk(count: nat) returns (st: Status)
      requires Valid() && count <= buf.Length
      modifies this, readpacket, outbox
      ensures totalBytesRead == old(totalBytesRead)
      ensures st.Ok? ==> Valid() && outbox.View() == Wire.PostNew(old(outbox.View()), old(sent), sent)
      ensures match Session.OnChunk(old(View()), buf[..count])
              case None => st != Ok
              case Some(t) => st == Ok && View() == t
    {
      Session.OnChunkDecodes(View(), buf[..count]);
      st := LoadPacket(count);
      if st == Ok { st := HandlePacket(); }
    }

    // The completion handler of the asynchronous read: segment has been stored behind what is held.
    method ReadMedia(segment: seq<byte>) returns (st: Status)
      requires Valid() && |segment| <= buf.Length - totalBytesRead
      requires totalBytesRead + |segment| > 0
      modifies this, buf, readpacket, outbox
      ensures st.Ok? ==> Valid()
      ensures match Wire.Step(old(System()), Wire.Local(EndToEnd.Segment(segment)))
              case None => st != Ok
              case Some(t) => st == Ok && System() == t
    {
      st := Ok;
      Wire.PostsNothing(outbox.View(), sent);
      var bytesCount := |segment|;
      ghost var all := Held() + segment;
      StoreSegment(segment);
      var lastByte := buf[totalBytesRead + bytesCount - 1];
      assert lastByte == all[|all| - 1];
      if lastByte == SIGN {
        st := HandleChunk(totalBytesRead + bytesCount);
        if st != Ok { return; }
        bytesCount := 0;
        totalBytesRead := 0;
      }
      totalBytesRead := totalBytesRead + bytesCount;
    }

    // The completion of a read with an error: aborted reads are ignored, others stop the connection.
    method ReadFailed(aborted: bool)
      requires Valid()
      modifies this`waiting, this`due, outbox
      ensures Valid()
      ensures Some(System()) == if aborted then Some(old(System())) else Wire.Step(old(System()), Wire.Close)
      ensures !aborted ==> !outbox.open && waiting == 0 && due == old(waiting) + old(due)
    {
      if aborted { return; }
      Stop();
    }

    // What the socket does with a read of these bytes.
    method StoreSegment(segment: seq<byte>)
      requires totalBytesRead + |segment| <= buf.Length
      modifies buf
      ensures buf[..totalBytesRead + |segment|] == old(buf[..totalBytesRead]) + segment
    {
      var i := 0;
      while i < |segment|
        invariant 0 <= i <= |segment|
        invariant buf[..totalBytesRead + i] == old(buf[..totalBytesRead]) + segment[..i]
      {
        buf[totalBytesRead + i] := segment[i];
        assert buf[..totalBytesRead + i + 1] == buf[..totalBytesRead + i] + [segment[i]];
        i := i + 1;
      }
      assert segment[..i] == segment;
    }
  }

  // The fields from the i-th on set from the bytes from at + i on.
  function SetFrom(config: Store, fs: seq<Field>, s: seq<byte>, at: nat, i: nat): Store
    requires i <= |fs| && at + |fs| <= |s|
  {
    SetFields(config, fs[i..], s[at + i..at + |fs|])
  }

  lemma NextField(config: Store, fs: seq<Field>, s: seq<byte>, at: nat, i: nat)
    requires i < |fs| && at + |fs| <= |s|
    ensures var v := FromLittleEndian(s[at + i..at + i + 1]);
            SetFrom(config, fs, s, at, i) == SetFrom(Put(config, fs[i], v), fs, s, at, i + 1)
  {
    var bytes := s[at + i..at + |fs|];
    SetFieldsStep(config, fs[i..], bytes);
    assert fs[i..][0] == fs[i] && fs[i..][1..] == fs[i + 1..];
    assert bytes[0] == s[at + i] && bytes[..1] == s[at + i..at + i + 1] && bytes[1..] == s[at + i + 1..at + |fs|];
    ByteImage(bytes[0]);
    assert s[at + i..at + i + 1] == [bytes[0]];
  }

  // The first m media entries of an alarm report.
  ghost predicate EntriesUpTo(d: seq<byte>, m: nat, media: seq<Descriptor>)
    requires ALARM_ENTRIES + 5 * m <= |d|
  {
    |media| == m && forall i :: 0 <= i < m ==> media[i] == DescriptorAt(d, ALARM_ENTRIES + 5 * i)
  }

  lemma AckAssembled(h: Sender, p: DataPacket)
    ensures Head(h, OP_MEDIA_DATA) + [p.mediaType] + BigEndian(p.mediaId, 4) + BigEndian(p.total, 2)
            + BigEndian(p.current, 2) + [0] == AckBody(h, p)
  {
    var x, a, b, c, d := Head(h, OP_MEDIA_DATA), [p.mediaType], BigEndian(p.mediaId, 4),
                         BigEndian(p.total, 2), BigEndian(p.current, 2);
    Associative(x, a, b);
    Associative(x, a + b, c);
    Associative(x, a + b + c, d);
  }
}
