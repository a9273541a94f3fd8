# Verified model of the active-safety sensor server

The server talks to driver-assistance and driver-monitoring sensors over TCP. Messages are framed as in
section 4.4.2 of JT/T 808-2011. An alarm report lists media items (pictures, videos); the server fetches
them one by one, each in numbered packets that it acknowledges and appends to a file.

This project models that stack in Dafny, from the bytes of a read up to the files that are saved, and proves
what the layers promise together.

| file | content |
|---|---|
| `Sequences.dfy`, `Wrappers.dfy` | facts about sequences; `Option`, and the exceptions as a `Status` |
| `Bytes.dfy` | fixed-width integers on a little-endian host, and the two byte-order reversals |
| `Framing.dfy` | byte stuffing, checksum and frames as functions on byte sequences |
| `PackedGuid.dfy` | the mask-and-bytes form of a 64-bit value |
| `ByteBuffer.dfy` | the class `ByteBuffer`: storage, two cursors, scratch vector |
| `Containers.dfy` | the stream operators of vectors, lists and maps over any element operators |
| `Reassembly.dfy` | what the read handler hands over, for any cut of the stream into reads |
| `Config.dfy` | the configuration globals and the stream statements that write and read them |
| `Messages.dfy` | the message layouts |
| `Layout.dfy` | the same at literal byte positions, with literal codes |
| `Transfer.dfy` | the media queue and the file in progress, as a fold over the messages |
| `Session.dfy` | the connection as a transition system: messages, timer expiry, timer-handler runs, heartbeats |
| `MediaTimer.dfy` | when a request waits, in terms of the two counters of the timer |
| `Settings.dfy` | the configuration and the sender data over runs |
| `Outbox.dfy` | the send queue, as a transition system and as a class |
| `EndToEnd.dfy` | the receiving side: reads, clock events, queue and files put together |
| `Wire.dfy` | the whole connection: the receiving side and the send queue as one transition system |
| `PoliteSensor.dfy` | a sensor that waits for every request, for which all hypotheses hold |
| `Connection.dfy` | the class `Connection`, whose methods are proved against the functions above |

## Conventions

- Bytes and unsigned integers are bounded integers; wrap-around is written out as `%`. In the packed form,
  `& 0xFF` is `% 0x100`, `>>= 8` is `/ 0x100`, and `|=` of bits that are still clear is `+`.
- The host is little-endian, so `EndianConvert` does nothing and `<<` writes the low byte first.
- Exceptions are a `Status` result. Nothing in the server catches them, so the process ends; a run of the model
  ends there too. `UndefinedBehaviour` is the result where the C++ has none: dropping the closing delimiter of
  an empty buffer, and writing to or closing a file that is not open.
- Handlers run one at a time, and every wait handler of the media timer runs exactly once, after expiry or
  after cancellation; which one makes no difference to the handler.
- A global that is shared by all connections is a field of the one connection modelled.
- History (files saved and abandoned, labels of the packets stored, descriptors popped, requests made, bodies
  sent) is kept in ghost fields of the class and in ordinary fields of the transition systems.
- Method bodies that write or read the configuration are long sequences of `<<` and `>>` statements. They are
  data here: one step of a `Script` per statement, the writer's and the reader's transcribed separately.

## What the code does differently from its description

- `addCheckSum` computes a start index from its parameter and then ignores it: the sum always starts at index 2.
- Its loop index has 8 bits, so the loop ends exactly for sizes up to 255 (`Framing.ChecksumLoopExitsIff`).
- The repository's notes call the serial number unused; the acknowledgement increments it and the heartbeat
  swaps its bytes all the same.
- A data packet is stored whatever media ID it carries. An alarm that arrives before the timer handler has run
  makes the server ask twice for the new item and never for the old one (`Session.HastyAlarm`); the exact
  condition under which requests and items are in step at the end of a run is `Session.InStepIff`.
- The repository's notes say that a new alarm drops the media not yet received. An alarm that lists nothing drops
  only what is pending (`Transfer.AlarmDropsIff`, `Transfer.EmptyAlarm`), and a packet that still arrives for a
  dropped item goes into the file of the new one (`Transfer.LatePacket`). The exact condition under which files hold
  only their own media is `Transfer.FilesHoldTheirMedia`.
- A read that ends right after an opening delimiter, or runs past the end of a frame, breaks reassembly;
  `Reassembly.ReassemblyIff` gives the exact condition on the lengths of the reads; `EndToEnd.TwoFramesInOneRead`
  and `EndToEnd.LoneDelimiter` show what happens otherwise.

## Model

| member | source | states |
|---|---|---|
| Bytes.SwapEndianCopy | src/Connection.cpp:18-35 | the copy loop yields the value whose byte image is the reverse of the input's |
| Bytes.Convert | include/ByteConverter.h:20-28 | the recursive end-swapping reverses exactly the given range in place, for every width |
| Bytes.ReversalsAgree | include/ByteConverter.h:30-33 | both reversals agree on every value and width, and each is its own inverse |
| Framing.UnstuffStuff | Packets/ByteBuffer.h:616-655 | un-stuffing undoes stuffing for every byte sequence of any length |
| Framing.UnstuffStuffThen | Packets/ByteBuffer.h:623-645 | stuffed content is a prefix code: decoding goes on exactly where it ends |
| Framing.StuffInPlace | Packets/ByteBuffer.h:571-601 | in the middle of any content 0x7E becomes 0x7D 0x02, 0x7D becomes 0x7D 0x01, every other byte stays |
| Framing.UnstuffInPlace | Packets/ByteBuffer.h:623-645 | wherever the decoder stands: the same pairs read back, an escape byte before anything else stands for itself, a last one fails |
| Framing.StuffIsWellStuffed | Packets/ByteBuffer.h:571-601 | stuffed content holds no delimiter, every escape byte is followed by 1 or 2, and only special bytes are doubled |
| Framing.WellStuffedIsStuffed | Packets/ByteBuffer.h:571-601 | conversely every such sequence is the stuffing of what it decodes to |
| Framing.UnstuffTotality | Packets/ByteBuffer.h:616-655 | decoding throws if and only if the last byte is a lone escape byte, and never lengthens its input |
| Framing.UnstuffKeepsFinalSign | src/Connection.cpp:247-258 | a chunk ending in a delimiter always decodes, to content that ends in a delimiter |
| Framing.UnstuffFrame | Packets/ByteBuffer.h:616-655 | a frame with any checksum byte decodes to delimiter, checksum, body, delimiter |
| Framing.FrameBytes | Packets/ByteBuffer.h:562-613 | a frame is 0x7E, stuffed checksum and body, 0x7E |
| Framing.FrameHasShape | Packets/ByteBuffer.h:562-613 | delimiters at both ends and nowhere else; exact length |
| Framing.ShapeIsFrame | Packets/ByteBuffer.h:616-655 | conversely every well-shaped chunk is the frame of what is decoded from it |
| Framing.FrameInjective | Packets/ByteBuffer.h:562-613 | equal frames carry equal bodies and checksums |
| Framing.FramesSplitUniquely | Packets/ByteBuffer.h:562-613 | a concatenation of frames splits in only one way |
| Framing.ChecksumLoopExitsIff | Packets/ByteBuffer.h:530-538 | with its 8-bit index the loop ends if and only if the size is at most 255 |
| Framing.ChecksumRule | Packets/ByteBuffer.h:535-540 | the first two bytes do not count, every further byte adds in full, modulo 256 |
| Framing.ChecksumIgnoresStart | Packets/ByteBuffer.h:535-540 | replacing the first or second byte leaves the checksum alone |
| Framing.ChecksumDetectsOneByte | Packets/ByteBuffer.h:525-543 | changing one byte from index 2 on changes the checksum, and only a real change does |
| Framing.ChecksumOfParts | Packets/ByteBuffer.h:544-560 | a first and a later part add, modulo 256, to the checksum of the whole |
| Buffers.ByteBuffer.Append | Packets/ByteBuffer.h:441-471 | copies over from the write cursor, zero-extending first; throws on an empty source and then changes nothing |
| Buffers.WrittenAt | Packets/ByteBuffer.h:441-471 | every byte after a copy: the source, the old contents, or zero |
| Buffers.ByteBuffer.AppendValue | Packets/ByteBuffer.h:97-101 | writes the little-endian image at the write cursor |
| Buffers.ByteBuffer.AppendString | Packets/ByteBuffer.h:171-185 | writes the characters and one NUL |
| Buffers.ByteBuffer.ReadAt | Packets/ByteBuffer.h:329-336 | throws exactly past the end, otherwise the value of the bytes |
| Buffers.ByteBuffer.Read | Packets/ByteBuffer.h:322-327 | the same at the read cursor, which moves only on success |
| Buffers.ByteBuffer.ReadSkip | Packets/ByteBuffer.h:315-320 | moves the cursor or throws exactly past the end |
| Buffers.ByteBuffer.ReadString | Packets/ByteBuffer.h:264-275 | the longest NUL-free run at the cursor; its NUL, if there is one, is consumed |
| Buffers.ByteBuffer.ClearHeader | Packets/ByteBuffer.h:90-95 | removes precisely what has been read and the last byte |
| Buffers.ByteBuffer.Contents | Packets/ByteBuffer.h:392-397 | throws exactly on an empty buffer |
| Buffers.ByteBuffer.AddCheckSum | Packets/ByteBuffer.h:525-543 | prepends the low 8 bits of the sum from index 2, without index wrap-around up to size 255 |
| Buffers.ByteBuffer.GetFirstDecodeCheckSum | Packets/ByteBuffer.h:544-560 | the sum from index 2 or 0, as asked |
| Buffers.ByteBuffer.Jt808Encode | Packets/ByteBuffer.h:562-613 | the storage becomes the frame of its old contents; exact effect of a scratch vector that was not empty |
| Buffers.ByteBuffer.Jt808Decode | Packets/ByteBuffer.h:616-655 | the storage becomes its un-stuffing, or the call throws exactly when there is none and leaves the storage alone |
| Buffers.EncodeThenDecode | Packets/ByteBuffer.h:562-655 | for every body of 1 to 255 bytes: delimiter, checksum, body, delimiter; write cursor at the end, scratch vector empty |
| Buffers.ByteBuffer.AppendPackGUID | Packets/ByteBuffer.h:489-506 | writes the mask byte and the non-zero bytes |
| Buffers.ByteBuffer.ReadPackGUID | Packets/ByteBuffer.h:346-368 | reads what the mask describes, or throws exactly when the buffer is too short |
| PackedGuid.GuidRoundTrip | Packets/ByteBuffer.h:346-368 | reading undoes writing for every 64-bit value, consuming 1 + (number of non-zero bytes) bytes |
| PackedGuid.GuidCanonical | Packets/ByteBuffer.h:489-506 | re-encoding gives the same bytes if and only if no payload byte was zero |
| PackedGuid.UnpackFailsIff | Packets/ByteBuffer.h:346-368 | reading fails if and only if fewer bytes are left than mask bits are set |
| Layout.PackedLayout | Packets/ByteBuffer.h:489-506 | bit i of the mask byte stands for byte i from the low end, and the non-zero bytes follow in that order |
| Containers.UnsignedIsPrefixCode | Packets/ByteBuffer.h:193-215 | the integer operators read back what was written and stop at its end |
| Containers.NulTerminatedIsPrefixCode | Packets/ByteBuffer.h:264-275 | so do the string operators on NUL-free strings |
| Containers.PairIsPrefixCode | Packets/ByteBuffer.h:731-737 | so does a key followed by its value |
| Containers.VectorIsPrefixCode | Packets/ByteBuffer.h:662-712 | so do the vector and list operators over any such element operators, for sizes below 2^32 |
| Containers.NestedStringsArePrefixCode | Packets/ByteBuffer.h:662-712 | hence nested containers of strings |
| Containers.InsertAllOfListing | Packets/ByteBuffer.h:730-737 | inserting the entries of a map in any order rebuilds it |
| Containers.FirstEntryKept | Packets/ByteBuffer.h:730-737 | of entries with equal keys the first is kept |
| Containers.MapRoundTrip | Packets/ByteBuffer.h:714-739 | a map written in any iteration order is read back, with the cursor at its end |
| Containers.MapIsPrefixCode | Packets/ByteBuffer.h:714-739 | so the map operators over prefix codes are a prefix code again, whatever the iteration order |
| Containers.NestedMapsArePrefixCode | Packets/ByteBuffer.h:662-739 | hence vectors of maps from strings to maps from integers to vectors of strings |
| Containers.WriteVector | Packets/ByteBuffer.h:662-671 | the loop appends the 32-bit size and all elements at the write cursor |
| Layout.VectorLayout | Packets/ByteBuffer.h:662-671 | the size in four bytes from the low end up, then the elements in order |
| Containers.ReadVector | Packets/ByteBuffer.h:673-686 | the loop reads as many elements as the size says, or throws exactly when one read does |
| Containers.ReadMap | Packets/ByteBuffer.h:725-739 | the same for entries, keeping the first of equal keys |
| Containers.WriteThenReadVector | Packets/ByteBuffer.h:662-686 | a vector comes back whole, with the read cursor at the write cursor |
| Containers.WriteThenReadMap | Packets/ByteBuffer.h:714-739 | so does a map |
| Reassembly.AccumulatorInvariant | src/Connection.cpp:223-273 | whatever the peer sends: chunks handed over and bytes held are the bytes received; chunks end in a delimiter, what is held does not; while the reads fit the buffer, so does what is held and handed over |
| Reassembly.HandedOverChunksDecode | src/Connection.cpp:247-258 | hence the decoder never throws on a chunk handed over |
| Reassembly.ReassemblyIff | src/Connection.cpp:223-273 | the frames are handed over one by one if and only if the lengths of the reads respect the frame boundaries |
| Reassembly.RespectedFramesFit | src/Connection.cpp:230-231 | frames of at most 131072 bytes always fit the buffer |
| Config.ScriptsMirror | src/Connection.cpp:593-675 | statement by statement, each reader undoes the writer of its sensor kind |
| Config.MirrorsRoundTrip | src/Connection.cpp:691-778 | reading back restores every field written, touches no other, and ends at the end of the block |
| Config.ReadScriptFailsIff | src/Connection.cpp:593-675 | a reader throws if and only if the block is too short |
| Config.BlockWidth | src/Connection.cpp:691-778 | the blocks are 50 and 43 bytes long |
| Messages.DataFrameParses | src/Connection.cpp:276-291 | a data frame with a non-empty payload is read back to the packet sent |
| Messages.TwoFramesParseAsOne | src/Connection.cpp:247-263 | a data frame handed over together with another frame is read as one packet that has swallowed the other frame |
| Messages.AlarmFrameParses | src/Connection.cpp:1076-1087 | an alarm frame of either sensor is read back to the media list sent, whatever its fixed fields hold |
| Messages.RequestNames | src/Connection.cpp:853-863 | the receiver of a 0x50 frame reads off exactly the wanted item |
| Messages.AckEchoes | src/Connection.cpp:1170-1192 | the acknowledgement repeats type, ID, total and number byte for byte, then a zero status |
| Messages.ConfigThroughFrame | src/Connection.cpp:691-778 | written, stuffed, un-stuffed and read, a configuration is restored and the cursor stands on the closing delimiter |
| Messages.BodiesFitChecksum | src/Connection.cpp:452-561 | every body the senders build, by its exact length, is within the bound of the checksum loop |
| Layout.RequestBytes | src/Connection.cpp:853-863 | the 0x50 body byte by byte |
| Layout.AckBytes | src/Connection.cpp:1170-1192 | the 0x51 body byte by byte |
| Layout.HeartbeatBytes | src/Connection.cpp:491-528 | the 0x31 body byte by byte, time before vehicle state |
| Layout.SwappedSerial | src/Connection.cpp:506 | the heartbeat exchanges the two bytes of the serial number |
| Layout.ConfigBytes | src/Connection.cpp:691-778 | the 0x35 body: head, then every field at its position for each kind of sensor, nothing for other kinds |
| Layout.AdasPositions | src/Connection.cpp:691-733 | every field of the driver-assistance block at its literal position |
| Layout.DsmPositions | src/Connection.cpp:735-778 | every field of the driver-monitor block at its literal position |
| Layout.Dispatch | src/Connection.cpp:261-354 | the header and every field read from a decoded packet at literal positions, with literal opcodes, terminal codes and minimum lengths |
| Transfer.QueueSafety | src/Connection.cpp:865-932 | in every run: of each report a prefix has been popped, pending is the rest of the latest, superseded reports are frozen |
| Transfer.QueueSafetyFromStart | src/Connection.cpp:1076-1091 | the same from a fresh connection |
| Transfer.CurrentFromLatestMedia | src/Connection.cpp:870-881 | the current descriptor comes from the latest report that listed media |
| Transfer.PartParses | src/Connection.cpp:281-297 | despite the 16-bit count exactly the last of up to 65535 packets is taken for the last |
| Transfer.PartsAccumulate | src/Connection.cpp:291-297 | before the last packet the file is open and holds the payloads so far |
| Transfer.ItemIsSaved | src/Connection.cpp:293-307 | at the last packet, of up to 65535, it is closed with exactly the payloads, and the next item starts |
| Transfer.ItemsAreSaved | src/Connection.cpp:276-310 | the items of a queue are saved one after the other until the queue is empty |
| Transfer.WholeAlarm | src/Connection.cpp:1078-1091 | an alarm and the packets of its items: a file left open is abandoned, all descriptors popped in report order, and the file opened for the i-th holds the i-th item |
| Transfer.WholeAlarms | src/Connection.cpp:1078-1091 | the same for any number of alarms, one after another |
| Transfer.FilesHoldTheirMedia | src/Connection.cpp:276-310 | in every run: at the end every file, saved, abandoned or open, holds only packets labelled with the descriptor it was opened for if and only if that was so at the start and each data packet carried the type and ID of the descriptor current when it arrived |
| Transfer.LatePacket | src/Connection.cpp:276-310 | at its input: the last packet of an interrupted item is saved as the item of the interrupting alarm, and the next data packet finds no open file |
| Transfer.AlarmDropsIff | src/Connection.cpp:865-932 | an alarm drops the interrupted item if and only if it lists media |
| Transfer.EmptyAlarm | src/Connection.cpp:1076-1091 | at its input: an alarm that lists nothing drops what is pending, while the interrupted item goes on and is saved |
| Session.RequestConservation | src/Connection.cpp:820-847 | in every run: handler runs plus outstanding handlers are descriptors popped |
| Session.RequestsOnTheWire | src/Connection.cpp:853-863 | in every run: the frames of all bodies passed on for writing carry exactly the requests made, in order |
| Session.AcksOnTheWire | src/Connection.cpp:276-310 | and exactly one acknowledgement with status zero for each data packet received, in order |
| Settings.ReportsAreAnswered | src/Connection.cpp:965-989 | in every run: one configuration frame per status report of a known sensor, in order, each restoring at its receiver the configuration held when the report arrived; none for other reports |
| Settings.ConfigTakenOver | src/Connection.cpp:584-675 | a configuration reply is taken over field by field |
| Settings.ConfigKept | src/Connection.cpp:584-675 | nothing but a configuration reply changes the configuration held |
| Settings.SenderAfterChunk | src/Connection.cpp:1170-1180 | a chunk sets the terminal code; a data packet counts the serial number up, from 65535 to 0 |
| Settings.SenderAfterTick | src/Connection.cpp:491-506 | a heartbeat exchanges the bytes of the serial number; the clock changes nothing else |
| Settings.StepHeads | src/Connection.cpp:853-863 | whatever a step sends starts with the sender data as they are after the step |
| Session.TimerRequests | src/Connection.cpp:833-863 | each run passes on one body, and the receiver of its frame reads off a request for the then-current item |
| MediaTimer.MessageTimer | src/Connection.cpp:820-832 | a pop starts one wait; of a picture or a video it first makes every earlier wait due, of any other type it does not |
| MediaTimer.TickTimer | src/Connection.cpp:833-847 | expiry makes every wait due, a run uses up one and makes the others due, a heartbeat does neither |
| MediaTimer.RequestsWait | src/Connection.cpp:820-847 | no handler becomes due in a run if and only if nothing in it ends a wait, and then no request is made |
| MediaTimer.FirstRequestWaits | src/Connection.cpp:820-847 | at its input: after the first alarm no handler can run before expiry |
| Session.QueueFollowsChunks | src/Connection.cpp:832-846 | timer events never touch queue or file, wherever they fall |
| Session.MediaRunIsDefined | src/Connection.cpp:276-310 | a run of alarms and data faults only if the data finds no open file |
| Session.InStepIff | src/Connection.cpp:820-932 | from any state in step: at the end of a run the items popped are those requested and those the outstanding handlers will ask for if and only if every step that popped while a handler was outstanding popped the current descriptor again |
| Session.RequestedOnceIff | src/Connection.cpp:820-932 | hence with every handler run, requests and items popped are the same sequence if and only if that condition, known before each step, held throughout |
| Session.PatientIsUndisturbed | src/Connection.cpp:820-932 | a peer that waits for the requests meets the condition |
| Session.RequestedExactlyOnce | src/Connection.cpp:820-863 | if the peer waits for the request, the items requested are those popped, each once, in order, and nothing of an item arrives before its request |
| Session.HastyAlarm | src/Connection.cpp:833-863 | two alarm frames on a fresh connection before the first handler has run: the requests on the wire name the second item twice and the first never |
| EndToEnd.RunDelivers | src/Connection.cpp:223-273 | a run over reads is the run over the chunks they complete |
| EndToEnd.SegmentationIndependence | src/Connection.cpp:223-273 | two cuts of the same frames lead a connection from any state to the same end, fault or state |
| EndToEnd.SegmentationIndependenceOfQueue | src/Connection.cpp:223-273 | with the clock acting anywhere in between, bytes held, queue and file are still the same |
| EndToEnd.TwoFramesInOneRead | src/Connection.cpp:247-310 | a read that spans two frames: one chunk, the second frame is written to the file as if it were media, one acknowledgement |
| EndToEnd.LoneDelimiter | src/Connection.cpp:247-261 | a read that ends right after an opening delimiter: that byte is handed over and reading the header throws |
| EndToEnd.ItemOverTheWire | src/Connection.cpp:223-310 | any number of packets of an item, cut into reads in any respecting way, among any timer events: the file holds them, closing at the last and never earlier |
| EndToEnd.AlarmsOverTheWire | src/Connection.cpp:223-310 | any number of whole alarm sessions over any such cut neither faults nor keeps bytes back; the file opened for the i-th descriptor of an alarm holds the i-th item sent for it |
| EndToEnd.FilesHoldTheirMediaOverTheWire | src/Connection.cpp:223-310 | over any reads and clock events, files hold only their own packets if and only if each packet handed over was one of the item then current |
| Wire.RequestsReachTheWire | src/Connection.cpp:388-448 | in every run of the whole connection, with write errors, closing and heartbeats anywhere: the queue has accepted the frames of what was passed on, all of them while open; the requests read off the frames written are a prefix of those made, and all of them once an open queue is drained |
| Wire.RunProjects | src/Connection.cpp:223-273 | the receiving side of such a run is a run of its own; what happens to the queue reaches it only as a cancelled media timer |
| Wire.ReadRequestsIff | src/Connection.cpp:820-932 | in every run from the start that ends idle and drained: the requests in the frames written are the items popped if and only if the run was undisturbed |
| Wire.AcksReachTheWire | src/Connection.cpp:276-310 | in every run from the start: the acknowledgements in the frames written are a prefix, in order, of the data packets received, and all of them once an open queue is drained |
| Wire.ConfigsReachTheWire | src/Connection.cpp:965-989 | in every run from the start: the configurations in the frames written answer the first status reports, in order, and all of them once an open queue is drained |
| Wire.RequestsWait | src/Connection.cpp:820-847 | no request is made or written as long as nothing ends a wait |
| Wire.StoppingStops | src/Connection.cpp:172-187 | stopping closes the socket and makes every wait due |
| Wire.FailedWriteStops | src/Connection.cpp:431-442 | so does a failed write |
| Wire.ClosedHeartbeat | src/Connection.cpp:366-380 | a heartbeat on a closed socket changes nothing |
| Wire.AfterClosing | src/Connection.cpp:388-418 | after stopping, whatever happens, nothing is accepted for writing and at most the write under way completes |
| Wire.FilesHoldTheirMedia | src/Connection.cpp:276-310 | the condition on the packets, for every run of the whole connection |
| Wire.AlarmsReceived | src/Connection.cpp:223-310 | any number of whole alarm sessions are saved whatever happens to the send queue |
| Wire.AlarmsRequested | src/Connection.cpp:820-932 | if the sensor waits until no handler is outstanding, each item of each alarm is requested exactly once, in order; the frames written carry a prefix of these requests, all of them once an open queue is drained; the end state meets the hypotheses again |
| Wire.AttentiveIsPatient | src/Connection.cpp:388-448 | a sensor that waits for the written request frames waits until no handler is outstanding |
| Wire.AlarmsAnswered | src/Connection.cpp:820-932 | if the sensor sends only when as many request frames have been written as items popped, the requests it has read by the end are exactly the items it listed, whatever becomes of the queue; the end state meets the hypotheses again |
| Wire.FirstAlarms | src/Connection.cpp:208-310 | on a fresh connection, then, the requests in the frames written are the media lists, the files saved are the items, and none is abandoned |
| PoliteSensor.PoliteSensorIsServed | src/Connection.cpp:208-310 | for all alarms with all their items there are inputs of such a sensor that a fresh connection turns into exactly those request frames and files |
| EndToEnd.AlarmReadsFit | src/Connection.cpp:230-231 | all those reads fit the buffer |
| Outbox.SingleWriterFifo | src/Connection.cpp:388-448 | every step keeps: at most one write in flight, of the front; popped, queued and posted frames are those accepted, in order; while open, queued frames mean a write in flight |
| Outbox.FifoFromStart | src/Connection.cpp:388-448 | the same for every run from a fresh queue, with errors and closing anywhere |
| Outbox.ClosingCloses | src/Connection.cpp:172-187 | closing closes the socket and touches nothing else |
| Outbox.AfterClosing | src/Connection.cpp:388-418 | after closing nothing is accepted and no write is started |
| Outbox.DeliveredInPostingOrder | src/Connection.cpp:431-448 | what has been written without error is a prefix of what was posted |
| Outbox.DrainedMeansDelivered | src/Connection.cpp:431-448 | an open, idle queue has written everything posted |
| Outbox.SendQueue.PostPacket | src/Connection.cpp:388-399 | posts a copy if the socket is open |
| Outbox.SendQueue.PacketWrite | src/Connection.cpp:401-418 | starts a write of the front if the socket is open |
| Outbox.SendQueue.PacketWriteImpl | src/Connection.cpp:419-429 | queues the frame and starts a write only if the queue was empty |
| Outbox.SendQueue.WriteHandler | src/Connection.cpp:431-448 | pops the front; on an error closes, otherwise writes the next |
| Outbox.SendQueue.Stop | src/Connection.cpp:172-187 | closes the socket once |
| Connections.Connection.ReadMedia | src/Connection.cpp:223-273 | one completed read is one step of the whole connection, send queue included |
| Connections.Connection.ReadFailed | src/Connection.cpp:233-243 | a failed read stops the connection, unless it was aborted |
| Connections.Connection.ReadHeader | src/Connection.cpp:261 | reads the six header fields or throws exactly when bytes are missing |
| Connections.Connection.HandleChunk | src/Connection.cpp:254-263 | a chunk is decoded and handled as Session.OnChunk says; what it passes on is posted |
| Connections.Connection.ProcessInput | src/Connection.cpp:312-354 | the dispatch on the opcode; what the handlers pass on is posted |
| Connections.Connection.ReadDataPacket | src/Connection.cpp:281-291 | the fields and the payload of a data packet, failing exactly when nothing is left for the payload |
| Connections.Connection.StoreAndAcknowledge | src/Connection.cpp:291-295 | the payload is appended to the open file and one acknowledgement is posted |
| Connections.Connection.CloseMedia | src/Connection.cpp:296-307 | the file is closed and the next item started |
| Connections.Connection.AcceptPacket | src/Connection.cpp:291-307 | stores, acknowledges, and closes the file after exactly the last packet, although the acknowledgement swaps the packet numbers in place |
| Connections.Connection.HandleAttachmentLoad | src/Connection.cpp:276-310 | the data handler: faults exactly as Session.OnDecoded, posts exactly what is passed on |
| Connections.Connection.SendAttachmentLoadAck | src/Connection.cpp:1170-1192 | posts the frame of the acknowledgement and leaves the packet numbers swapped |
| Connections.Connection.SendMultimediaRequest | src/Connection.cpp:865-932 | pops the head, opens a new file and starts one wait; does nothing on an empty list |
| Connections.Connection.StartGetAlarmsMedia | src/Connection.cpp:820-832 | one more wait; earlier ones are cancelled for pictures and videos only |
| Connections.Connection.Stop | src/Connection.cpp:172-187 | closes the send queue and cancels the waits, which still run, as the step Close |
| Connections.Connection.MediaTimerExpires | src/Connection.cpp:820-832 | expiry is the step that queues every waiting handler |
| Connections.Connection.PacketWriteImpl | src/Connection.cpp:419-429 | handing over a posted frame is a step of the whole connection |
| Connections.Connection.WriteHandler | src/Connection.cpp:431-448 | so is the completion of a write, which on an error stops the connection and cancels its waits |
| Connections.Connection.HeartTick | src/Connection.cpp:356-386 | so is a heartbeat, which sends nothing on a closed socket |
| Connections.Connection.SendRealtimePacket | src/Connection.cpp:491-528 | swaps the serial number and posts the 32-byte body as a frame |
| Connections.Connection.GetAlarmsMedia | src/Connection.cpp:833-847 | one run of the timer handler is one step of the whole connection: one request for the current item, posted as one frame |
| Connections.Connection.SendCurrentMultimediaRequest | src/Connection.cpp:853-863 | builds and posts that request |
| Connections.Connection.ReadMediaEntries | src/Connection.cpp:1077-1087 | rebuilds the list from the entries, IDs big-endian, failing exactly when the packet is too short |
| Connections.Connection.HandleAdasAlarmReport | src/Connection.cpp:1003-1092 | same list, same cursor and same effect as the other handler, by way of different fields |
| Connections.Connection.HandleDsmAlarmReport | src/Connection.cpp:1095-1158 | same list, same cursor and same effect as the other handler, by way of different fields |
| Connections.Connection.HandleActiveSetConfigPacket | src/Connection.cpp:584-675 | runs the reader of the sensor kind, throwing exactly when the block is too short |
| Connections.Connection.HandleAlarmReport | src/Connection.cpp:992-1002 | the handler of the sensor kind; nothing for other kinds |
| Connections.Connection.SendActiveSetConfigPacket | src/Connection.cpp:679-778 | posts one frame with the block of the sensor kind, nothing for other kinds |
| Connections.Connection.HandleStatusReport | src/Connection.cpp:965-989 | reads five bytes, throwing exactly when they are missing, and posts the configuration |

## Left out

- Sockets, acceptor, strand and io_service: only "handlers run one at a time, each exactly once" is kept.
- Connections.Connection.SendMultimediaRequest: opening the file is taken to succeed; the stream it replaces is not closed by the code and is simply dropped here.
- Connections.Connection.ProcessInput: opcodes whose handlers only print are ignored, and so is all printing.
- The packets that consist of a header alone: nothing calls their senders; only their length is covered.
- The heartbeat timer: a heartbeat may be due at any time, its six time bytes are arbitrary.
- Several connections sharing the configuration globals: one connection is modelled.
- Configuration defaults and value ranges: never enforced by the code.
- File names, time stamps and real file I/O: a file is a byte sequence that is open or saved.
- `ReadPackedTime`, `AppendPackedTime`, `UtcBcdTime`, `appendPackXYZ`, floating-point and signed reads: library time and floating point.
- `put`, `operator[]`, `resize`, `rfinish` and vector capacity: easy members or without effect on contents.
- Wrap-around of `size_t` in the bound checks of `read`: cursors are unbounded naturals.
- `Server`, `ConnectionManager`, `main.cpp` and `include/Session.h`: lifecycle plumbing.
