# BPG protocol, shared-memory channel, throttle and queue — a Dafny model

This project models the data path between the Electron renderer and the native plugins of
the application, and proves properties of the model.

- **BPG (binary packet group) protocol**, in three implementations:
  - the renderer's TypeScript encoder and streaming decoder (`BpgTs`): 14-byte header
    `group_id | target_id | tl | data_length`;
  - the packet types of `bpg_types.h` with their `BufferWriter` encoders (`BpgTypes`):
    18-byte header `tl | prop | target_id | group_id | data_length`, end-of-group flag in
    bit 0 of `prop`;
  - the C++ encoder and decoder of `bpg_encoder.cpp` / `bpg_decoder.cpp`
    (`BpgCppEncoder`, `BpgCppDecoder`), which frame packets with `sizeof(PacketHeader)`.
  Every integer on the wire is a big-endian uint32 (`Bytes`). Payloads are "hybrid data":
  a 4-byte metadata length, the metadata bytes, then binary bytes. Both decoders buffer
  arbitrary chunks, cut complete packets off the front, collect them per group id and hand a
  group over when its `EG` packet arrives.
- **Shared-memory channel** in its two versions (`SharedMemoryChannel` for
  `src/lib`, `FrontendChannel` for `APP/frontend/src/lib`), over the buffer layout in
  `ChannelMemory`: 16 bytes of four Int32 control words, then the renderer-to-native and
  native-to-renderer regions. `send` queues a message; the send loop copies queued messages
  into the R→N region, publishes the length and raises the R→N signal.
- **Throttle** (`throttle.js`): runs a function no sooner than `delay` ms after its previous
  run. The clock is a parameter (`now`). Each `setTimeout` gets an id. `armed` holds the
  timeouts still due, and `timer` is the handle the object keeps. A timeout's expiry is the
  separate step `Fire`, during which the throttled function may call `schedule` again.
- **ThreadSafeQueue** (`native/thread_safe_queue.h`): a FIFO with an interrupt flag.
- **Python plugin scripts** (`example.py`, `test_plugin.py`): the string replies of `main`,
  `process_data` and `test_function` (`PythonExample`, `PythonTestPlugin`, over `Strings`).

The headline results are these:
- Every encoder's output decodes back to the packet: `BpgTs.FrameRoundTrip`,
  `BpgCppDecoder.FrameRoundTrip`, `BpgTypes.HeaderRoundTrip`.
- Both streaming decoders give the same result however the byte stream is cut into chunks
  (`ChunkingIrrelevant`).
- An encoded stream of packets is delivered packet by packet, and groups are collected and
  handed over on `EG` (`DecodeStream`, `GroupCollects`, `EndGroupHandsOver`,
  `BpgCppDecoder.InterleavedGroups`).
- The send loop packs the longest prefix of the queue that fits (`PackCountIsLongest`).
- While the throttle's handle names its one live timeout and the delay is not changed
  (`Throttle.Throttle.Spaced`), it never runs a function sooner than `delay` after the
  previous run (`Throttle.Throttle.FireGuarded`, `DeferredRunRespectsDelay`), and `cancel`
  stops every pending run (`Throttle.Throttle.Cancel`). `schedule`, `cancel` and the corrected
  expiry keep that state. A function that schedules again from its own timeout leaves it, as
  written: the handle is lost and the function can run twice at the same moment (see
  Findings).
- The queue is first-in first-out (`FirstInFirstOut`).

Where the documentation and the code disagree, the model follows the code:
- The three BPG implementations do not share a wire format. `BPG_Protocol.ts` uses a 14-byte
  header. `bpg_types.h` announces group id first in its size comment (line 16), but
  `PacketHeader::encode` writes `tl` first (lines 54-58), giving 18 bytes in that order.
- `bpg_encoder.cpp` / `bpg_decoder.cpp` write a 14-byte field block but advance by
  `sizeof(PacketHeader)`. For the 20-byte struct they use (four `uint32_t` fields and
  `char[2]`, padded), that leaves 6 zero bytes after the fields.
- Those two files use a `HybridData` with a `metadata_json` member held by value, unlike the
  `metadata_str` / `shared_ptr` shape of `bpg_types.h`. Each shape is modelled as its own
  code uses it.

## Model

| member | source | states |
|---|---|---|
| Bytes.ReadAfterWrite | src/lib/BPG_Protocol.ts:135-138 | a big-endian uint32 written with `setUint32` is read back unchanged by `getUint32`, wherever it sits |
| Bytes.WriteAfterRead | src/lib/BPG_Protocol.ts:135-138 | any four bytes read as a uint32 and written back are the same four bytes |
| Bytes.U32BEInjective | src/lib/BPG_Protocol.ts:45-63 | distinct uint32 values have distinct big-endian encodings |
| BpgTs.SetUint32 | src/lib/BPG_Protocol.ts:45-50 | `DataView.setUint32(offset, x, false)` overwrites exactly the four bytes at `offset` with the big-endian `x` |
| BpgTs.SetBytes | src/lib/BPG_Protocol.ts:75-85 | `Uint8Array.set` overwrites exactly the bytes at `offset` with the source bytes |
| BpgTs.CalculateHybridDataSize | src/lib/BPG_Protocol.ts:25-28 | the size is exactly the number of payload bytes the encoder writes after the header |
| BpgTs.EncodePacket | src/lib/BPG_Protocol.ts:33-95 | throws exactly when `tl` is not two UTF-16 code units long; otherwise returns the packet's wire bytes, each type letter cut to its low 8 bits |
| BpgTs.PacketLayout | src/lib/BPG_Protocol.ts:33-95 | the encoding is 14 + 4 + metadata + binary bytes long, group and target id and both type letters at 0/4/8/9, data length at 10, metadata length at 14, then the metadata and the binary bytes |
| BpgTs.ParseFrame | src/lib/BPG_Protocol.ts:126-164 | a frame is incomplete exactly when fewer than 14 bytes or fewer than 14 + data_length are buffered; a complete frame is 14 + data_length long; it is skipped exactly when data_length < 4 or 4 + metadata length > data_length; a decoded packet is one the encoder writes unchanged, and its encoding is exactly the frame's bytes |
| BpgTs.FrontReencodes | src/lib/BPG_Protocol.ts:126-186 | the packet built from a whole, well-formed front frame re-encodes to exactly that frame's bytes |
| BpgTs.ParseFront | src/lib/BPG_Protocol.ts:131-178 | reading the front of the buffer with the decoder's offsets gives the frame `ParseFrame` describes |
| BpgTs.DrainStops | src/lib/BPG_Protocol.ts:127-144 | the decode loop stops, consuming nothing, on an incomplete frame |
| BpgTs.DrainSkips | src/lib/BPG_Protocol.ts:150-164 | a malformed frame is dropped with no callback and decoding goes on after it |
| BpgTs.DrainDelivers | src/lib/BPG_Protocol.ts:181-212 | a good frame's callbacks fire, then decoding goes on after it |
| BpgTs.BpgDecoder.constructor | src/lib/BPG_Protocol.ts:100-102 | a new decoder has an empty buffer and no open groups |
| BpgTs.BpgDecoder.Reset | src/lib/BPG_Protocol.ts:104-107 | `reset` empties the buffer and forgets every open group |
| BpgTs.BpgDecoder.StoreAndNotify | src/lib/BPG_Protocol.ts:188-209 | the packet joins its group, the packet callback fires, and on `EG` the group is handed over and closed |
| BpgTs.BpgDecoder.DecodeFront | src/lib/BPG_Protocol.ts:126-212 | one pass of the decode loop: it stops with nothing changed on an incomplete front; otherwise it consumes the front frame, and its callbacks followed by draining the rest give those of draining the old buffer |
| BpgTs.BpgDecoder.ProcessData | src/lib/BPG_Protocol.ts:112-214 | the new buffer, groups and callbacks are those of draining the old buffer followed by the chunk |
| BpgTs.ParseFrameExtend | src/lib/BPG_Protocol.ts:126-164 | once a frame is complete, bytes arriving after it do not change how it is parsed |
| BpgTs.FrameRoundTrip | src/lib/BPG_Protocol.ts:33-186 | the decoder parses an encoded packet, followed by anything, back to the same packet and consumes exactly its bytes |
| BpgTs.DecodeEncodedPacket | src/lib/BPG_Protocol.ts:33-212 | feeding one encoded packet to a fresh decoder reports it; an `EG` packet also hands over the one-packet group |
| BpgTs.DrainLeavesIncomplete | src/lib/BPG_Protocol.ts:126-144 | what the loop leaves buffered is a suffix of the input that holds no complete frame |
| BpgTs.DrainAppend | src/lib/BPG_Protocol.ts:112-123 | draining `a + more` is draining `a`, then draining its leftover followed by `more` |
| BpgTs.ChunkingIrrelevant | src/lib/BPG_Protocol.ts:112-123 | feeding chunks one `processData` call at a time gives the same buffer, groups and callbacks as feeding their concatenation at once |
| BpgTs.DecodeStream | src/lib/BPG_Protocol.ts:112-214 | an encoded stream of packets is fully consumed and delivered packet by packet, in order |
| BpgTs.EachPacketReportedOnce | src/lib/BPG_Protocol.ts:194-198 | the packet callback receives exactly the packets delivered, each once, in order |
| BpgTs.GroupCollects | src/lib/BPG_Protocol.ts:189-192 | until its `EG` packet, a group accumulates exactly its packets in arrival order and no group callback fires for it |
| BpgTs.EndGroupHandsOver | src/lib/BPG_Protocol.ts:200-209 | an `EG` packet is reported, then its whole group (earlier packets in order, then itself) is handed over and the group is closed |
| BpgTypes.BufferWriter.Write | native/plugins/BPG_Protocol/bpg_types.h:54-58 | writing appends the bytes after those already written |
| BpgTypes.ReadHeader | native/plugins/BPG_Protocol/bpg_types.h:36-42 | a header can be read exactly when 18 bytes are available |
| BpgTypes.HeaderRoundTrip | native/plugins/BPG_Protocol/bpg_types.h:44-61 | an encoded header is 18 bytes and reads back as the same header, whatever follows |
| BpgTypes.HeaderBytesInjective | native/plugins/BPG_Protocol/bpg_types.h:44-61 | distinct headers have distinct encodings |
| BpgTypes.EncodeHeader | native/plugins/BPG_Protocol/bpg_types.h:44-61 | with room for 18 bytes it succeeds and appends the header; otherwise it reports `BufferTooSmall` and writes nothing |
| BpgTypes.CalculateEncodedSize | native/plugins/BPG_Protocol/bpg_types.h:78-80 | when the metadata length fits its 32-bit field, the size is exactly the number of bytes `HybridData::encode` writes |
| BpgTypes.HybridLayout | native/plugins/BPG_Protocol/bpg_types.h:78-107 | the payload is `calculateEncodedSize` bytes: metadata length, metadata, binary bytes |
| BpgTypes.EncodeHybrid | native/plugins/BPG_Protocol/bpg_types.h:84-107 | with room it succeeds and appends the payload; otherwise `BufferTooSmall` and nothing written |
| BpgTypes.PacketLayout | native/plugins/BPG_Protocol/bpg_types.h:119-164 | an encoded packet's header gives back its ids and type, its EG bit is set exactly for an end-of-group packet, and its data length counts the payload that follows (0 for null content) |
| BpgTypes.EncodeAppPacket | native/plugins/BPG_Protocol/bpg_types.h:119-164 | null content writes the header alone; otherwise `BufferTooSmall` with nothing written when header and data do not fit, and the whole packet written when they do |
| BpgCppEncoder.CalculateAppDataSize | native/plugins/BPG_Protocol/bpg_encoder.cpp:32-35 | when the metadata length fits its 32-bit field, the size is exactly the number of bytes `serializeAppData` appends |
| BpgCppEncoder.CopyIntoTail | native/plugins/BPG_Protocol/bpg_encoder.cpp:11-28 | the `memcpy` into the freshly resized tail replaces its leading zero bytes and keeps the rest |
| BpgCppEncoder.SerializeHeader | native/plugins/BPG_Protocol/bpg_encoder.cpp:7-29 | the buffer grows by `sizeof(PacketHeader)`: the four fields, then zero padding |
| BpgCppEncoder.SerializeAppData | native/plugins/BPG_Protocol/bpg_encoder.cpp:38-55 | it always succeeds and appends the metadata length, the metadata and the binary bytes |
| BpgCppEncoder.EncodePacket | native/plugins/BPG_Protocol/bpg_encoder.cpp:57-82 | it always succeeds and appends the packet's header and payload |
| BpgCppEncoder.EncodePacketGroup | native/plugins/BPG_Protocol/bpg_encoder.cpp:84-102 | the buffer is cleared and then holds every packet's encoding in order; its length is the size reserved up front |
| BpgCppEncoder.PacketLayout | native/plugins/BPG_Protocol/bpg_encoder.cpp:7-67 | ids, type letters and data length at 0/4/8/10, zero padding up to 20, metadata length at 20, then metadata and binary bytes |
| BpgCppEncoder.GroupSizeIsReserved | native/plugins/BPG_Protocol/bpg_encoder.cpp:87-92 | the size precomputed for a group is exactly the length of its encoding |
| BpgCppDecoder.DeserializeHeader | native/plugins/BPG_Protocol/bpg_decoder.cpp:17-39 | a header is read exactly when `sizeof(PacketHeader)` bytes are buffered |
| BpgCppDecoder.DeserializeAppData | native/plugins/BPG_Protocol/bpg_decoder.cpp:42-89 | `DecodingError` exactly when data_length < 4 or 4 + metadata length > data_length; otherwise content whose encoding is the payload bytes |
| BpgCppDecoder.Deliver | native/plugins/BPG_Protocol/bpg_decoder.cpp:111-135 | only the packet's group changes; it gains the packet unless an `EG` packet is handed to a group callback; one event per present callback |
| BpgCppDecoder.TryParse | native/plugins/BPG_Protocol/bpg_decoder.cpp:92-137 | nothing is parsed exactly when header or payload is not fully buffered; otherwise the frame's bytes are consumed |
| BpgCppDecoder.BpgDecoder.constructor | native/plugins/BPG_Protocol/bpg_decoder.cpp:10 | a new decoder has an empty buffer and no open groups |
| BpgCppDecoder.BpgDecoder.Reset | native/plugins/BPG_Protocol/bpg_decoder.cpp:12-15 | `reset` empties the buffer and the groups |
| BpgCppDecoder.BpgDecoder.TryParsePacket | native/plugins/BPG_Protocol/bpg_decoder.cpp:92-137 | succeeds exactly when `TryParse` does, with its new buffer, groups and callbacks; otherwise nothing changes |
| BpgCppDecoder.BpgDecoder.ProcessData | native/plugins/BPG_Protocol/bpg_decoder.cpp:139-155 | always `Success`; a null or empty chunk changes nothing; otherwise the state is that of draining the old buffer followed by the chunk |
| BpgCppDecoder.HeaderRoundTrip | native/plugins/BPG_Protocol/bpg_decoder.cpp:17-39 | the decoder reads back the header the encoder wrote |
| BpgCppDecoder.BadPayloadDropped | native/plugins/BPG_Protocol/bpg_decoder.cpp:107-121 | a frame with a bad payload is consumed with no callback and no group change |
| BpgCppDecoder.GoodPayloadDelivered | native/plugins/BPG_Protocol/bpg_decoder.cpp:92-137 | a frame with a good payload delivers the packet built from its fields |
| BpgCppDecoder.AppDataRoundTrip | native/plugins/BPG_Protocol/bpg_decoder.cpp:42-89 | the payload the encoder wrote decodes back to the same content |
| BpgCppDecoder.AppDataInjective | native/plugins/BPG_Protocol/bpg_encoder.cpp:38-55 | distinct contents have distinct payload encodings |
| BpgCppDecoder.FrameRoundTrip | native/plugins/BPG_Protocol/bpg_decoder.cpp:92-137 | an encoded packet, followed by anything, is parsed back to the same packet, delivered, and its bytes consumed |
| BpgCppDecoder.TryParseExtend | native/plugins/BPG_Protocol/bpg_decoder.cpp:92-137 | once a frame is complete, later bytes do not change how it is parsed |
| BpgCppDecoder.DrainAppend | native/plugins/BPG_Protocol/bpg_decoder.cpp:139-155 | draining `a + more` is draining `a`, then its leftover followed by `more` |
| BpgCppDecoder.ChunkingIrrelevant | native/plugins/BPG_Protocol/bpg_decoder.cpp:139-155 | chunk boundaries do not change the outcome of `processData` calls |
| BpgCppDecoder.DecodeStream | native/plugins/BPG_Protocol/bpg_decoder.cpp:139-155 | an encoded stream of packets is consumed entirely and delivered packet by packet |
| BpgCppDecoder.FeedEncodedStream | native/plugins/BPG_Protocol/bpg_decoder.cpp:139-155 | any chunking of an encoded stream, fed to a fresh decoder, delivers exactly its packets |
| BpgCppDecoder.LoneEndGroupPacket | native/plugins/BPG_Protocol/bpg_decoder.cpp:118-134 | a lone `EG` packet is reported and handed over as a one-packet group |
| BpgCppDecoder.DeliverBoth | native/plugins/BPG_Protocol/bpg_decoder.cpp:111-135 | with both callbacks set, a packet is reported and joins its group, and an `EG` packet also hands over and closes the group |
| BpgCppDecoder.InterleavedDelivery | native/plugins/BPG_Protocol/tests/bpg_test_app.cpp:129-134 | the interleaved packets of groups 101 and 102 are reported in order, 102 is handed over at its `EG` and 101 at its own |
| BpgCppDecoder.InterleavedGroups | native/plugins/BPG_Protocol/tests/bpg_test_app.cpp:129-134 | the same holds for the encoded interleaved stream, whatever its chunking |
| ChannelMemory.ToInt32 | src/lib/SharedMemoryChannel.ts:66 | storing into an `Int32Array` keeps in-range values and wraps others modulo 2^32 into the signed range |
| ChannelMemory.CopyIn | src/lib/SharedMemoryChannel.ts:109 | `Uint8Array.set` into the R→N view overwrites exactly the bytes of the copied message |
| SharedMemoryChannel.PackCount | src/lib/SharedMemoryChannel.ts:101-118 | never more messages than are queued, and at least one when the head fits |
| SharedMemoryChannel.Packed | src/lib/SharedMemoryChannel.ts:101-118 | the packed bytes never exceed the R→N region |
| SharedMemoryChannel.PackCountIsLongest | src/lib/SharedMemoryChannel.ts:105-112 | the packed prefix fits the region and adding the next message would overflow it |
| SharedMemoryChannel.StepsDrainQueue | src/lib/SharedMemoryChannel.ts:90-130 | when every queued message fits the region, the loop empties the queue in at most one step per message |
| SharedMemoryChannel.PackInto | src/lib/SharedMemoryChannel.ts:102-112 | the loop copies the packed messages back to back to the start of the R→N region, and counts them and their bytes |
| SharedMemoryChannel.SharedMemoryChannel.constructor | src/lib/SharedMemoryChannel.ts:24-71 | a zeroed buffer of 16 + R2N + N2R bytes, zeroed control words, an empty queue and a 100 ms throttle with nothing pending, no timeout armed and spaced |
| SharedMemoryChannel.SharedMemoryChannel.Send | src/lib/SharedMemoryChannel.ts:73-88 | nothing for a closed channel; a message longer than the region is refused with nothing changed; otherwise it is queued and the first step scheduled if none was running |
| SharedMemoryChannel.SharedMemoryChannel.PackAndSignal | src/lib/SharedMemoryChannel.ts:101-118 | the longest fitting prefix of the queue is copied in, its length published, the signal raised and the prefix dropped |
| SharedMemoryChannel.SharedMemoryChannel.ProcessSendQueue | src/lib/SharedMemoryChannel.ts:90-130 | the step as written: it packs and signals even when the signal was still raised, scheduling a second step in that case |
| SharedMemoryChannel.SharedMemoryChannel.ProcessSendQueueGuarded | src/lib/SharedMemoryChannel.ts:90-130 | the corrected step: while the signal is raised only a retry is scheduled and nothing changes |
| SharedMemoryChannel.BusyStepOverwritesUnreadData | src/lib/SharedMemoryChannel.ts:97-117 | a concrete state in which the step as written overwrites an unread byte of the region |
| SharedMemoryChannel.SharedMemoryChannel.StopReceiving | src/lib/SharedMemoryChannel.ts:139-141 | only the receiving flag changes, to false |
| SharedMemoryChannel.SharedMemoryChannel.Cleanup | src/lib/SharedMemoryChannel.ts:164-178 | sending and receiving stop, the queue empties, the throttle has nothing pending (no timeout armed while its handle was tracked) and the buffer is released |
| FrontendChannel.SharedMemoryChannel.constructor | APP/frontend/src/lib/SharedMemoryChannel.ts:24-71 | the same zeroed layout, empty queue and 100 ms throttle, spaced with no timeout armed, as the renderer version |
| FrontendChannel.SharedMemoryChannel.Send | APP/frontend/src/lib/SharedMemoryChannel.ts:123-138 | nothing for a closed channel; too long a message is refused; otherwise it is queued and the first step scheduled if none was running |
| FrontendChannel.SharedMemoryChannel.ProcessSendQueue | APP/frontend/src/lib/SharedMemoryChannel.ts:140-191 | while the signal is raised only a retry is scheduled; otherwise the head message alone is copied in, its length published, the signal raised and the message dropped |
| FrontendChannel.SharedMemoryChannel.StopReceiving | APP/frontend/src/lib/SharedMemoryChannel.ts:203-205 | only the receiving flag changes, to false |
| FrontendChannel.SharedMemoryChannel.Cleanup | APP/frontend/src/lib/SharedMemoryChannel.ts:227-241 | sending and receiving stop, the queue empties, the throttle has nothing pending (no timeout armed while its handle was tracked) and the buffer is released |
| Throttle.Wait | throttle.js:74-77 | the time until the next run is never negative, is zero exactly when the delay has passed, and never exceeds the delay |
| Throttle.WaitRespectsDelay | throttle.js:35-40 | a deferred run comes at least `delay` after the last run: exactly then, or at once if that moment has passed |
| Throttle.Cleared | throttle.js:21-24 | `clearTimeout` on the handle removes exactly the named timeout, if any, and keeps every other |
| Throttle.Throttle.constructor | throttle.js:2-7 | a new throttle has the given delay, no handle, no timeout armed and a last run at time 0; it starts spaced |
| Throttle.Throttle.Schedule | throttle.js:15-42 | the handle's timeout is cleared; the function runs at once exactly when asked to and the delay has passed; otherwise one new timeout for the remaining wait is armed and the handle names it; a tracked throttle stays tracked and a spaced one spaced |
| Throttle.Throttle.Fire | throttle.js:35-39 | as written: an expiring timeout records the run, lets the function reschedule (arming a new timeout unless it runs at once), and then nulls the handle whatever it names; from a spaced state the run comes at least `delay` after the previous one |
| Throttle.Throttle.FireGuarded | throttle.js:35-39 | corrected: the handle is nulled before the function runs, so a timeout it arms is the one the handle names; a tracked throttle stays tracked, and from a spaced state the run comes at least `delay` after the previous one and the throttle stays spaced |
| Throttle.Throttle.Cancel | throttle.js:47-52 | the handle's timeout is cleared and the handle nulled; the last run is kept; for a tracked throttle no timeout is left armed and the throttle is spaced |
| Throttle.Throttle.SetDelay | throttle.js:58-60 | only the delay changes |
| Throttle.Throttle.IsPending | throttle.js:66-68 | for a tracked throttle, true exactly when a timeout is armed |
| Throttle.RescheduleLosesHandle | throttle.js:35-39 | as written, a function that reschedules from its timeout leaves a timeout no handle names: a later `schedule` leaves two armed, and after `cancel` one is still armed while `isPending` is false |
| Throttle.GuardedRescheduleCancels | throttle.js:35-39 | with the corrected expiry the same calls leave one timeout armed, and `cancel` leaves none |
| Throttle.DeferredRunRespectsDelay | throttle.js:15-42 | a timeout whose wait was computed from the current delay and last run never fires sooner than `delay` after that run |
| Throttle.RescheduleRunsTwice | throttle.js:35-39 | as written, with a delay of 100, the lost timeout and the one a later `schedule` sets both fire at 200, two runs 0 ms apart |
| ThreadSafeQueue.PushOnto | native/thread_safe_queue.h:14-32 | the item joins the back unless the queue is interrupted, in which case nothing changes |
| ThreadSafeQueue.PopFrom | native/thread_safe_queue.h:34-42 | it succeeds exactly on a non-empty queue that is not interrupted, handing out and removing the front item; on failure `item` and the queue are untouched |
| ThreadSafeQueue.WaitAndPopFrom | native/thread_safe_queue.h:44-60 | it fails, with nothing changed, whenever the caller should stop or the queue is interrupted |
| ThreadSafeQueue.WaitAndPopIsPop | native/thread_safe_queue.h:44-60 | for a caller that should continue, a woken `wait_and_pop` behaves exactly as `pop` |
| ThreadSafeQueue.PushAllAppends | native/thread_safe_queue.h:14-32 | pushes onto a queue that is not interrupted append in order |
| ThreadSafeQueue.PopAllInOrder | native/thread_safe_queue.h:34-42 | repeated pops hand out the items front first |
| ThreadSafeQueue.FirstInFirstOut | native/thread_safe_queue.h:14-42 | items come out in the order they were pushed |
| ThreadSafeQueue.InterruptedIgnoresPushes | native/thread_safe_queue.h:79-85 | an interrupted queue ignores pushes and hands nothing out |
| ThreadSafeQueue.ThreadSafeQueue.constructor | native/thread_safe_queue.h:12 | a new queue is empty and not interrupted |
| ThreadSafeQueue.ThreadSafeQueue.Push | native/thread_safe_queue.h:14-32 | the new state is `PushOnto` of the old |
| ThreadSafeQueue.ThreadSafeQueue.Pop | native/thread_safe_queue.h:34-42 | result, `item` and new state are `PopFrom` of the old state |
| ThreadSafeQueue.ThreadSafeQueue.WaitAndPop | native/thread_safe_queue.h:44-60 | result, `item` and new state are `WaitAndPopFrom` of the old state |
| ThreadSafeQueue.ThreadSafeQueue.Empty | native/thread_safe_queue.h:62-65 | true exactly when nothing is queued |
| ThreadSafeQueue.ThreadSafeQueue.Size | native/thread_safe_queue.h:67-70 | the number of queued items |
| ThreadSafeQueue.ThreadSafeQueue.Clear | native/thread_safe_queue.h:72-76 | the queue is emptied and the interrupt flag kept |
| ThreadSafeQueue.ThreadSafeQueue.Interrupt | native/thread_safe_queue.h:79-85 | the flag is raised and the contents kept |
| ThreadSafeQueue.ThreadSafeQueue.ResetInterrupt | native/thread_safe_queue.h:87-90 | the flag is lowered and the contents kept |
| ThreadSafeQueue.ThreadSafeQueue.IsInterrupted | native/thread_safe_queue.h:92-95 | the current flag |
| Strings.UpperChar | native/plugins/python_script/example.py:23 | lower-case ASCII letters become upper case; every other character is kept |
| Strings.JoinLists | native/plugins/python_script/example.py:9 | `sep.join(items)` lists the items: each at its offset, `sep` after every item but the last, nothing else, and the empty string for no items |
| Strings.ListsAtIsJoin | native/plugins/python_script/example.py:9 | a string that lists the items that way is exactly `sep.join(items)` |
| Strings.ParseNatToString | native/plugins/python_script/example.py:9 | the decimal rendering of `len(args)` reads back as the same number |
| PythonExample.MainGreeting | native/plugins/python_script/example.py:1-9 | `main` states the argument count in decimal, then lists every argument in order with ", " between neighbours and nothing after the last |
| PythonExample.GreetingNoArguments | native/plugins/python_script/example.py:9 | with no arguments `main` reports zero and lists nothing |
| PythonExample.ProcessData | native/plugins/python_script/example.py:11-24 | the no-data error is returned exactly for an empty argument list |
| PythonExample.ProcessDataUppercasesEach | native/plugins/python_script/example.py:22-24 | otherwise the reply is the fixed head, then each argument upper-cased in order, one space between neighbours and nothing after the last |
| PythonTestPlugin.ProcessData | native/plugins/python_script/test_plugin.py:1-21 | the no-data error exactly for no arguments; otherwise a record of the original arguments, each upper-cased, their count and the fixed timestamp |
| PythonTestPlugin.TestFunction | native/plugins/python_script/test_plugin.py:23-31 | `test_function` states the argument count, then lists every argument in order with ", " between neighbours and nothing after the last |
| PythonTestPlugin.TestFunctionTwoArguments | native/plugins/python_script/test_plugin.py:31 | two arguments `x`, `y` give "Test function called with 2 arguments: x, y" |

## Left out

- `calculate_sum` (example.py:26-39): it parses floats and sums them; floating point is not modelled.
- PythonTestPlugin.ProcessData: returns the record that `str(result)` renders, not the Python dict rendering itself.
- Strings.UpperChar: only ASCII letters are upper-cased; `str.upper` also maps non-ASCII letters, and Unicode case mapping is not modelled.
- `TextEncoder`/`TextDecoder`: strings travel as their UTF-8 bytes. The model takes those bytes as given and does not model the encoding.
- Console output (`console.log`, `console.error`, `std::cerr`, the offset-mismatch warning): it has no effect on state.
- Callback exceptions: they are caught and logged in `BPG_Protocol.ts`, so callbacks are modelled as recorded events. `bpg_decoder.cpp` does not catch them. It erases the frame (line 121) and only then calls the callbacks (lines 123-135). A throwing packet callback leaves the packet stored and, for an `EG` packet, the group neither handed over nor erased; the frames behind it stay unparsed. A throwing group callback leaves the moved-from group in the map. The model assumes callbacks return normally, so BpgCppDecoder.BpgDecoder.TryParsePacket and BpgCppDecoder.BpgDecoder.ProcessData state the outcome of that case only.
- Receiving side of both channels (`startReceiving`, `_processReceiveQueue`) and the frontend's `send_direct`: these poll and hand over data written by native code, which is not part of this model.
- `Atomics` ordering: control-word loads and stores are plain reads and writes; concurrent access by the native side is not modelled.
- Timers (`setTimeout`): a scheduled step is reported as a flag or a count rather than run later.
- `nativeAddon` calls (`setSharedBuffer`, `setMessageCallback`, `cleanup`): the native side is not part of this model.
- SharedMemoryChannel.SharedMemoryChannel.constructor: the control words are kept in their own `array<int>` rather than aliased onto the first 16 bytes of the byte buffer. A control store therefore does not change the byte view, and the data regions never overlap the control bytes anyway.
- FrontendChannel.SharedMemoryChannel.ProcessSendQueue: the packing branch guarded by the constant `doStacking = false` is never taken and is not modelled.
- ThreadSafeQueue.ThreadSafeQueue.WaitAndPop: the mutex, the condition variable and the blocking wait are not modelled. Each operation is one atomic step, and `wait_and_pop` is modelled from the moment its wait returns.
- BpgTypes.BufferWriter.Write: `buffer_writer.h` is not part of this model. `Write` requires the room that every caller checks with `canWrite` first.
- BpgTypes.EncodeAppPacket: the header-error branch after the combined size check cannot be taken, since room for 18 + data length includes room for 18. It is left out of the model.
- Throttle.Throttle.Fire: the throttled function is modelled as making at most one `schedule` call while its timeout runs. A function that throws is not modelled; in the source it leaves the handle set to a timeout that has already fired. Calls to `cancel` or `setDelay` from inside the function are not modelled either.
- Throttle.Throttle.Schedule: a function run at once runs synchronously inside `schedule` (the `Promise` executor, throttle.js:16-31), but after every state change `schedule` makes, and nothing after it changes state. A call it makes back into the throttle is therefore modelled as the caller's next call. The promise `schedule` returns is not modelled. The `queued` field is kept but never used, as in the source. Times are integer milliseconds supplied by the caller.
- `getTimeUntilNextRun` is modelled as `Throttle.Throttle.TimeUntilNextRun`, whose properties are those of `Throttle.Wait`.
- BpgCppEncoder.SerializeHeader: the padding bytes after the fields are modelled as zero, as `resize` leaves them.
- The C++ models assume the 20-byte `sizeof(PacketHeader)` of the usual ABIs.
- The C++ models compute sizes as unbounded integers, which is what a 64-bit `size_t` gives for these 32-bit fields. With a 32-bit `size_t` these sums wrap: `sizeof(uint32_t) + json_len` (bpg_decoder.cpp:69), `sizeof(PacketHeader) + header.data_length` (bpg_decoder.cpp:98), the size sums of bpg_encoder.cpp:33-34 and :90, and those of bpg_types.h:79, :87 and :147. A `json_len` of at least 2^32 - 4 would then pass the check at bpg_decoder.cpp:69, and the binary length at :82 would underflow. 32-bit `size_t` is not modelled.
- Throttle.Throttle.SetDelay: changing the delay leaves an armed timeout with the wait computed from the old delay, so `Spaced` is not promised after it; the spacing guarantee holds only while the delay is unchanged.
- BpgCppEncoder.EncodePacketGroup: `reserve` has no observable effect and is not modelled. The reserved size equals the encoding length only while every metadata string is shorter than 2^32 bytes.

## Findings

| source | as written | input that shows it | evidently intended | confidence | as-written member | corrected member |
|---|---|---|---|---|---|---|
| src/lib/SharedMemoryChannel.ts:97-117 | when the R→N signal is still raised, a retry is scheduled but the step goes on to pack the queue into the R→N region and raise the signal again | control word 0 = 1 (native side has not yet read), an unread byte 5 at buffer offset 16, queue `[[7]]`: byte 16 becomes 7 before it was read | return right after scheduling the retry, as the frontend copy does (APP/frontend/src/lib/SharedMemoryChannel.ts:147-151) | high for the overwrite; not executed | SharedMemoryChannel.SharedMemoryChannel.ProcessSendQueue, SharedMemoryChannel.BusyStepOverwritesUnreadData | SharedMemoryChannel.SharedMemoryChannel.ProcessSendQueueGuarded |
| throttle.js:35-39 | the timeout callback runs `fn()` and only then sets `this.timer = null`, discarding the handle of any timeout `fn` set by calling `schedule` | delay 100: `schedule` at 0; its timeout fires at 100 and `fn` calls `schedule` again; then `schedule` at 150 and `cancel`: two timeouts were armed, one is still armed afterwards, and `isPending()` is false. Without the `cancel`, both timeouts fire at 200 and the function runs twice 0 ms apart | null the handle before calling `fn`, so `cancel` and `isPending` see the timeout `fn` sets | medium; not executed | Throttle.Throttle.Fire, Throttle.RescheduleLosesHandle, Throttle.RescheduleRunsTwice | Throttle.Throttle.FireGuarded, Throttle.GuardedRescheduleCancels |
