# Tsurugi tateyama: verified models of the IPC wires, the value serializer and the task scheduler

This project models three parts of tateyama in Dafny and proves what they are for.

**IPC wires** (`src/tateyama/endpoint/ipc/wire.h`). Messages between client and server travel through
byte rings in shared memory. The byte wire (`simple_wire` with its request and response forms), the
result-set wire and the arrival of records on many result-set wires are step machines: every load,
store, byte copy, lock, unlock, sleep, wakeup (also spurious or by timeout) and notification is a step
of its own, steps of all threads interleave freely, and the theorems hold in every state of every run.
The copies around the end of a ring, the two ways to read a message, the pool of result-set buffers
and the queue of connection slots are methods and classes that change arrays and fields in place.

**Value serializer** (`mock/jogasaki/serializer`). The code of each entry is a function, the readers are
functions on bytes, and the nested round trip is proved about these. The writers and the looping
readers are methods proved against them, down to the octet loops of decimals.

**Task scheduler** (`include/tateyama/task_scheduler`). Workers with local, sticky and initial queues,
any number of scheduling threads and the starting thread form one step machine; the watcher of
conditional tasks forms another. The notifier and the cyclic searches over workers are a class and
loops.

| files | contents |
|---|---|
| `wrappers`, `ring`, `wire`, `wire_sync`, `wire_data`, `wire_theorems`, `wire_abandoned`, `simple_wire` | the byte wire |
| `record_ring`, `record_ring_proofs`, `record_arrival`, `result_sets`, `buffer_pool` | result sets |
| `connection_queue` | connection slots |
| `base128v`, `octets`, `decimals`, `values`, `value_output`, `value_input`, `value_writer`, `tree_writer` | the serializer |
| `notifier`, `worker_choice`, `scheduler`, `scheduler_proofs`, `scheduler_theorems`, `scheduler_scan`, `watcher` | the scheduler |

## Findings

Where the code does not do what it is for, the model keeps the code as it is, a lemma gives an input
or run that shows it, and the exact condition is proved.

- `force_close()` raises the flag a response reader waits for and notifies only the writer. A reader
  asleep for a header, with no shutdown, is owed a notification exactly if `close()` was called,
  however often `force_close()` was (`ClosedReaderIsWokenByCloseOnly`); on every response wire a run
  leaves it asleep until its timeout (`ForceCloseLosesWakeup`). This is the only wakeup of a reader
  that is lost (`ReaderWakeupNotLost`).
- `read` waits in its chunk loop without a time limit and without looking at a flag. A reader that
  lacks bytes there waits for a writer in that very message exactly if the writer has not given the
  message up after a close (`WaitsForWriterOrNobody`); this happens only to messages longer than the
  ring. Once given up, the reader waits for the rest of the run (`AbandonedForEver`), and on either
  kind of wire such a run exists (`MessageIsAbandoned`).
- `request_admin()` does not succeed exactly when an administrator slot is free, but exactly when
  normal slots out plus administrator slots out plus the counter `admin_slots_in_use_` are fewer than
  all slots (`Allocator.RequestAdmin`, with `AdminRefusedThoughSlotFree`). So more administrators may
  be out than slots set aside (`TwoAdminsForOneSlot`). While the counter is within that number, normal
  requests never hand out a slot twice (`Allocator.TakeNormal`, `NormalRequestsAreSafe`); beyond it
  normal requests alone always get there (`TooManyAdmins`). With no slots set aside at all, an
  administrator's slot comes back to the free ring with its mark (`Allocator.GiveBack`).
- That counter has eight bits. From 256 administrators on it lets in more of them than the guard means
  to (`CounterLetsAdminIn`) and refuses normal requests with fewer than n normal slots out and a slot
  free (`CounterKeepsNormalOut`); the conditions of `Allocator.RequestAdmin` and
  `Allocator.TakeNormal` are exact with the counter modulo 256.
- A task given to `schedule_at` before `start()` stays in the initial queue for ever exactly if its
  worker's thread had already finished taking its initial tasks; otherwise it is queued, running or
  executed, once (`EarlyTaskFate`, `StrandedNeverRuns`, with `EarlyTaskIsStranded`).
- A conditional task scheduled before the watcher's thread reconstructs its queue is dropped; one
  scheduled later never is (`EarlyTaskIsDropped`, `LateTaskIsKept`, with `EarlyTaskExists`).
- `base128v::write_unsigned` is documented to do nothing without room. It keeps the position, but
  stores the first bytes of the code in the room there is (`FailedWriteLeavesBytes`); the buffer is
  unchanged exactly if they were there already (`WriteUnsigned`). No entry writer is affected, since
  each compares the room first.
- `payload()` shows the payload in place although header and payload do not fit the ring. It is right
  at a position, for every message of a length, exactly if it copies or header plus length is within
  the capacity (`PayloadExactly`). Otherwise the end of what it shows is the message's own header
  (`ShownEndIsHeader`, with `PayloadShowsHeader`) or outside the ring (`ViewInsideBuffer`).
- `read_decimal` asserts that a negative coefficient has at least eight octets, and nothing before it
  checks this. The assertion fails exactly on the full form with a negative coefficient of one to
  seven octets (`ViolatesExactly`, with `MinusOneInOneOctet`). No writer stores one (`LargeNeedsNine`).
- Acquiring a result-set wire again attaches a buffer but keeps the positions. That is right, whatever
  the buffer holds, exactly if every flushed record was disposed of and none is open
  (`ReattachExactly`, `ReattachedIsInit`).

## Model

| member | source | states |
|---|---|---|
| WireTheorems.ReadIsPrefixOfWritten | src/tateyama/endpoint/ipc/wire.h:196-299 | In every state of every run, with messages of any length (also longer than the ring), the messages read are a prefix of the messages written, header and payload byte for byte |
| WireTheorems.StoredBytesAreSafe | src/tateyama/endpoint/ipc/wire.h:268-299 | No step of the writer changes a byte between the popped and the pushed position |
| WireData.DataAlways | src/tateyama/endpoint/ipc/wire.h:196-336 | Every reachable state keeps the ring bound, the stored bytes of the stream, the writer's partly copied chunk, the reader's partly copied header and payload, and both positions at chunk boundaries |
| WireTheorems.WriterWakeupNotLost | src/tateyama/endpoint/ipc/wire.h:300-306 | A writer asleep although there is room or the wire is closed has its wait flag up, and a reader, closer or disposer is between its update and its notification |
| WireTheorems.ReaderWakeupNotLost | src/tateyama/endpoint/ipc/wire.h:384-499 | A reader asleep although its bytes or a flag it waits for are there has its wait flag up and a notification under way; the one excluded case is a response wire on which close was never called and only the closed flag is up |
| WireTheorems.ClosedReaderIsWokenByCloseOnly | src/tateyama/endpoint/ipc/wire.h:524-580 | In every run of a response wire, a reader asleep for a header with no shutdown is owed a notification if and only if close was called |
| WireTheorems.ForceCloseLosesWakeup | src/tateyama/endpoint/ipc/wire.h:574-580 | For every response wire, a run in which the reader sleeps with its wait over and nobody about to notify it |
| WireSync.SyncAlways | src/tateyama/endpoint/ipc/wire.h:200-306 | Every reachable state keeps mutual exclusion, the wait flags and the pending notifications of both sides |
| WireTheorems.SameChunks | src/tateyama/endpoint/ipc/wire.h:197-213 | At the same place of a message, the chunk the writer needs room for is the chunk the reader takes |
| WireTheorems.NotBothStuck | src/tateyama/endpoint/ipc/wire.h:268-306 | In no reachable state does a waiting writer lack room while a waiting reader lacks bytes |
| WireTheorems.NeverBothAsleep | src/tateyama/endpoint/ipc/wire.h:268-306 | Writer and reader are never asleep together |
| WireTheorems.EndOnlyAfterDraining | src/tateyama/endpoint/ipc/wire.h:384-411 | peep reports termination, and await the empty header, only when every message published before the flag was raised has been read |
| WireTheorems.PublishedWhenRaised | src/tateyama/endpoint/ipc/wire.h:447-454 | The history that EndOnlyAfterDraining refers to is what was published at the step that raised the flag |
| WireAbandoned.WaitsForWriterOrNobody | src/tateyama/endpoint/ipc/wire.h:196-299 | In every run, a reader that has a header and lacks bytes waits for a writer in the middle of that very message if and only if the writer has not given it up; the message is longer than the ring |
| WireAbandoned.AbandonedForEver | src/tateyama/endpoint/ipc/wire.h:208-215 | Once the message is given up, the reader lacks its bytes in every later state and finishes no message more |
| WireAbandoned.MessageIsAbandoned | src/tateyama/endpoint/ipc/wire.h:287-290 | For request and response wires, a run that leaves the reader so |
| SimpleWire.WriteInBuffer | src/tateyama/endpoint/ipc/wire.h:307-315 | The one or two copies store the bytes at their stream positions and leave every other position of the turn as it was |
| SimpleWire.ReadFromBuffer | src/tateyama/endpoint/ipc/wire.h:316-336 | The one or two copies give the bytes at consecutive stream positions |
| SimpleWire.StoredIsRead | src/tateyama/endpoint/ipc/wire.h:307-325 | What was stored at a position is what is read from it |
| SimpleWire.ViewInsideBuffer | src/tateyama/endpoint/ipc/wire.h:180-185 | The piece payload decides to show lies inside the ring exactly if the length is below the capacity |
| SimpleWire.ShownEndIsHeader | src/tateyama/endpoint/ipc/wire.h:180-185 | If header and payload exceed the ring, the bytes shown from the capacity on are bytes of the message's header |
| SimpleWire.PayloadExactly | src/tateyama/endpoint/ipc/wire.h:180-190 | For every position and length: payload gives the payload of every such message if and only if it copies, or header plus length is within the capacity |
| SimpleWire.PayloadShowsHeader | src/tateyama/endpoint/ipc/wire.h:180-185 | Capacity 10, header 4, position 6, length 9: shown in one piece, with three header bytes at its end |
| SimpleWire.ViewIsSlice | src/tateyama/endpoint/ipc/wire.h:180-190 | The piece shown is the bytes read would copy |
| SimpleWire.WireReader.Read | src/tateyama/endpoint/ipc/wire.h:196-226 | The whole chunk loop: for a message of any length, exactly its payload, and the position behind it |
| SimpleWire.WireReader.Payload | src/tateyama/endpoint/ipc/wire.h:180-190 | For a message of any length: shown in one piece, nothing is popped and the amount to dispose of is set, the view leaves the ring exactly from the capacity on, and it is the payload if header and payload fit; otherwise all is copied and popped |
| SimpleWire.WireReader.Dispose | src/tateyama/endpoint/ipc/wire.h:232-245 | Pops what payload left to dispose of, once |
| SimpleWire.ZeroCopyRefinesCopy | src/tateyama/endpoint/ipc/wire.h:180-245 | From equal states at any position, whenever PayloadExactly allows, payload then dispose gives the bytes and the final position that the whole of read gives |
| RecordRingProofs.SplitFits | src/tateyama/endpoint/ipc/wire.h:661-673 | Split at the page of the last published byte, the two pieces lie in the ring and give each byte of the record its address, however much was published since |
| RecordRingProofs.PiecesAreTheRecord | src/tateyama/endpoint/ipc/wire.h:661-673 | In every run, while the client reads, the two pieces concatenated are exactly the bytes written between two flushes |
| RecordRingProofs.FlushedAndUnflushed | src/tateyama/endpoint/ipc/wire.h:712-743 | The records disposed of are a prefix of the records flushed, the popped position is a record boundary, the published bytes are the flushed records and the rest is the header slot and the open record |
| RecordRingProofs.FlushedBytesAreSafe | src/tateyama/endpoint/ipc/wire.h:712-743 | No step changes a byte of a flushed record that is not disposed of |
| RecordRingProofs.BlockedMeansRecord | src/tateyama/endpoint/ipc/wire.h:615-632 | If each record with its header fits the ring, a server waiting for room has left the client a record to dispose of |
| RecordRingProofs.ServerWakeupNotLost | src/tateyama/endpoint/ipc/wire.h:678-691 | A server asleep although there is room or the wire is closed has its wait flag up and the client about to notify it |
| RecordRingProofs.RingAlways | src/tateyama/endpoint/ipc/wire.h:593-766 | From a wire at any position with any buffer, until the client closes, every reachable state keeps the ring bound, the counters, the bytes and the client's pieces |
| RecordRingProofs.ReattachExactly | src/tateyama/endpoint/ipc/wire.h:693-706 | An idle wire may be given any other buffer of its capacity if and only if every flushed record was disposed of and none is open |
| RecordRingProofs.ReattachedIsInit | src/tateyama/endpoint/ipc/wire.h:804-838 | Such a wire with its new buffer is one of the states runs start in |
| RecordRingProofs.RingWakeAlways | src/tateyama/endpoint/ipc/wire.h:615-751 | Every reachable state, also after closing, keeps the wait flag and the pending notification of the server |
| RecordArrival.ClientWakeupNotLost | src/tateyama/endpoint/ipc/wire.h:844-889 | A client asleep although a record arrived on some wire, or the end was marked, is about to be notified by that wire's server or the ender |
| RecordArrival.NullOnlyAfterDraining | src/tateyama/endpoint/ipc/wire.h:844-889 | active_wire returns no wire only after everything flushed before set_eor has been disposed of on every wire |
| RecordArrival.NullOnlyAtEnd | src/tateyama/endpoint/ipc/wire.h:880-889 | active_wire returns no wire only if the end was marked |
| RecordArrival.FlushedAtEor | src/tateyama/endpoint/ipc/wire.h:912-919 | The history NullOnlyAfterDraining refers to is what was flushed at the step that marked the end |
| RecordArrival.ArrivalAlways | src/tateyama/endpoint/ipc/wire.h:844-958 | Every reachable state keeps mutual exclusion, the pending announcements of all wires and what was drained |
| ResultSets.NullOnlyAfterReadingAll | src/tateyama/endpoint/ipc/wire.h:593-958 | With any number of wires, each with its ring: active_wire returns no wire only after every record flushed before set_eor was read byte for byte, in order, on every wire not closed |
| ResultSets.SetAlways | src/tateyama/endpoint/ipc/wire.h:593-958 | Every reachable state keeps the invariants of all rings and of the arrival, and their counters agree |
| BufferPool.FreeExists | src/tateyama/endpoint/ipc/wire.h:929-941 | Pigeonhole: fewer attached than wires exactly if some wire is free |
| BufferPool.Wires.constructor | src/tateyama/endpoint/ipc/wire.h:771-779 | No wire attached and the first buffer spare, with the invariant |
| BufferPool.Wires.SearchFreeWire | src/tateyama/endpoint/ipc/wire.h:929-941 | Finds the first free wire and never reaches its abort; the count goes up by one |
| BufferPool.Wires.SearchWire | src/tateyama/endpoint/ipc/wire.h:942-949 | Finds the wire of an attached handle and never reaches its abort |
| BufferPool.Wires.Acquire | src/tateyama/endpoint/ipc/wire.h:804-826 | Attaches the spare buffer or a new one to a free wire; handles stay distinct and different from the spare, the count is the number attached, live buffers are attached plus spare; fails exactly without spare and memory |
| BufferPool.Wires.Release | src/tateyama/endpoint/ipc/wire.h:828-838 | Detaches exactly that handle; the buffer becomes the spare one or is freed, with the same invariant |
| ConnectionQueue.IndexQueue.Fill | src/tateyama/endpoint/ipc/wire.h:1028-1033 | The ring holds every slot in order, the administrators' share beyond pushed |
| ConnectionQueue.IndexQueue.Push | src/tateyama/endpoint/ipc/wire.h:1034-1046 | Appends the slot, without its mark and with the eight-bit administrator count lowered if an administrator gives it back |
| ConnectionQueue.IndexQueue.TryPop | src/tateyama/endpoint/ipc/wire.h:1047-1059 | Succeeds exactly by the guard of the source; takes the front if there is one, otherwise an old entry, and the ring is overrun |
| ConnectionQueue.IndexQueue.TryPopAdmin | src/tateyama/endpoint/ipc/wire.h:1060-1073 | Takes the front, marked, exactly when the guard of the source allows it, and counts it modulo 256 |
| ConnectionQueue.IndexQueue.Front | src/tateyama/endpoint/ipc/wire.h:1086-1088 | The oldest entry |
| ConnectionQueue.IndexQueue.Pop | src/tateyama/endpoint/ipc/wire.h:1082-1084 | Removes the oldest entry |
| ConnectionQueue.Allocator.constructor | src/tateyama/endpoint/ipc/wire.h:1181-1184 | Every slot starts free, and the invariant holds |
| ConnectionQueue.Allocator.TakeNormal | src/tateyama/endpoint/ipc/wire.h:1195-1196 | Succeeds exactly when normal and administrator slots out are fewer than n plus the counter, which is the administrators out modulo 256; takes a free slot if there is one, and with none hands out one that is out already; with the counter within the slots set aside there is one |
| ConnectionQueue.Allocator.TakeAdmin | src/tateyama/endpoint/ipc/wire.h:1200-1201 | In every state: the exact condition of request_admin, and conservation |
| ConnectionQueue.Allocator.Submit | src/tateyama/endpoint/ipc/wire.h:1197-1202 | The second half of both: the requested queue has room, and the slot goes to its end |
| ConnectionQueue.Allocator.Request | src/tateyama/endpoint/ipc/wire.h:1195-1199 | Succeeds by the condition of TakeNormal; moves one free slot to the requested queue and nothing else; every slot stays in exactly one place and neither ring overflows |
| ConnectionQueue.Allocator.RequestAdmin | src/tateyama/endpoint/ipc/wire.h:1200-1204 | In every state: succeeds exactly when normal slots out, administrator slots out and the counter together are fewer than all; same conservation, one administrator more |
| ConnectionQueue.Allocator.Accept | src/tateyama/endpoint/ipc/wire.h:1229-1233 | Moves the requested slot in front to connected, and nothing else |
| ConnectionQueue.Allocator.Reject | src/tateyama/endpoint/ipc/wire.h:1234-1238 | Moves the requested slot in front back to the free ring, which has room; conserved exactly unless an administrator gives it back where no slots are set aside |
| ConnectionQueue.Allocator.GiveBack | src/tateyama/endpoint/ipc/wire.h:1239-1241 | Moves a connected slot back to the free ring, which has room; conserved exactly unless an administrator gives it back where no slots are set aside |
| ConnectionQueue.AdminRefusedThoughSlotFree | src/tateyama/endpoint/ipc/wire.h:1060-1073 | One normal and two administrator slots: a second administrator is refused although a slot is free |
| ConnectionQueue.TooManyAdmins | src/tateyama/endpoint/ipc/wire.h:1047-1059 | From every state with the counter beyond the slots set aside, normal requests alone lead to one that hands out a slot that is out |
| ConnectionQueue.NormalRequestsAreSafe | src/tateyama/endpoint/ipc/wire.h:1047-1059 | From every state with the counter within the slots set aside, any number of normal requests keeps every slot in exactly one place |
| ConnectionQueue.TwoAdminsForOneSlot | src/tateyama/endpoint/ipc/wire.h:1060-1073 | Three normal slots and one set aside: such a state is reached by two administrators |
| ConnectionQueue.CounterLetsAdminIn | src/tateyama/endpoint/ipc/wire.h:1060-1100 | 520 normal slots and one set aside: with 261 administrators out one more is let in, although twice their number exceeds all slots |
| ConnectionQueue.CounterKeepsNormalOut | src/tateyama/endpoint/ipc/wire.h:1047-1100 | The same slots: with 256 administrators and 264 normal slots out a normal request is refused although a slot is free |
| Base128v.DecodeEncode | mock/jogasaki/serializer/base128v.cpp:9-103 | Every unsigned 64-bit value decodes back to itself, whatever follows its code |
| Base128v.EncodeDecode | mock/jogasaki/serializer/base128v.cpp:56-103 | Every byte string the strict reader accepts is the one code of its result |
| Base128v.SizeUnsigned | mock/jogasaki/serializer/base128v.h:27-34 | The loop returns the length of the code |
| Base128v.WriteUnsigned | mock/jogasaki/serializer/base128v.cpp:9-54 | Stores exactly the code if there is room; otherwise keeps the position and leaves the first bytes of the code in the room there is, so that nothing changed exactly if they were there already |
| Base128v.FailedWriteLeavesBytes | mock/jogasaki/serializer/base128v.cpp:9-54 | The value 128 with room for one byte: refused, and the byte is overwritten |
| Base128v.ReadUnsigned | mock/jogasaki/serializer/base128v.cpp:56-103 | The loop computes the decoding function and moves the position only on success |
| Base128v.SignedIsZigzag | mock/jogasaki/serializer/base128v.cpp:117-125 | The fold maps 0, -1, 1, -2, ... to 0, 1, 2, 3, ... |
| Base128v.SignedRoundTrip | mock/jogasaki/serializer/base128v.cpp:117-136 | The fold is a bijection between signed and unsigned 64-bit integers |
| Decimals.SmallIsInt64 | mock/jogasaki/serializer/value_output.cpp:157-169 | has_small_coefficient holds exactly if the coefficient is a signed 64-bit integer |
| Decimals.MakeSignedCoefficientFull | mock/jogasaki/serializer/value_output.cpp:171-211 | The words are the two's complement of the coefficient, and the length found by scanning is the least that holds it, 9 to 17 octets |
| Decimals.LeastIsLeast | mock/jogasaki/serializer/value_output.cpp:171-211 | No shorter octet string holds the coefficient |
| Decimals.ComplementRoundTrip | mock/jogasaki/serializer/value_input.cpp:296-340 | Two's-complement octets denote the coefficient they were made from |
| Decimals.ReadWords | mock/jogasaki/serializer/value_input.cpp:296-348 | The octet loops, sign extension and negation give sign and magnitude of the number the octets denote |
| Values.LargeNeedsNine | mock/jogasaki/serializer/value_output.cpp:241-251 | A coefficient beyond 64 bits is coded in 9 to 17 octets, and no fewer would do |
| Values.ComplementInRange | mock/jogasaki/serializer/value_input.cpp:238-266 | Every coefficient the writer stores is one the reader lets through |
| Values.DecimalRoundTrip | mock/jogasaki/serializer/value_input.cpp:268-349 | Every decimal (sign, 128-bit magnitude, 32-bit exponent) is read back, whatever follows |
| Values.ViolatesExactly | mock/jogasaki/serializer/value_input.cpp:238-340 | On every byte string: the assertion of read_decimal fails if and only if the bytes begin with the full form and a negative coefficient of one to seven octets |
| Values.MinusOneInOneOctet | mock/jogasaki/serializer/value_input.cpp:321-330 | The four bytes of the number -1 in one octet |
| Values.IntRoundTrip | mock/jogasaki/serializer/value_input.cpp:186-212 | Every 64-bit integer, embedded or not, is read back |
| Values.IntCodes | mock/jogasaki/serializer/value_input.cpp:186-212 | read_int gives an integer if and only if the bytes are its written code or its long code |
| Values.FloatRoundTrip | mock/jogasaki/serializer/value_input.cpp:214-236 | Every bit pattern is read back |
| Values.FieldsRoundTrip | mock/jogasaki/serializer/value_input.cpp:59-79 | Every sequence of unsigned, signed and 32-bit integers is read back in order |
| Values.FieldTook | mock/jogasaki/serializer/value_input.cpp:59-79 | The bytes an integer field is read from are exactly its code |
| Values.StringRoundTrip | mock/jogasaki/serializer/value_input.cpp:351-395 | Every character or octet string shorter than 2 to the 31 is read back |
| Values.StampRoundTrip | mock/jogasaki/serializer/value_input.cpp:421-492 | The integers of every date, time, time point and interval are read back in order |
| Values.SizeRoundTrip | mock/jogasaki/serializer/value_input.cpp:494-532 | Every row and array size below 2 to the 31 is read back |
| Values.SizeCodes | mock/jogasaki/serializer/value_input.cpp:351-532 | A size is read if and only if the bytes are its written code or its long code |
| Values.ValueRoundTrip | mock/jogasaki/serializer/value_output.cpp:83-520 | Every tree of rows and arrays over all the entry types is read back by the matching read calls, which stop exactly at its end, whatever follows |
| Values.PeekValue | mock/jogasaki/serializer/value_input.cpp:127-184 | peek_type announces every written value by its type; a decimal that is an integer is announced as one |
| ValueOutput.WriteInt | mock/jogasaki/serializer/value_output.cpp:93-125 | False exactly if the room is below the size of the code, then nothing changed; otherwise exactly the code was stored and the position moved behind it |
| ValueOutput.WriteHeader | mock/jogasaki/serializer/value_output.cpp:73-91 | All or nothing, for the entries that are one byte |
| ValueOutput.WriteFloat | mock/jogasaki/serializer/value_output.cpp:127-155 | The same, for both widths |
| ValueOutput.WriteFixed | mock/jogasaki/serializer/value_output.cpp:52-60 | The loop stores the octets of a value, high end first |
| ValueOutput.WriteDecimal | mock/jogasaki/serializer/value_output.cpp:213-276 | The same all-or-nothing law for all three forms, through the octet loops |
| ValueOutput.WriteWords | mock/jogasaki/serializer/value_output.cpp:267-274 | The two loops store the low octets of the two-word number |
| ValueOutput.WriteCharacter | mock/jogasaki/serializer/value_output.cpp:278-303 | All or nothing |
| ValueOutput.WriteOctet | mock/jogasaki/serializer/value_output.cpp:305-330 | All or nothing |
| ValueOutput.WriteDate | mock/jogasaki/serializer/value_output.cpp:383-393 | All or nothing |
| ValueOutput.WriteTimeOfDay | mock/jogasaki/serializer/value_output.cpp:395-405 | All or nothing |
| ValueOutput.WriteTimeOfDayWithOffset | mock/jogasaki/serializer/value_output.cpp:407-420 | All or nothing |
| ValueOutput.WriteTimePoint | mock/jogasaki/serializer/value_output.cpp:422-435 | All or nothing |
| ValueOutput.WriteTimePointWithOffset | mock/jogasaki/serializer/value_output.cpp:437-453 | All or nothing |
| ValueOutput.WriteDatetimeInterval | mock/jogasaki/serializer/value_output.cpp:455-472 | All or nothing |
| ValueOutput.WriteArrayBegin | mock/jogasaki/serializer/value_output.cpp:474-496 | All or nothing |
| ValueOutput.WriteRowBegin | mock/jogasaki/serializer/value_output.cpp:498-520 | All or nothing |
| ValueInput.TakeField | mock/jogasaki/serializer/value_input.cpp:59-79 | Integer, or exception and the position stays; equal to the reading function |
| ValueInput.TakeInt | mock/jogasaki/serializer/value_input.cpp:186-212 | The bytes taken are one of the two codes of the result; on an exception the position stays; equal to the reading function |
| ValueInput.TakeFixed | mock/jogasaki/serializer/value_input.cpp:101-115 | The loop of shifts computes the number the octets denote |
| ValueInput.TakeFloat | mock/jogasaki/serializer/value_input.cpp:214-236 | Equal to the reading function; the position moves only on success |
| ValueInput.TakeSize | mock/jogasaki/serializer/value_input.cpp:494-532 | The bytes taken are one of the two codes of the size, which is below the limit; on an exception the position stays |
| ValueInput.TakeString | mock/jogasaki/serializer/value_input.cpp:351-395 | The bytes taken are a code of the size and then the string; on an exception the position stays |
| ValueInput.TakeCoefficient | mock/jogasaki/serializer/value_input.cpp:238-266 | Accepts exactly the coefficients in range, with the search for an octet that is not zero |
| ValueInput.TakeDecimal | mock/jogasaki/serializer/value_input.cpp:268-349 | The reader with its loops computes the reading function of which DecimalRoundTrip speaks |
| ValueWriter.Writer.Buffer | mock/jogasaki/serializer/value_writer.h:346-351 | The buffer has at least the reserved size and keeps what it held |
| ValueWriter.Writer.WriteEndOfContents | mock/jogasaki/serializer/value_writer.h:46-55 | Cannot fail: exactly the code is handed on |
| ValueWriter.Writer.WriteNull | mock/jogasaki/serializer/value_writer.h:60-69 | Cannot fail: exactly the code is handed on |
| ValueWriter.Writer.WriteInt | mock/jogasaki/serializer/value_writer.h:74-83 | Cannot fail: exactly the code is handed on |
| ValueWriter.Writer.WriteFloat4 | mock/jogasaki/serializer/value_writer.h:89-98 | Cannot fail: exactly the code is handed on |
| ValueWriter.Writer.WriteFloat8 | mock/jogasaki/serializer/value_writer.h:104-113 | Cannot fail: exactly the code is handed on |
| ValueWriter.Writer.WriteDecimal | mock/jogasaki/serializer/value_writer.h:119-128 | Cannot fail: exactly the code is handed on |
| ValueWriter.Writer.WriteCharacter | mock/jogasaki/serializer/value_writer.h:134-143 | Cannot fail with ten bytes beyond the string: exactly the code is handed on |
| ValueWriter.Writer.WriteOctet | mock/jogasaki/serializer/value_writer.h:149-158 | Cannot fail with ten bytes beyond the string: exactly the code is handed on |
| ValueWriter.Writer.WriteDate | mock/jogasaki/serializer/value_writer.h:193-202 | Cannot fail: exactly the code is handed on |
| ValueWriter.Writer.WriteTimeOfDay | mock/jogasaki/serializer/value_writer.h:208-217 | Cannot fail: exactly the code is handed on |
| ValueWriter.Writer.WriteTimeOfDayWithOffset | mock/jogasaki/serializer/value_writer.h:224-233 | Cannot fail: exactly the code is handed on |
| ValueWriter.Writer.WriteTimePoint | mock/jogasaki/serializer/value_writer.h:239-248 | Cannot fail: exactly the code is handed on |
| ValueWriter.Writer.WriteTimePointWithOffset | mock/jogasaki/serializer/value_writer.h:255-264 | Cannot fail: exactly the code is handed on |
| ValueWriter.Writer.WriteDatetimeInterval | mock/jogasaki/serializer/value_writer.h:270-278 | Cannot fail: exactly the code is handed on |
| ValueWriter.Writer.WriteArrayBegin | mock/jogasaki/serializer/value_writer.h:284-293 | Cannot fail: exactly the code is handed on |
| ValueWriter.Writer.WriteRowBegin | mock/jogasaki/serializer/value_writer.h:299-308 | Cannot fail: exactly the code is handed on |
| TreeWriter.WriteTree | mock/jogasaki/serializer/value_writer.h:46-308 | The calls for a tree, container sizes before items, hand on exactly the code of the tree |
| TreeWriter.WriteAndRead | mock/jogasaki/serializer/value_writer.h:46-308 | For every tree, what the calls handed on reads back as the tree, with any bytes behind it, and earlier output is untouched |
| Notifier.FloorLaw | include/tateyama/task_scheduler/impl/periodic_notifier.h:57-81 | After k calls the notifier has notified exactly floor(k * n / p) times and its counter is the remainder |
| Notifier.EveryPeriod | include/tateyama/task_scheduler/impl/periodic_notifier.h:57-64 | Any p consecutive calls, from wherever, notify exactly n times |
| Notifier.PeriodicNotifier.Init | include/tateyama/task_scheduler/impl/periodic_notifier.h:71-81 | Starts counting calls afresh |
| Notifier.PeriodicNotifier.CountUp | include/tateyama/task_scheduler/impl/periodic_notifier.h:57-64 | Notifies exactly when the floor of calls * n / p goes up |
| Notifier.Queues.TryBoth | include/tateyama/task_scheduler/impl/worker.h:283-304 | Runs the front of the local queue first exactly on a notified call, else the sticky queue first; nothing only if both are empty |
| Notifier.Fairness | include/tateyama/task_scheduler/impl/worker.h:271-304 | With both queues non-empty, whatever they hold, exactly n of any p consecutive calls run a local task |
| WorkerChoice.CycleVisitsAll | include/tateyama/task_scheduler/impl/worker.h:223-229 | n steps visit every worker exactly once and come back |
| WorkerChoice.SelectWorker | include/tateyama/task_scheduler/scheduler.h:350-370 | Whatever the workers do between its looks: the first one found suspended in cyclic order after the candidate, or the next one if none was |
| WorkerChoice.FindVictim | include/tateyama/task_scheduler/impl/worker.h:231-248 | Whatever happens to the queues between its looks: the first one found non-empty in cyclic order after the last one robbed; fails exactly if none was |
| WorkerChoice.NoneAtAll | include/tateyama/task_scheduler/impl/worker.h:231-248 | With nothing changing, a search that finds nothing means that there is nothing |
| SchedulerTheorems.TaskConservation | include/tateyama/task_scheduler/impl/worker.h:117-304 | In every state of every run, each task was scheduled exactly as often as it is in an initial, local or sticky queue, running, or executed |
| SchedulerTheorems.StickyStaysHome | include/tateyama/task_scheduler/impl/worker.h:231-304 | A sticky task runs and was executed on its own worker only, whatever is stolen |
| SchedulerScan.FailedScanSawAllEmpty | include/tateyama/task_scheduler/impl/worker.h:231-248 | For every run: from the start of a scan for a task to steal to its failure, every local queue was empty at some moment, whatever the other threads did |
| SchedulerTheorems.ReconstructDiscardsNothing | include/tateyama/task_scheduler/scheduler.h:172-216 | Queues are empty when they are reconstructed, and once started every thread is initialized |
| SchedulerTheorems.NoLostActivation | include/tateyama/task_scheduler/impl/thread_control.h:98-121 | A worker asleep in suspend over a local or sticky task has its flag set or a thread between push and flag; until it is notified of a set flag, some thread is about to notify it |
| SchedulerProofs.StepInv | include/tateyama/task_scheduler/impl/worker.h:147-213 | Every step of any thread keeps the invariant of all workers |
| SchedulerTheorems.InvAlways | include/tateyama/task_scheduler/impl/worker.h:117-213 | The invariant holds in every state of every run |
| SchedulerTheorems.StrandedNeverRuns | include/tateyama/task_scheduler/scheduler.h:172-179 | A task that reaches the initial queue after its worker drained it is never run, however long the run |
| SchedulerTheorems.EarlyTaskFate | include/tateyama/task_scheduler/impl/worker.h:117-138 | For every run: a task once among the initial tasks, scheduled once, is still there when its worker has settled if and only if the worker had settled when it was seen there; otherwise it is in exactly one of local and sticky queues, running and executed |
| SchedulerTheorems.EarlyTaskIsStranded | include/tateyama/task_scheduler/scheduler.h:172-179 | For every configuration, a run with such a task |
| Watcher.NoLostActivation | include/tateyama/task_scheduler/impl/conditional_worker.h:131-166 | The watcher in its long suspend over a task has its flag set or a thread between push and flag; until it is notified of a set flag, some thread is about to notify it |
| Watcher.ConditionalConservation | include/tateyama/task_scheduler/impl/conditional_worker.h:131-148 | In every state of every run, each conditional task was scheduled exactly as often as it is queued, in the watcher's hands, executed or dropped |
| Watcher.LateTaskIsKept | include/tateyama/task_scheduler/impl/conditional_worker.h:118-122 | Nothing scheduled after the queue was reconstructed is ever dropped |
| Watcher.EarlyTaskIsDropped | include/tateyama/task_scheduler/impl/conditional_worker.h:118-122 | Everything scheduled before is dropped and never executed |
| Watcher.EarlyTaskExists | include/tateyama/task_scheduler/scheduler.h:148-153 | A run in which a scheduled task is dropped |

## Left out

Assumptions of the step machines:

- Memory is sequentially consistent, and the position counters do not wrap around at 64 bits.
- The header of a message is at least four bytes, ends with the payload length, and fits the ring; the ring of a result set is shorter than 2 to the 32, the range of its record length.
- A wait with a timeout may end at any time; the length of timeouts, `u_cap` and `u_round` are not modelled.
- There are fewer than 2 to the 32 connection slots, and at most 255 are set aside, the ranges of their types.
- Boost's shared-memory allocation is a fresh handle or nothing.

Weaker than the source:

- RecordRingProofs.RingAlways: only until the client closes a result-set wire; what is written afterwards is abandoned and the ring bound is not kept there.
- WireTheorems.WriterWakeupNotLost: the reader of the machine copies and then pops; `payload` and `dispose` pop and notify by the same steps, with the bytes read in place before.
- SimpleWire.WireReader.Read: a wait of the chunk loop is the writer storing the next chunk; the interleaving of both sides is in the step machine.
- WireTheorems.ReaderWakeupNotLost: excludes the wakeup the source loses, which ClosedReaderIsWokenByCloseOnly describes exactly.
- ConnectionQueue.Allocator.Request: asks for the counter within the slots set aside, or a free slot; what the source does otherwise is in TakeNormal.
- ConnectionQueue.IndexQueue.TryPopAdmin: asks that the difference in the guard is not below zero, which TakeAdmin shows of every state.
- ValueInput.TakeDecimal: a failed assertion is an error of its own; ViolatesExactly says on which bytes.
- Decimals.ReadWords: asks for what the source asserts, at least eight octets if negative.
- BufferPool.Wires.Release: detaches the handle only; what the positions of the wire must be before it is used again is in ReattachExactly.
- ValueOutput.WriteDecimal: the negation of the coefficient -2^63 is that of the integer; floats are bit patterns.
- SchedulerTheorems.NoLostActivation: before `stop()` and with `busy_worker` off.

Not modelled:

- `stop()` and the state of tasks after it, exceptions thrown by tasks, statistics, diagnostics, thread affinity and NUMA placement.
- The tbb and moodycamel queues: a queue is a sequence with atomic push and pop.
- `index_queue::notify` and the termination of `connection_queue`, which rely on a timed wait.
- `write_bit` and `read_bit`, which depend on a bitset view that is not part of this model; `write_blob` and `write_clob`, which have no reader.
- The date and time readers as methods of their own: they are straight-line calls, and `ReadStamp` is one function for all six.
- `status_provider`, sessions, services, endpoints, authentication, configuration and the life cycle of components.
