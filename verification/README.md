# Verified models of PX4 platform code and ground tools

A Dafny model of the parts of PX4 whose correctness is not obvious from reading them, with proofs
over all inputs, all runs and all interleavings. `dafny verify dfyconfig.toml` checks everything.

What is modelled, file by file:

- **ULog streaming over MAVLink** (`UlogReceiver.dfy`, `UlogFraming.dfy`, `UlogGuarantees.dfy`). The
  receiver is a class that updates its fields per packet; each method is proved equal to a step
  function. `UlogFraming` adds a sender that cuts any log into packets, and a channel that loses,
  repeats and reorders them (never by 2^15 or more). Over every run the file is the 16 byte header, then whole messages in
  order, each at most once, with only dropout messages in between. A message is there, or held back
  as the last one, exactly if all of its bytes got through, and there is one dropout message, with
  the right duration, for each gap.
- **Work queue** (`WorkQueue.dfy`, `WorkQueueInvariant.dfy`, `WorkQueueGuarantees.dfy`,
  `WorkQueueRunning.dfy`). A state machine in which every access to shared state is a step of its
  own: any number of threads run Attach, Add, Remove and Detach, one worker runs Run and the
  destructor. Reading and posting the semaphore in SignalWorkerThread are two steps. One invariant,
  kept by every step, gives: no lost wake-up, every push served once and in order, a safe tear-down
  that the last Detach is sure to start, no deadlock, and a queue that drains. An item that is being
  run is attached, unless a Detach comes during its Run().
- **Intrusive queue** (`IntrusiveQueue.dfy`). The linked list behind the work queue, with its nodes
  on the heap, proved to be a first-in-first-out sequence without repetitions.
- **px4_getopt** (`Getopt.dfy`). argv is an array of C strings that is rearranged in place. Both
  passes and the parser are proved against a one-pass tokenizer of the original words.
- **Log history** (`LogHistory.dfy`). The circular buffer holds the last N-1 bytes ever written;
  reading and printing in chunks gives exactly these.
- **SPI bus iterator and driver instances** (`SpiBuses.dfy`, `BusInstances.dfy`). A resumable
  enumeration, and a registry from which a loop removes entries while it walks along it.
- **uORB generators** (`DependencyOrder.dfy`, `StructLayout.dfy`). The depth-first order of nested
  message definitions, and struct padding compared with the layout a C compiler chooses.
- **Firmware uploader** (`CrcTable.dfy`, `Firmware.dfy`). The 256 entry CRC table against the
  bitwise CRC of the sample code in section 8 of RFC 1952, and the flash image against the CRC the
  uploader predicts.
- **Events** (`EventMessages.dfy`, `EventArguments.dfy`). Rewriting argument references in a string
  while scanning it, and splitting argument lists at top-level commas.
- **Subscription rate limit** (`RateLimit.dfy`), with 64 bit unsigned arithmetic written out.
- **Airtime detection** (`Airtime.dfy`), from the landed flag to the samples of a data set.

Some promises turn out to hold only under a condition. The code is modelled as it is, a lemma gives
inputs that fail, and another says exactly when the promise holds:

- The size of a nested message type is computed from its fields in file order, while its own struct
  is generated from sorted fields. `StructSizeIsSizeof` says when computed size and sizeof agree, in
  terms of the runs of builtin fields between embedded ones; `NestedSizeCanDiffer` shows 24 against
  16 bytes.
- A driver instance stores its I2C address as `int8_t`, while the iterator compares a `uint8_t`.
  `RunningInstanceIsRecognized` says when a second start notices the first, and
  `EightBitAddressStartsTwice` what happens if not.
- A plain copy() before the clock has reached the interval puts the time of the last update ahead of
  the clock, and from then on data is always due. `LimitedIffCopiedLate` says that after a copy the
  rate is limited exactly if the clock had reached the interval; `EarlyUpdatesAreNotLimited` gives
  any number of updates at one instant otherwise. With update() alone the rate is always limited:
  `UpdatesAloneAreLimited`.
- The argument scanner looks one character back to see whether a quote is escaped.
  `ScannerAgreesIff` says that it tells string literals as C does exactly if no literal ends in an
  escaped backslash; `EscapedBackslashIsMisread` gives the lists it does not split.
- Putting arguments in front of an event keeps its text exactly under the condition of
  `PrependKeepsMeaning`; `ReferenceIsCaptured` gives texts that change.
- `crc(padlen)` covers padlen bytes exactly if padlen is a multiple of four: `CoversExactly`,
  `PartialWordIsMiscounted`.
- A running work item stays attached exactly until a Detach of it: `OnlyDetachLosesCurrent`,
  `DetachedItemRuns`.

## Model

| member | source | states |
|---|---|---|
| UlogReceiver.MavlinkLogStreaming.constructor | Tools/mavlink_ulog_streaming.py:46-55 | a fresh receiver has no header, nothing pending, no drops and no last sequence number |
| UlogReceiver.MavlinkLogStreaming.WriteUlogMessages | Tools/mavlink_ulog_streaming.py:224-233 | the loop writes exactly the leading whole messages and returns the bytes after them |
| UlogReceiver.MavlinkLogStreaming.ProcessStreamedUlogData | Tools/mavlink_ulog_streaming.py:189-221 | the new fields and file are those of the step function that all theorems are about; it raises, with nothing changed, exactly if the first packet is shorter than the file header |
| UlogReceiver.MavlinkLogStreaming.ReadAndProcess | Tools/mavlink_ulog_streaming.py:143-168 | a packet that is not newer changes no more than the acknowledgement; a newer one is one step of the receiver |
| UlogFraming.SequenceNumbersRefineCounters | Tools/mavlink_ulog_streaming.py:171-186 | for counters less than 2^15 apart, 16 bit numbers tell correctly which is newer and how many were skipped |
| UlogFraming.HalfRangeIsAmbiguous | Tools/mavlink_ulog_streaming.py:171-186 | at a distance of 2^15 the answer is decided by the side of the wrap-around alone, so the bound above is sharp |
| UlogFraming.WholeBytesFollowsBoundaries | Tools/mavlink_ulog_streaming.py:224-233 | starting at a message boundary, the length fields lead to the last boundary before the end of the data |
| UlogFraming.LosingPackets | Tools/mavlink_ulog_streaming.py:198-210 | after lost packets, the loss is recorded if a LOGGING_DATA packet was taken, a complete pending message is written and a cut one discarded, and the file stays well framed |
| UlogFraming.TakingPacket | Tools/mavlink_ulog_streaming.py:212-221 | taking the next bytes of the stream keeps the file well framed |
| UlogGuarantees.AppendConserves | Tools/mavlink_ulog_streaming.py:212-221 | without losses, file plus pending bytes stay a prefix of the stream |
| UlogGuarantees.NextPacket | Tools/mavlink_ulog_streaming.py:143-233 | any arrival, in order, late, repeated or after a gap, keeps the invariant and is received without an exception |
| UlogGuarantees.RunInvariant | Tools/mavlink_ulog_streaming.py:143-233 | the invariant holds after every run of arrivals |
| UlogGuarantees.ExactlyTheWholeMessages | Tools/mavlink_ulog_streaming.py:189-233 | a message is in the file or held back if and only if all of its bytes were received |
| UlogGuarantees.FramingSafety | Tools/mavlink_ulog_streaming.py:171-233 | over every run the file is the header, then whole messages in order and at most once, interleaved only with dropout messages; it misses no message that was received completely; and the dropout messages, of type 79 and ten milliseconds for each packet up to 25, are one for each gap between packets taken, from the first LOGGING_DATA packet on |
| UlogFraming.DropoutsAreDropouts | Tools/mavlink_ulog_streaming.py:198-202 | what is written for a loss is a whole ULog message of type 79 with a 16 bit duration of ten milliseconds for each packet, up to 25 |
| UlogGuarantees.GapIsRecordedFirst | Tools/mavlink_ulog_streaming.py:198-206 | over every run, an arrival after a gap first adds the dropout message to the file, before what was pending |
| UlogGuarantees.EveryAckedPacketIsAcknowledged | Tools/mavlink_ulog_streaming.py:146-150 | over every run the acknowledgements are the sequence numbers of the LOGGING_DATA_ACKED packets that arrived, repeated ones included |
| UlogGuarantees.EveryPacketIsAccountedFor | Tools/mavlink_ulog_streaming.py:152-186 | over every run and any number of wraps, packets taken plus drops reported equal the newest counter plus one, and the next arrival is taken if and only if it is newer |
| UlogGuarantees.LosslessConservation | Tools/mavlink_ulog_streaming.py:189-233 | as long as nothing is lost, file contents followed by the pending bytes are the stream so far, and the pending bytes begin one message |
| WorkQueueInvariant.LockCall | platforms/common/px4_work_queue/WorkQueue.cpp:85-161 | a call step keeps mutual exclusion: holding the queue lock and being inside a locked section are the same thing |
| WorkQueueInvariant.BindCall | platforms/common/px4_work_queue/WorkItem.cpp:68-105 | a call step keeps bound items attached, and an item being attached or detached to one call |
| WorkQueueInvariant.QueueCall | platforms/common/px4_work_queue/WorkQueue.cpp:129-161 | a call step keeps the queue in push order, without repeated items, and only attached items in it |
| WorkQueueInvariant.StopCall | platforms/common/px4_work_queue/WorkQueue.cpp:85-127 | a call step keeps the tear-down handshake: one exiting Detach at most, holding the exit lock until it is done |
| WorkQueueInvariant.WakeCall | platforms/common/px4_work_queue/WorkQueue.cpp:129-154 | a call step keeps a wake-up on its way while work is queued, although value and post are read and done apart |
| WorkQueueInvariant.WakeWork | platforms/common/px4_work_queue/WorkQueue.cpp:174-206 | a worker step keeps it too; the worker only goes to wait after it saw the queue empty |
| WorkQueueInvariant.HistoryCall | platforms/common/px4_work_queue/WorkQueue.cpp:129-161 | a call step keeps every push accounted for |
| WorkQueueInvariant.CountCall | platforms/common/px4_work_queue/WorkQueue.cpp:147-154 | a call step keeps the semaphore value plus pending posts within the number of threads |
| WorkQueueInvariant.InvCall | platforms/common/px4_work_queue/WorkQueue.cpp:85-161 | every step of every call keeps the whole invariant |
| WorkQueueInvariant.InvWork | platforms/common/px4_work_queue/WorkQueue.cpp:68-206 | every step of the worker, destructor included, keeps the whole invariant |
| WorkQueueInvariant.InvBegin | platforms/common/px4_work_queue/WorkItem.cpp:68-105 | so does the beginning of any call the caller may make |
| WorkQueueInvariant.InvReachable | platforms/common/px4_work_queue/WorkQueue.cpp:47-206 | the invariant holds in every state of every interleaving |
| WorkQueueGuarantees.NoLostWakeup | platforms/common/px4_work_queue/WorkQueue.cpp:129-154 | in every reachable state, queued work means a raised semaphore, a worker on its way, or a caller yet to signal; likewise for the stop request; and the semaphore never exceeds the number of threads |
| WorkQueueGuarantees.EveryPushIsServedInOrder | platforms/common/px4_work_queue/WorkQueue.cpp:85-206 | every push is run once, removed, or pending, and never two of these; runs happen in push order; queued items are attached; a stop request means an empty queue |
| WorkQueueGuarantees.DestroyedOnlyAfterDetach | platforms/common/px4_work_queue/WorkQueue.cpp:68-127 | at most one Detach takes the exiting path, and when the semaphores are destroyed no call but an Attach without the lock is left |
| WorkQueueGuarantees.LockHolderProceeds | platforms/common/px4_work_queue/WorkQueue.cpp:68-127 | whoever holds the queue lock can move, or waits for a Detach that needs no lock: the lock order cannot deadlock |
| WorkQueueGuarantees.HolderHasExitLock | platforms/common/px4_work_queue/WorkQueue.cpp:100-127 | the exit lock is free when Detach asks for it while holding the queue lock |
| WorkQueueGuarantees.QuietMeansDrained | platforms/common/px4_work_queue/WorkQueue.cpp:174-206 | if nothing can move, the queue is empty, every call has returned, and a worker told to stop has stopped |
| WorkQueueGuarantees.EmptyingStops | platforms/common/px4_work_queue/WorkQueue.cpp:100-117 | only a Detach empties the list of items, and it goes on to request the stop |
| WorkQueueGuarantees.LastDetachStopsTheQueue | platforms/common/px4_work_queue/WorkQueue.cpp:100-127 | over every run, once the last item was detached, nothing is attached again and the stop is requested or about to be |
| WorkQueueGuarantees.EmptiedQueueFinishes | platforms/common/px4_work_queue/WorkQueue.cpp:68-127 | and where nothing can move any more the worker has run the destructor, after exactly one exit |
| WorkQueueGuarantees.CallsWindDown | platforms/common/px4_work_queue/WorkQueue.cpp:85-161 | every call step brings the system closer to rest |
| WorkQueueGuarantees.WorkerWindsDown | platforms/common/px4_work_queue/WorkQueue.cpp:174-206 | every worker step brings the system closer to rest |
| WorkQueueGuarantees.QueueDrains | platforms/common/px4_work_queue/WorkQueue.cpp:174-206 | without new calls every run is shorter than a bound known at its start, and where it ends the queue is empty |
| WorkQueueGuarantees.PushIsPush | src/include/containers/IntrusiveQueue.hpp:59-76 | the model's push has the effect that is proved of the linked queue's |
| WorkQueueGuarantees.RemoveIsRemove | src/include/containers/IntrusiveQueue.hpp:98-129 | the model's remove takes out one item or none, as is proved of the linked queue's |
| WorkQueueRunning.PoppedIsAttached | platforms/common/px4_work_queue/WorkQueue.cpp:183-185 | an item is attached when the worker pops it |
| WorkQueueRunning.OnlyDetachLosesCurrent | platforms/common/px4_work_queue/WorkQueue.cpp:100-127 | while the worker has an item in hand, a step takes it out of the attached items if and only if it is a Detach of that item |
| WorkQueueRunning.DetachMeetsRun | platforms/common/px4_work_queue/WorkQueue.cpp:186-188 | such a Detach cannot come before the worker has unlocked and entered Run() |
| WorkQueueRunning.CurrentIsAttachedUnlessDetached | platforms/common/px4_work_queue/WorkQueue.cpp:174-206 | in every reachable state the item in hand is attached, or was detached during this very Run() |
| WorkQueueRunning.RunningItemCanBeDetached | platforms/common/px4_work_queue/WorkItem.cpp:85-98 | from every reachable state within a Run() of a bound item, a Deinit by another thread leads to a detached item running |
| WorkQueueRunning.DetachedItemRuns | platforms/common/px4_work_queue/WorkQueue.cpp:174-206 | such a state is reached from a fresh queue with one caller |
| WorkQueueRunning.WholeAttach | platforms/common/px4_work_queue/WorkQueue.cpp:85-98 | an Attach that nobody interrupts, before the stop, attaches the item, whatever else is attached |
| WorkQueueRunning.WholeAdd | platforms/common/px4_work_queue/WorkQueue.cpp:129-154 | an Add that nobody interrupts, with the semaphore down, queues the item and wakes the worker |
| WorkQueueRunning.WholeClear | platforms/common/px4_work_queue/WorkQueue.cpp:156-161 | a ScheduleClear that nobody interrupts takes the item out of the queue and leaves it attached |
| WorkQueueRunning.WholeTake | platforms/common/px4_work_queue/WorkQueue.cpp:174-189 | a worker that is signalled takes the oldest item and enters its Run() |
| IntrusiveQueue.IntrusiveQueue.Empty | src/include/containers/IntrusiveQueue.hpp:43-43 | the head is null exactly if nothing is queued |
| IntrusiveQueue.IntrusiveQueue.Size | src/include/containers/IntrusiveQueue.hpp:48-57 | following the links counts every queued node |
| IntrusiveQueue.IntrusiveQueue.Push | src/include/containers/IntrusiveQueue.hpp:59-76 | the two pointer tests recognize exactly the queued nodes; others go to the end |
| IntrusiveQueue.IntrusiveQueue.Pop | src/include/containers/IntrusiveQueue.hpp:78-96 | the oldest node comes out, unlinked so that it can be pushed again |
| IntrusiveQueue.IntrusiveQueue.Remove | src/include/containers/IntrusiveQueue.hpp:98-129 | exactly the given node goes, from anywhere in the queue; false and nothing changed if and only if it is not queued |
| IntrusiveQueue.UnlinkChain | src/include/containers/IntrusiveQueue.hpp:114-125 | linking a node past its successor leaves a chain of all other nodes in order |
| Getopt.IsValidOpt | platforms/common/px4_getopt.c:43-61 | the option letter if it is in the list, else '?'; an argument is taken if and only if a colon follows the first occurrence of the letter |
| Getopt.ReorderedIsPermutation | platforms/common/px4_getopt.c:63-128 | rearranging loses no word and adds none |
| Getopt.ReorderedKeepsOrder | platforms/common/px4_getopt.c:63-128 | options with their arguments, and the other words, both keep their original order |
| Getopt.BackHasNoOptions | platforms/common/px4_getopt.c:99-120 | the words behind the options are no options |
| Getopt.ReorderedReadsTheSame | platforms/common/px4_getopt.c:63-128 | a tokenizer reads the same options and arguments before and after, and rearranging again changes nothing |
| Getopt.MoveOptions | platforms/common/px4_getopt.c:72-97 | the first pass succeeds exactly if the tokenizer does, and then has copied the options with their arguments in order |
| Getopt.AddNonOptions | platforms/common/px4_getopt.c:99-120 | the second pass appends the other words in order; its '?' exit is never taken |
| Getopt.Reorder | platforms/common/px4_getopt.c:64-128 | argv becomes options and arguments, then the other words, both in original order; on failure argv is untouched |
| Getopt.ParseWord | platforms/common/px4_getopt.c:157-187 | the parse of one word, with every error return |
| Getopt.Px4Getopt | platforms/common/px4_getopt.c:144-187 | only the first call rearranges, and it reports '?' exactly for words the tokenizer rejects |
| Getopt.ParseOneTakesNextToken | platforms/common/px4_getopt.c:157-187 | on rearranged words a call returns exactly the tokenizer's next option and argument, and -1 exactly when none is left |
| Getopt.InProgressStep | platforms/common/px4_getopt.c:144-187 | each call moves exactly one token from what is left to what was returned |
| Getopt.ParseAll | platforms/common/px4_getopt.c:144-187 | repeated calls return exactly the tokenizer's list, then -1 with the index at the first word that is no option; or '?' at once if and only if the tokenizer fails |
| LogHistory.StoreOne | platforms/common/px4_log_history.cpp:73-78 | storing a byte keeps exactly the last N-1 bytes between head and tail, wrap-around included |
| LogHistory.MoveOffset | platforms/common/px4_log_history.cpp:143-143 | moving the offset by what was read leaves exactly the rest to be read |
| LogHistory.LogHistory.constructor | platforms/common/include/px4_platform_common/log_history.h:48-63 | a new buffer is empty |
| LogHistory.LogHistory.Write | platforms/common/px4_log_history.cpp:65-82 | after any writes the contents are the last N-1 bytes ever written |
| LogHistory.LogHistory.Size | platforms/common/px4_log_history.cpp:84-98 | the number of bytes held: all that were written, up to N-1 |
| LogHistory.LogHistory.CopyOut | platforms/common/px4_log_history.cpp:108-140 | the one or two copies give the next bytes from the offset, and touch nothing behind them |
| LogHistory.LogHistory.Read | platforms/common/px4_log_history.cpp:100-145 | a read of any length gives the next bytes and an offset at which the rest follows |
| LogHistory.LogHistory.ReadAll | platforms/common/px4_log_history.cpp:100-145 | successive reads of any chunk size from offset -1 add up to the contents |
| LogHistory.LogHistory.Print | platforms/common/px4_log_history.cpp:39-62 | printing ends whatever other threads write meanwhile, and prints exactly the contents if they write nothing |
| SpiBuses.WantedFromIsExact | platforms/common/spi.cpp:115-172 | the reference list holds exactly the matching devices, each once, in table order |
| SpiBuses.InternalSelects | platforms/common/spi.cpp:128-143 | an internal query matches SPI devices of the driver on present internal buses, on the bus and pin given if any |
| SpiBuses.ExternalSelects | platforms/common/spi.cpp:147-158 | an external query names the b-th external bus and its c-th device, both counted from 1 |
| SpiBuses.ExternalIsUnique | platforms/common/spi.cpp:142-160 | an external query matches one device at most |
| SpiBuses.SPIBusIterator.constructor | platforms/common/include/px4_platform_common/spi.h:149-152 | a new iterator has all matching devices before it; an external query without a bus means bus 1 |
| SpiBuses.SPIBusIterator.FindOnBus | platforms/common/spi.cpp:127-160 | the first matching device on the bus after the last one, or none |
| SpiBuses.SPIBusIterator.Next | platforms/common/spi.cpp:115-172 | yields the first of the remaining devices and leaves the others; false, for ever, when none remain |
| SpiBuses.VisitAll | platforms/common/spi.cpp:115-172 | calling next() until it fails visits exactly the remaining list |
| BusInstances.RunningInstanceIsRecognized | platforms/common/i2c_spi_buses.cpp:363-368 | a started instance is recognized by a second start if and only if the I2C address fits an int8_t |
| BusInstances.OccupiesIsSameKey | platforms/common/i2c_spi_buses.cpp:363-368 | with 7 bit addresses, being recognized and having the same key are the same |
| BusInstances.BusInstanceIterator.NextInstance | platforms/common/i2c_spi_buses.cpp:308-329 | the next instance of the driver after the cursor, with none skipped |
| BusInstances.BusInstanceIterator.NextTarget | platforms/common/i2c_spi_buses.cpp:349-377 | the next target, with the cursor on the first instance that runs there, if any |
| BusInstances.BusInstanceIterator.RemoveInstance | platforms/common/i2c_spi_buses.cpp:417-428 | one instance is removed and the cursor rewound so that iteration misses none |
| BusInstances.StopAll | platforms/common/i2c_spi_buses.cpp:733-753 | with option All the loop ends with exactly this driver's instances gone and the others in order |
| BusInstances.StopOnBus | platforms/common/i2c_spi_buses.cpp:733-753 | on a bus, the first instance on each target is gone |
| BusInstances.ModuleStop | platforms/common/i2c_spi_buses.cpp:733-753 | 0 if and only if something was removed |
| BusInstances.ModuleStart | platforms/common/i2c_spi_buses.cpp:603-663 | option All is refused; else an instance is added on exactly the free targets where the driver finds a device |
| BusInstances.StartedKeepsUnique | platforms/common/i2c_spi_buses.cpp:603-663 | starting gives no two instances the same key |
| BusInstances.StartedOccupies | platforms/common/i2c_spi_buses.cpp:603-663 | starting keeps all instances, and every target with a device has one |
| BusInstances.StartedAddsOnly | platforms/common/i2c_spi_buses.cpp:615-663 | nothing is added but instances of this driver, on targets that were free and where a device was found |
| BusInstances.VacateUnique | platforms/common/i2c_spi_buses.cpp:733-753 | with unique keys, removing the first instance on a target removes all of them |
| BusInstances.StoppedRemovesExactly | platforms/common/i2c_spi_buses.cpp:733-753 | stopping removes exactly the selected instances and keeps keys unique |
| BusInstances.SelectedIsExact | platforms/common/i2c_spi_buses.cpp:308-377 | selected are the driver's instances: all of them for option All, else those of that bus option on a target of the command, and on I2C at its address |
| BusInstances.KeysStayUnique | platforms/common/i2c_spi_buses.cpp:603-753 | over every sequence of starts and stops with 7 bit addresses no two instances share their key |
| BusInstances.EightBitAddressStartsTwice | platforms/common/i2c_spi_buses.cpp:363-368 | with any address from 128 on, the same start command gives two instances with one key |
| DependencyOrder.AcyclicIffRanked | Tools/msg/px_generate_uorb_compressed_fields.py:63-74 | definitions have a rank that bounds the recursion if and only if no definition depends on itself through others |
| DependencyOrder.Definitions.OrderedList | Tools/msg/px_generate_uorb_compressed_fields.py:63-74 | the search adds each newly completed definition once, behind everything it depends on |
| DependencyOrder.EmissionOrder | Tools/msg/px_generate_uorb_compressed_fields.py:207-214 | for every acyclic graph the result lists each definition once, with dependencies after the definitions that need them; both assertions hold |
| DependencyOrder.ReversalIsEmissionOrder | Tools/msg/px_generate_uorb_compressed_fields.py:211-211 | reversing a dependencies-first list puts every dependency later |
| StructLayout.AddPaddingBytes | Tools/msg/px_generate_uorb_topic_helper.py:229-277 | the loop that inserts while it iterates, and its recursion, end and give the padded fields, the size and the padding at the end |
| StructLayout.PaddingKeepsFields | Tools/msg/px_generate_uorb_topic_helper.py:240-275 | the original fields stay, in order |
| StructLayout.PaddingIsSmall | Tools/msg/px_generate_uorb_topic_helper.py:250-275 | every padding is one to seven bytes |
| StructLayout.PaddingsAreNumbered | Tools/msg/px_generate_uorb_topic_helper.py:252-274 | the padding fields are numbered one after the other, so their names differ |
| StructLayout.PaddingFills | Tools/msg/px_generate_uorb_topic_helper.py:236-277 | the padded fields end to end fill the struct |
| StructLayout.StructSizeIsSum | Tools/msg/px_generate_uorb_topic_helper.py:229-277 | the size is a multiple of eight and the sum of its parts |
| StructLayout.SortedDescends | Tools/msg/templates/uorb/msg.h.em:99-100 | sorted fields never grow in element size, embedded types last |
| StructLayout.SortIsPermutation | Tools/msg/templates/uorb/msg.h.em:99-100 | sorting keeps every field |
| StructLayout.SortIsStable | Tools/msg/templates/uorb/msg.h.em:99-99 | each field comes from one position of the file, and fields of the same size keep their order |
| StructLayout.PaddedFieldsAreAligned | Tools/msg/px_generate_uorb_topic_helper.py:229-277 | every field starts at a multiple of its natural alignment, eight for embedded types |
| StructLayout.SortKeepsTotalSize | Tools/msg/px_generate_uorb_topic_helper.py:156-163 | sorting does not change the bytes the fields take up |
| StructLayout.GapsArePadding | Tools/msg/px_generate_uorb_topic_helper.py:229-277 | all padding there is makes up for the runs of builtin fields that miss a multiple of eight, which the field list alone determines |
| StructLayout.NestedSizeAgrees | Tools/msg/px_generate_uorb_topic_helper.py:259-262 | size in file order and size of the sorted struct agree if and only if the runs of builtin fields in file order miss multiples of eight by less than eight bytes altogether |
| StructLayout.NestedSizeCanDiffer | Tools/msg/px_generate_uorb_topic_helper.py:259-262 | a message for which they do not |
| StructLayout.BuiltinsFirstAgree | Tools/msg/px_generate_uorb_topic_helper.py:259-262 | that condition is met by every message that lists builtin fields first |
| StructLayout.NoHiddenPadding | Tools/msg/px_generate_uorb_topic_helper.py:229-277 | a C compiler adds no padding of its own to the generated members |
| StructLayout.StructSizeIsSizeof | Tools/msg/px_generate_uorb_topic_helper.py:229-277 | the computed size is never below sizeof of the generated struct, and equal to it if and only if the runs of builtin fields meet that condition in all nested types |
| CrcTable.TableIsLinear | Tools/px_uploader.py:107-139 | all 256 entries are determined by eight of them |
| CrcTable.TableIsBitwise | Tools/px_uploader.py:107-139 | every entry is its index put through eight steps of the reflected polynomial 0xedb88320 |
| CrcTable.TableStepIsBitwise | Tools/px_uploader.py:158-162 | one table step is eight bitwise steps, from every state and for every byte |
| CrcTable.Bits8Injective | Tools/px_uploader.py:158-162 | eight bitwise steps can be undone |
| Firmware.CrcIsBitwise | Tools/px_uploader.py:158-162 | the table CRC of any bytes is the bitwise CRC |
| Firmware.Crc32 | Tools/px_uploader.py:158-162 | the loop computes that CRC from any start state |
| Firmware.FirmwareFile.constructor | Tools/px_uploader.py:149-153 | the image is padded with 0xff by the fewest bytes that make a multiple of four |
| Firmware.FirmwareFile.ImageCrc | Tools/px_uploader.py:164-168 | the CRC of the image followed by blank words, also for padlen below the image length |
| Firmware.RoundsAreFewest | Tools/px_uploader.py:166-166 | the blank words are the fewest that reach the last byte but one |
| Firmware.CoversExactly | Tools/px_uploader.py:166-166 | these cover padlen bytes if and only if padlen is a multiple of four |
| Firmware.PartialWordIsMiscounted | Tools/px_uploader.py:166-166 | lengths for which they cover too much or too little |
| Firmware.SplitIsExact | Tools/px_uploader.py:497-498 | the groups concatenate to the image; each is a non-empty multiple of four bytes within the limit, and all but the last are as long as the limit |
| Firmware.Flash.ProgMulti | Tools/px_uploader.py:449-455 | a PROG_MULTI writes its bytes at the write address and nowhere else |
| Firmware.Program | Tools/px_uploader.py:501-513 | an erased flash programmed group by group holds the image and is blank behind it |
| Firmware.ProgramAndVerify | Tools/px_uploader.py:548-559 | the CRC of that flash is the one the uploader expects |
| Firmware.CrcKeepsDifference | Tools/px_uploader.py:158-162 | different states stay different under the same bytes |
| Firmware.BurstIsDetected | Tools/px_uploader.py:548-559 | a flash that is wrong anywhere within four consecutive bytes has a different CRC |
| EventMessages.TextRoundTrip | Tools/px4events/srcparser.py:52-55 | a number written out reads back as itself |
| EventMessages.ShiftPrintedArguments | Tools/px4events/srcparser.py:43-58 | the loop ends although the string grows under it, and gives the one-pass rewriting of the original |
| EventMessages.ShiftTwice | Tools/px4events/srcparser.py:43-58 | shifting by a and then b is shifting by a + b |
| EventMessages.ShiftRaisesReferences | Tools/px4events/srcparser.py:43-58 | every reference is raised by the offset, and nothing else changes, escaped characters included |
| EventMessages.PrependKeepsMeaning | Tools/px4events/srcparser.py:60-70 | the text printed stays the same if and only if no reference below the first index is lifted onto a new argument |
| EventMessages.ReferenceIsCaptured | Tools/px4events/srcparser.py:60-70 | a reference one below the first index prints the new argument afterwards |
| EventMessages.Event.PrependArguments | Tools/px4events/srcparser.py:60-70 | the new arguments go in front, and message and description are shifted by their number |
| EventArguments.ParseArguments | Tools/px4events/srcparser.py:310-338 | the loop gives the stripped pieces of its one-pass scan; if no literal ends in an escaped backslash, these are the parts between the commas outside C string literals and brackets |
| EventArguments.StripIsExact | Tools/px4events/srcparser.py:335-337 | what is stripped is white space at both ends, all of it, and nothing else |
| EventArguments.SpacesAreListed | Tools/px4events/srcparser.py:335-337 | white space is the ten ASCII characters that Python takes for it |
| EventArguments.ScannerAgreesIff | Tools/px4events/srcparser.py:325-330 | looking one character back tells string literals and brackets as a C lexer does, at every position, if and only if no literal ends in an escaped backslash |
| EventArguments.PiecesAreLexical | Tools/px4events/srcparser.py:324-338 | under that condition the pieces are those of the lexer |
| EventArguments.EscapedBackslashIsMisread | Tools/px4events/srcparser.py:325-330 | after a literal that holds one backslash, everything up to the next quote stays in that argument, while C has further arguments |
| EventArguments.PiecesJoin | Tools/px4events/srcparser.py:310-338 | the parts joined by commas are the text |
| EventArguments.JoinThenSplit | Tools/px4events/srcparser.py:310-338 | arguments that are well-formed for the lexer and have no such literal, joined by commas, are split into themselves |
| EventArguments.ParseRoundTrip | Tools/px4events/srcparser.py:310-338 | and survive the whole parse if they have no space at their ends |
| RateLimit.SubscriptionInterval.Updated | platforms/common/uORB/SubscriptionInterval.hpp:96-103 | new data counts exactly if it is due: never within the interval after the last update, and always while the last update is ahead of the clock |
| RateLimit.SubscriptionInterval.Copy | platforms/common/uORB/SubscriptionInterval.hpp:124-134 | from the interval on, the last update does not go back, stays within the last interval, and moves by the interval if data was due; before that it ends up ahead of the clock with data due at once |
| RateLimit.SubscriptionInterval.Update | platforms/common/uORB/SubscriptionInterval.hpp:110-117 | copies exactly if updated, with the clock read twice |
| RateLimit.CopyStaysInWindow | platforms/common/uORB/SubscriptionInterval.hpp:129-129 | the last update lies within the last interval if and only if the clock has reached the interval |
| RateLimit.CopyAdvances | platforms/common/uORB/SubscriptionInterval.hpp:124-134 | it never goes back, a gated copy moves it by at least the interval, and by exactly the interval while it keeps up |
| RateLimit.EveryUpdateCosts | platforms/common/uORB/SubscriptionInterval.hpp:96-134 | over every run of updates and plain copies, each update uses up one interval of time |
| RateLimit.RateIsLimited | platforms/common/uORB/SubscriptionInterval.hpp:96-134 | while the last update is not ahead of the clock, k updates from t1 to tk satisfy k <= (tk - t1) / interval + 2, whatever is copied in between |
| RateLimit.BoundIsTight | platforms/common/uORB/SubscriptionInterval.hpp:96-134 | a run that reaches the bound |
| RateLimit.EarlyUpdatesAreNotLimited | platforms/common/uORB/SubscriptionInterval.hpp:124-134 | for every interval and every copy before the clock reaches it, any number of updates can follow at the same instant |
| RateLimit.LimitedIffCopiedLate | platforms/common/uORB/SubscriptionInterval.hpp:129-129 | after a copy, every continuation keeps the bound if and only if the clock had reached the interval |
| RateLimit.EveryStretchIsLimited | platforms/common/uORB/SubscriptionInterval.hpp:96-134 | every stretch of every run that does not begin with an early copy keeps the bound |
| RateLimit.UpdatesAloneAreLimited | platforms/common/uORB/SubscriptionInterval.hpp:110-117 | a fresh subscription used only through update() keeps the bound over every stretch of its life |
| Airtime.StartIsRecognized | Tools/ecl_ekf/analysis/detectors.py:74-78 | the test on the first edges recognizes a start in the air, and nothing else |
| Airtime.FindEdges | Tools/ecl_ekf/analysis/detectors.py:70-89 | take-offs and landings come in equal number, so the assertion holds, and delimit the runs in the air |
| Airtime.RunsAreExact | Tools/ecl_ekf/analysis/detectors.py:70-86 | these runs are maximal, in order and apart, and cover every sample in the air |
| Airtime.DetectAirtime | Tools/ecl_ekf/analysis/detectors.py:59-105 | the intervals of the runs that last the minimum flight time after the margin is taken off both ends |
| Airtime.IntervalsAreOrdered | Tools/ecl_ekf/analysis/detectors.py:91-101 | with non-decreasing timestamps and a non-negative margin no interval reaches into a later one |
| Airtime.DetectionIsExact | Tools/ecl_ekf/analysis/detectors.py:59-105 | a time counts as in the air if and only if it lies, by the margin, inside a maximal run in the air whose timestamps span the minimum flight time and both margins |
| Airtime.GetAirtime | Tools/ecl_ekf/analysis/detectors.py:163-182 | exactly the samples within some interval; strictly increasing indices if data and intervals are in order |
| Airtime.DetectedInOrder | Tools/ecl_ekf/analysis/detectors.py:91-101 | for the detector's own intervals: in order if timestamps are, and apart if the margin is not negative |
| Airtime.AirtimeIsWithinFlight | Tools/ecl_ekf/analysis/detectors.py:139-161 | every sample in the detector's intervals is among those from first take-off to last landing |
| Airtime.WholeFlightIsExact | Tools/ecl_ekf/analysis/detectors.py:139-161 | exactly the samples from the first take-off on and before the last landing |
| Airtime.InAirSamples | Tools/ecl_ekf/analysis/detectors.py:59-182 | from log to indices: exactly the samples inside a long enough maximal run by the margin, strictly increasing, and within the whole flight |

## Left out

- Serial, MAVLink, UDP and file input and output, progress bars, time-outs and sleeps: the packets, the flash and the log are inputs of the models.
- COMMAND_ACK handling and the start and stop commands of the ULog receiver: no state of the re-framer depends on them.
- Senders of the ULog receiver that send empty packets, packets over 249 bytes, or a first packet under 16 bytes: the sender does not. The receiver's exception for the last case is modelled.
- WorkQueue.Enabled: Init and Deinit of an item are synchronized by the caller with all other calls on that item; ScheduleNow and ScheduleClear may overlap each other.
- An Attach that is still waiting for the lock when the destructor runs: the one call that the source does not exclude, and the theorems say so.
- Interrupted semaphore waits and spurious wake-ups; the semaphore is the one of the POSIX platform layer, whose value is negative while a thread waits.
- WorkQueue::Clear, lockstep registration, the critical-section variant on NuttX, print_status, and WorkQueueManager's thread creation.
- Progress under a fair scheduler is stated as a bound on the remaining steps and a characterization of rest, not over infinite runs.
- Getopt.ParseAll: option letters are ASCII, so that the returned int identifies them; argc is at least 1 and words hold no NUL.
- The log history's mutex: write, size and read are atomic; print is not, and other writers come in between its reads.
- Memory lifetime of driver instances: the registry is a sequence of values and a list position, not freed memory. The mutex held by an iterator is why nothing else moves.
- Instances: drivers store the configuration they were started with; the targets of the bus iterators, I2C included, are given as a list in BusInstances, and only the SPI one is enumerated by a model.
- Definitions with unknown dependencies or with cycles: the generator raises an exception for the former and does not end for the latter.
- Builtin message types outside the size map, and genmsg parsing.
- The bootloader: erasing gives 0xff everywhere, PROG_MULTI writes at an advancing address, GET_CRC is the CRC of the whole flash; window mode and revision 2 verification only add easy members.
- The last 2^32 microseconds before the clock wraps: RateIsLimited and its lemmas exclude them, Updated, Copy and Update do not.
- Non-ASCII digits and white space in event texts, and the regular expressions around them; character literals, raw strings, comments and templates in argument lists, which the scanner does not know either.
- Floating point rounding in Airtime: seconds are real numbers.
- Work queue names, module status printing, topic hashes, plotting and EKF reports: easy or without provable content.
