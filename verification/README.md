# p2p-messaging: a verified model

This project models the reliable-messaging stack of p2p-messaging in Dafny and proves what its runs
guarantee. Each part follows one area of the system.

| area | modules |
|---|---|
| bytes and self-delimiting streams | `Bytes`, `PrefixCode`, `Protocol` |
| framed connections, batched and encrypted | `Conn`, `Session`, `Batching` |
| write-ahead log | `Wal`, `Compaction` |
| fragments and reassembly | `Chunker`, `Reassembly` |
| the broker: ring, runs, timing, log agreement, restart | `Floats`, `Slots`, `RetryRing`, `Broker`, `RetryTiming`, `BrokerLog`, `Restart`, `RestartRuns` |
| two brokers, a lossy network and restarts | `Delivery`, `Retransmission`, `Sending`, `Wire`, `ReusedIds` |
| file transfer | `Ranges`, `Transfer`, `Parallel`, `Progress`, `SingleStream` |
| relay and rendezvous | `Matching`, `Rendezvous`, `Bridge` |

Objects that the system updates in place (the ring and its free stack, the log file, the assembler,
the buffered writer, the relay's readers) are classes whose methods and loops are proved against
functions on values. Concurrency is a step system: a state, a step datatype, and theorems over every
sequence of steps. A step that is not enabled either changes nothing or is excluded by a `Legal` or
`Playable` predicate. Runs are finite and of any length.

## Main results

- **Acknowledgement soundness and no silent loss** (`Delivery`): between two brokers that may die and be
  restarted over their logs, and a network that drops, duplicates and reorders, every acknowledgement in
  flight and every slot freed by one is for a message already handed up exactly as sent; every message that
  ever entered a ring is in one, or delivered intact, or reported failed or dead, or was taken by a crash
  before the log could bring it back. A restart may find the log cut at any byte and may use IDs again, as long
  as no frame and no unfinished stream about them is left; each of these conditions has a run that needs it.
- **Every message in the ring can still be delivered** (`Retransmission`): from every reachable state, after
  losing everything in flight both ways, retransmission can deliver the message and get it acknowledged.
- **A Send is enough** (`Sending`, `Wire`): from every reachable state in which the broker can take a message and
  the receiver a fragment of it, the message can be handed up and acknowledged from the frames Send itself writes,
  with no retry and no reconnect. A message that a tidy log holds can be delivered by the next life. Every frame a
  broker writes fits the connection and a session frame, and comes back from both as it was written.
- **Reassembly counts** (`Reassembly`): over any interleaving, a message is handed up at most as often
  as its least-copied fragment, at least once when all fragments arrived, once when each came once.
- **Ring, log and restart** (`Broker`, `BrokerLog`, `Restart`): with any number of Sends under way,
  conservation, one end per message, the log holding exactly the logged part of the ring plus the unlogged
  ends, and a restart, also over a log cut at any byte, that restores exactly what the log holds or blocks.
- **Retry timing** (`RetryTiming`): messages wait out all their times in every run if and only if the last
  doubling stays under 2^63 - 512 nanoseconds, with the rounding of 64-bit floating point.
- **Framing over a session** (`Session`, `Batching`): for every way of cutting the stream into session frames, the
  messages are read back if and only if every header and payload ends with a frame and no frame is over the
  limit; for the buffered writer this is an exact condition on the messages, the batch size and the flushes.
- **Torn writes and compaction** (`Wal`, `Compaction`): a cut at any byte leaves the whole records;
  compaction keeps the meaning in every state the disk passes through.
- **Parallel transfer** (`Parallel`): over every interleaving with any failures, the files saved are a
  prefix of those sent, byte for byte; the integrity check never fails; success follows saving; the
  streams are empty between transfers; the protocol cannot deadlock, every step of it is progress, and from every
  state without a failure it can go on to the end, with every file saved and acknowledged (`Progress`).
- **Transport agreement, matching, bridge transparency** (`Rendezvous`, `Matching`, `Bridge`): two peers with a link
  between them can go direct over it, and without a punch or with a late report both are bridged.

## Where the code does less than promised

Each item names the lemmas or methods below that give the exact condition, and runs that miss it.

- A frame is read back only for payloads up to 16 MiB (`Conn.FrameReadsBackIff`), and over an encrypted
  session only up to 8 MiB less 16 bytes (`Session.UnbatchedReadsBackIff`), although both ends admit 16 MiB.
- Batching over an encrypted session merges frames. With batches larger than a header the messages are read
  back only if none has a payload and a flush comes between every two; with smaller ones only if a flush follows
  every payload shorter than a batch before the next message (`Batching.BatchedReadsBackIff`). io.ReadFull
  hides the short-buffer error, so the loss is silent, and a message can be read with the next frame's bytes as
  its payload (`Session.MergedReadsNext`).
- A log record keeps its payload only under 4 GiB (`Wal.StoredIntactIff`), and nothing appended after a torn
  tail is safe until a compaction (`Wal.AppendReadsBackIff`, `Compaction.CompactThenAppend`).
- A second compaction may still change the file (`Compaction.CompactTwiceIff`), and records written while a
  compaction is under way are lost unless they said nothing new (`Compaction.ConcurrentWritesKeptIff`). The broker
  compacts while it sends: ring and log then agree if and only if that is so (`BrokerLog.SwapLogOkIff`), and a
  Send in between is lost to a restart (`RestartRuns.CompactionLosesSend`).
- After a restart the counter is ahead of every ID used only if nothing was sent or the message with the
  largest ID is still live in the log (`Restart.FreshIff`, `Restart.NextIdFreshIff`). Otherwise an ID is used again, even when a
  compaction has removed every trace of its first use (`RestartRuns.ReusesIdAfterCompaction`). A reused ID can
  fill two slots (`Restart.OpenDistinctIff`, `Restart.SentAckedSentAgain`). An acknowledgement or a frame of the
  first message can settle the second, which is never delivered (`ReusedIds.StaleAckSettlesNewMessage`,
  `ReusedIds.StaleDataSettlesNewMessage`); and a stream that the receiver began for the first, and never
  purges, mixes the two or makes it panic (`ReusedIds.StreamMixesMessages`, `ReusedIds.StreamPanics`).
- A restart on a ring too small for the log never returns, and messages already reported dead come back
  (`Restart.RestartRestores`). So does a message that was retransmitted and acknowledged before its log append
  (`RestartRuns.AckedBeforeAppend`).
- The exponential wait is as designed only while the product stays below 2^63 - 512, where the rounding of
  the base no longer takes it to 2^63 (`Slots.BackoffIsWaitIff`); otherwise some run declares a message dead
  too early (`RetryTiming.OnTimeIff`).
- A reconnect replays the ring from its lowest slot, while slots are handed out from the highest: newest first
  (`RetryRing.ReplayReverses`). A single-stream transfer whose trailer overtakes its data is saved only if what
  came before holds every byte that is not zero, and the last (`SingleStream.SavedIff`,
  `SingleStream.ReplayedTransfer`).
- splitRanges partitions the file only while (n-1)*total fits 63 bits (`Ranges.PartitionIff`).
- A relay wait timeout deletes the session's entry without checking whose it is, and can strand another
  waiter (`Matching.AlwaysFindableIff`, `Matching.TimeoutLosesAnotherWaiter`). A second peer handed over to a
  waiter whose timer fired is neither coordinated nor closed (`Matching.TakenIff`, `Matching.HandedOverTooLate`).
- Validating a punched link does not tell who answers: two Dials end on the same link in every run if and only if
  no link of one client to a stranger differs from one of the other (`Rendezvous.SameLinkIff`,
  `Rendezvous.StrangersSplitTheLink`).
- A report that is late, or beyond the 257-byte cap, is forwarded into the bridged stream
  (`Bridge.FirstPeerForwards`, `Bridge.SecondPeerForwards`). The client may take up to 9 seconds (punch
  and validation) while the relay waits 6. The file comment of cmd/relay says that either PUNCH_OK closes the relay; the
  code requires both, and the model follows the code.

## Assumptions

- Compression is a pair of functions with `decompress(compress(x)) == x`; hashing is any function;
  a session's cipher is a reliable pipe adding a 16-byte tag.
- No message ID is reused while a broker lives (its 64-bit counter does not wrap). A log write that fails
  leaves the file as it was; a crash may cut it anywhere.
- A restart in a run of two brokers is over a log that has been tidy so far: messages fit its records, no
  compaction overwrote something new, and since a restart the log ends with a whole record and mentions no ID
  that is used again.
- A transport that fails stays failed.
- Times are arbitrary integers supplied with each step; no clock is assumed monotone.

## Model

| member | source | states |
|---|---|---|
| `Protocol.DecodeEncode` | pkg/protocol/protocol.go:55-79 | decoding a header finds the header that was encoded |
| `Protocol.EncodeDecode` | pkg/protocol/protocol.go:55-79 | every 20 bytes are the image of the header they decode to |
| `Protocol.EncodeHeader` | pkg/protocol/protocol.go:55-66 | the array filled field by field is the header's image |
| `Protocol.HeaderLayout` | pkg/protocol/protocol.go:55-66 | each field of a header is at its place among the 20 bytes, most significant byte first |
| `PrefixCode.ParseTruncated` | pkg/wal/wal.go:90-108 | cutting the image of any list of self-delimiting items leaves exactly the items wholly before the cut |
| `Conn.FrameReadsBackIff` | pkg/conn/conn.go:127-227 | a frame is read back as its message, whatever follows, if and only if the payload has at most 16777216 bytes |
| `Conn.ReadOutcome` | pkg/conn/conn.go:201-227 | a read of any bytes refuses exactly the lengths over 16777216, gives the message exactly when it is whole, and otherwise the end of the stream |
| `Conn.StampIs` | pkg/conn/conn.go:127-130 | a message is sent as it was given, but for the length field, which is that of its payload |
| `Conn.ReadAllOfPrefix` | pkg/conn/conn.go:201-227 | from any cut of a stream of frames the reader gets exactly the messages wholly inside it, in order |
| `Conn.BufWriter.Write` | pkg/conn/conn.go:148-156 | bytes on the wire plus bytes buffered grow by exactly what is written, in the writes of the specification; after a failure the wire holds a strict prefix |
| `Conn.BufWriter.Flush` | pkg/conn/conn.go:157-159 | a flush moves the buffer to the wire and changes nothing of what was taken |
| `Conn.Conn.WriteBatched` | pkg/conn/conn.go:147-161 | the batching path adds header and payload to wire plus buffer, whatever the batch size |
| `Conn.Conn.WriteThrough` | pkg/conn/conn.go:163-186 | the vectored and the two-write path put the same bytes on the wire |
| `Conn.Conn.WriteMsg` | pkg/conn/conn.go:127-187 | keeps: emitted plus buffered bytes are the unbatched frames of all messages given; after a failure a prefix of them |
| `Conn.Conn.Flush` | pkg/conn/conn.go:90-105 | after an explicit or timer flush the wire holds every frame given |
| `Conn.Conn.Reconnect` | pkg/conn/conn.go:231-253 | the new transport starts on a frame boundary, with nothing of an unfinished frame |
| `Conn.Inbox.ReadFull` | pkg/conn/conn.go:210-212 | reads of any sizes give exactly the bytes asked for, or the stream is exhausted |
| `Conn.Inbox.ReadMsg` | pkg/conn/conn.go:201-227 | one read consumes exactly what its outcome says: message, end of stream or length refused |
| `Conn.WriteAll` | pkg/conn/conn.go:90-198 | for any messages, batch size, flushes and failure point, the wire is a prefix of the unbatched frames; without failure all of them, in exactly the writes the buffer's specification makes |
| `Conn.Converse` | pkg/conn/conn.go:90-227 | reading the wire of any such conversation returns exactly the messages that fit on it, in order |
| `Session.UnbatchedReadsBackIff` | pkg/crypto/handshake.go:160-234 | over a session unbatched messages are read back if and only if each payload with its tag fits the 8 MiB frame guard |
| `Session.FitsIff` | pkg/crypto/handshake.go:214-234 | a payload fits a session frame if and only if it has at most 8388592 bytes |
| `Session.NothingLost` | pkg/crypto/handshake.go:160-234 | reads return at most what the frames hold, and as much only if no frame was refused and every header and payload ended with a frame |
| `Session.ReadsBackIff` | pkg/conn/conn.go:127-227 | for every cut of the stream into session frames, the messages are read back if and only if every frame passes the guard and every header and payload ends with a frame |
| `Session.MergedBatchReadsBackIff` | pkg/conn/conn.go:148-161 | the instance of a batch leaving as one session frame: read back if and only if it is one message without payload |
| `Session.MergedReadsNext` | pkg/crypto/handshake.go:178-195 | a message that leaves as one frame is read without an error, with the beginning of the next frame as its payload; the rest of both is gone |
| `Batching.SpacedEmits` | pkg/conn/conn.go:147-161 | when flushes separate the messages as required, the buffered writer makes exactly the unbatched writes |
| `Batching.UnspacedMisaligns` | pkg/conn/conn.go:147-161 | otherwise some header or payload ends inside a write, for good |
| `Batching.BatchedReadsBackIff` | pkg/conn/conn.go:147-161 | over a session the messages given to the batched writer are read back if and only if each fits a frame and the flushes separate them as the batch size requires |
| `Batching.ConverseOverSession` | pkg/conn/conn.go:127-227 | the same for a whole conversation through the writer's loops and the session's reader, batched or not |
| `Wal.StoredIntactIff` | pkg/wal/wal.go:55-61 | a record is stored unaltered if and only if its payload is under 4 GiB |
| `Wal.RecordLayout` | pkg/wal/wal.go:55-61 | operation, length, ID and payload are at their places in a record |
| `Wal.AppendReadsBackIff` | pkg/wal/wal.go:66-68 | the next record is read back, whatever it is, if and only if the file has no torn tail |
| `Wal.PendingIff` | pkg/wal/wal.go:110-118 | a payload is pending for an ID if and only if the last record about that ID sends it |
| `Wal.EntriesExactly` | pkg/wal/wal.go:79-128 | Replay lists an entry if and only if the last record about its ID is that send, once for each time the log was opened for the ID |
| `Wal.TornWriteRecovery` | pkg/wal/wal.go:90-108 | a file cut at any byte replays exactly the records wholly inside, which are as many as fit |
| `Wal.TornEntries` | pkg/wal/wal.go:103-127 | no entry of a cut file is invented or corrupted |
| `Compaction.BuildRecord` | pkg/wal/wal.go:55-61 | the array filled field by field is the record's image |
| `Compaction.WalFile.WriteRecord` | pkg/wal/wal.go:55-75 | appends exactly the record's image, or nothing when the handle is lost |
| `Compaction.WalFile.ReadRecord` | pkg/wal/wal.go:91-108 | finds the record at a position, or nothing at the end and at a torn record |
| `Compaction.WalFile.Replay` | pkg/wal/wal.go:79-128 | the scanning loops return the entries of the records in the file |
| `Compaction.WalFile.WriteTmp` | pkg/wal/wal.go:138-156 | the temporary file grows by the image of one entry after the other, as sends, and the log stays as it was at every point |
| `Compaction.WalFile.Compact` | pkg/wal/wal.go:132-181 | every state the disk passes through is the old log with a growing temporary file, or the compacted log after the rename; the log means what it meant in each, also after an error at any step |
| `Compaction.CompactKeepsUnacked` | pkg/wal/wal.go:132-181 | the same IDs are unacknowledged with the same payloads after compaction |
| `Compaction.CompactKeepsListIff` | pkg/wal/wal.go:112-127 | Replay lists the same entries in the same order after compaction if and only if it listed no ID twice |
| `Compaction.CompactTwiceIff` | pkg/wal/wal.go:132-181 | a second compaction changes no byte if and only if no ID was listed twice |
| `Compaction.CompactSettles` | pkg/wal/wal.go:132-181 | from the second compaction on, compaction is the identity |
| `Compaction.ListsOnceIff` | pkg/wal/wal.go:112-115 | Replay lists no ID twice if and only if the log was opened once for each unacknowledged ID |
| `Compaction.CompactThenAppend` | pkg/wal/wal.go:144-181 | records appended after a compaction mean what they would after the readable records, even if the tail was torn |
| `Compaction.ConcurrentWritesKeptIff` | pkg/wal/wal.go:132-170 | any records written between snapshot and rename leave the meaning intact if and only if the last one about each ID said nothing new |
| `Chunker.SplitBytes` | pkg/chunker/chunker.go:52-66 | the loop cuts data into the chunks of its specification |
| `Chunker.JoinChunksOf` | pkg/chunker/chunker.go:52-66 | joining the chunks of data gives the data |
| `Chunker.ChunkAt` | pkg/chunker/chunker.go:52-66 | chunk i is the bytes from i times 524288 on, up to 524288 of them |
| `Chunker.SplitIff` | pkg/chunker/chunker.go:20-50 | Split accepts a payload if and only if it is packed into at most 65535 times 524288 bytes |
| `Chunker.SplitInto` | pkg/chunker/chunker.go:20-50 | as many fragments as chunks are needed, each with its slice of the packed payload and every header field, among them priority, flags, index, total and length |
| `Chunker.AddRefuses` | pkg/chunker/chunker.go:101-180 | a fragment is invalid, one stream beyond 1024, or past its table exactly when its header and the table say so, and leaves the table as it was; other streams are never touched |
| `Chunker.AddFinishes` | pkg/chunker/chunker.go:101-138 | a message is finished exactly by its only or its last fragment, with the joined bodies decompressed as the flag says, or reported corrupt |
| `Chunker.AddKeepsTime` | pkg/chunker/chunker.go:152-167 | a stream keeps the time of its first fragment |
| `Chunker.Assembler.JoinChunks` | pkg/chunker/chunker.go:182-192 | the loop joins the fragment bodies in order |
| `Chunker.Assembler.AddFragment` | pkg/chunker/chunker.go:101-138 | the table and the outcome after a fragment are those of its specification, with every error path |
| `Chunker.Assembler.PurgeOlder` | pkg/chunker/chunker.go:141-150 | exactly the streams older than the cutoff are removed |
| `Chunker.PurgeIff` | pkg/chunker/chunker.go:141-150 | a stream stays, unchanged, if and only if its first fragment did not come before the cutoff |
| `Reassembly.JoinedPayload` | pkg/chunker/chunker.go:20-50 | the bodies of all fragments, joined and unpacked, are the payload that was split |
| `Reassembly.AddRefines` | pkg/chunker/chunker.go:101-167 | a genuine fragment never panics, is refused only by a full table, and completes the payload exactly when the held set becomes all |
| `Reassembly.OnlyWhatWasSent` | pkg/chunker/chunker.go:101-150 | over any run with refusals and purges, only payloads that were sent are handed up |
| `Reassembly.LostOnArrival` | pkg/chunker/chunker.go:152-167 | a fragment loses its message if and only if it is the first of several and finds 1024 streams |
| `Reassembly.LostOnPurge` | pkg/chunker/chunker.go:141-150 | a purge loses exactly the messages whose streams are too old |
| `Reassembly.ReassemblyCounts` | pkg/chunker/chunker.go:101-150 | handed up at most as often as the least-copied fragment, at least once when all arrived and none was lost, once when each arrived once |
| `Reassembly.NothingLost` | pkg/chunker/chunker.go:101-167 | with at most 1024 messages and no purge no genuine fragment is ever refused and no stream dropped |
| `Reassembly.ReassembledOnce` | pkg/chunker/chunker.go:101-138 | then every message whose fragments come once each, in any order, is handed up exactly once and as it was sent |
| `Floats.ToFloatFitsIff` | pkg/broker/broker.go:567-570 | a duration converted to 64-bit floating point stays below 2^63 if and only if it is below 2^63 - 512 |
| `Floats.ToFloatScales` | pkg/broker/broker.go:567-570 | rounding the base and multiplying by a power of two is rounding the product |
| `Floats.RoundsOneBit` | pkg/broker/broker.go:567-570 | one bit too many rounds to the nearest, and in the middle to even unless something was dropped before |
| `Floats.RoundsTwoBits` | pkg/broker/broker.go:567-570 | two bits too many round to the nearest multiple of four, and in the middle to even |
| `Slots.BackoffIsWaitIff` | pkg/broker/broker.go:567-575 | the backoff, with the base rounded to 53 bits, is the capped doubling if and only if the product is below 2^63 - 512 or the platform saturates |
| `Slots.BackoffValue` | pkg/broker/broker.go:567-575 | while the product fits, the wait doubles with each retry up to 30 seconds |
| `Slots.NewRingOk` | pkg/broker/broker.go:130-144 | a new ring has every slot on the free stack once |
| `Slots.EnqueueOk` | pkg/broker/broker.go:286-293 | enqueue keeps the allocator invariant and adds exactly the new ID |
| `Slots.EnteredSlot` | pkg/broker/broker.go:286-293 | a message takes the slot on top of the free stack, with all its retries and the time of sending, and no other slot changes |
| `Slots.ReleaseOk` | pkg/broker/broker.go:300-318 | freeSlot keeps the invariant, removes exactly that ID, and changes nothing for an unknown one |
| `Slots.FreedIsNext` | pkg/broker/broker.go:300-318 | an end frees the lowest slot with that ID, which is the next to be taken, and no other slot changes |
| `Slots.TimeoutsOk` | pkg/broker/broker.go:511-548 | checkTimeouts keeps the invariant and removes exactly the IDs that die |
| `Slots.CheckedSlot` | pkg/broker/broker.go:511-548 | what a check does to each slot: it dies and is free after its last wait, is retried with a new send time, or stays as it was |
| `Slots.DyingAreNext` | pkg/broker/broker.go:528-540 | the slots that die in one check are put on the free stack in ring order, on top of what was there |
| `Slots.ReplayOk` | pkg/broker/broker.go:409-423 | replayUnacked keeps the invariant and the set of messages in flight |
| `Slots.RenewedSlot` | pkg/broker/broker.go:409-423 | a reconnect gives every live slot all its retries and a fresh send time, and changes no other |
| `Slots.SlotsAccounted` | pkg/broker/broker.go:130-143 | every slot is free or holds one message |
| `RetryRing.RetryRing.constructor` | pkg/broker/broker.go:130-144 | the new object represents a new ring |
| `RetryRing.RetryRing.Enqueue` | pkg/broker/broker.go:270-296 | pops a free slot and fills it as specified, or reports that none is free |
| `RetryRing.RetryRing.FreeSlot` | pkg/broker/broker.go:300-318 | the scan frees the slot of the ID, returns its send time and logs the acknowledgement exactly when it was active |
| `RetryRing.RetryRing.Decide` | pkg/broker/broker.go:509-526 | the first pass lists one action for each expired slot, in ring order |
| `RetryRing.RetryRing.Apply` | pkg/broker/broker.go:528-548 | the second pass turns ring and free stack into those of the specification; it resends the fragments of exactly the retrying slots and reports the IDs of exactly the dying ones, in ring order |
| `RetryRing.RetryRing.CheckTimeouts` | pkg/broker/broker.go:502-549 | both passes together are the specified aging of the ring and keep its invariant; OnDead gets the ID of every slot that is due with no retry left, and of no other, in ring order |
| `RetryRing.RetryRing.ReplayUnacked` | pkg/broker/broker.go:409-423 | every live slot is renewed; the fragments of exactly the live slots are handed back, in ring order |
| `RetryRing.DeadAreDying` | pkg/broker/broker.go:528-548 | the list of dead IDs is that of the slots that are due with no retry left |
| `RetryRing.ResentAreRetrying` | pkg/broker/broker.go:528-548 | the fragments resent are those of the slots that are due with a retry left |
| `RetryRing.ReplayedAreLiving` | pkg/broker/broker.go:409-423 | the fragments replayed are those of the live slots |
| `RetryRing.ReplayReverses` | pkg/broker/broker.go:130-133 | messages that entered a new ring are replayed newest first |
| `Broker.UnpackPack` | pkg/broker/broker.go:203-217 | a packed log payload is content type, priority and payload in this order, and unpacking gives them back |
| `Broker.UnpackShort` | pkg/broker/broker.go:211-217 | a packed payload under two bytes is taken as text of normal priority |
| `Broker.LogRecords` | pkg/broker/broker.go:203-241 | the log records of a send and of an acknowledgement, byte by byte |
| `Broker.NextLedger` | pkg/broker/broker.go:220-318 | every step keeps: each message that entered is in one slot with its own fragments or has ended once |
| `Broker.LedgerAlways` | pkg/broker/broker.go:220-549 | the ledger holds after every run |
| `Broker.Conservation` | pkg/broker/broker.go:270-318 | entered messages equal active plus acked, nacked, failed and exhausted; slots equal free plus active |
| `Broker.OneEndPerMessage` | pkg/broker/broker.go:433-446 | over every run a message ends at most once, so it gets one OnAck or one exhaustion OnDead and never both |
| `Broker.EndsOf` | pkg/broker/broker.go:246-250 | an acknowledgement, a refusal and a failed write end exactly the message with that ID, for that cause, and leave any other alone |
| `Broker.AppendFails` | pkg/broker/broker.go:234-241 | a failed log append takes the message out of the ring again, as failed |
| `Broker.ReturnedNeverFails` | pkg/broker/broker.go:220-252 | over every run, after Send has returned a success its message is never taken out of the ring as failed |
| `Broker.CountIs` | pkg/broker/broker.go:433-446 | the four counts are the sizes of the sets of messages ended for each cause |
| `Wire.DeadIsReported` | pkg/broker/broker.go:540-562 | the IDs the ring hands to OnDead are those the run records as exhausted |
| `Wire.DeadEndsOnce` | pkg/broker/broker.go:540-562 | in every run each ID a check hands to OnDead is recorded once and has ended neither before nor twice in this check |
| `RetryTiming.DeadOnlyAfterAllRetries` | pkg/broker/broker.go:502-548 | for any tick times a message dies only after exactly MaxRetries resends, and while durations fit no earlier than the sum of all waits |
| `RetryTiming.OnTimeIff` | pkg/broker/broker.go:502-575 | every run keeps the sum of all waits if and only if the last doubling is below 2^63 - 512 or the platform saturates |
| `BrokerLog.LogOkAlways` | pkg/broker/broker.go:220-318 | after every tidy run, with any number of Sends and a compaction under way, the log's unacknowledged entries are the ring's appended messages plus the unlogged ends, as sent, each ID once |
| `BrokerLog.SwapLogOkIff` | pkg/wal/wal.go:132-170 | the rename of a compaction keeps ring and log in agreement if and only if the records written since its snapshot said nothing new |
| `BrokerLog.AsSentAlways` | pkg/broker/broker.go:234-241 | after every run every send in the log, also an acknowledged one, is of a message that was sent, as it was sent |
| `Restart.OpenRestores` | pkg/broker/broker.go:164-185 | over any file of genuine records, torn or not, a new broker blocks if and only if the ring is too small, and otherwise restores exactly the unacknowledged messages, with the counter at their largest ID |
| `Restart.RefusedArePassedOver` | pkg/broker/broker.go:169-182 | an entry that Split refuses takes no slot and does not move the counter: the restart is that over the other entries |
| `Restart.EnteredInOrder` | pkg/broker/broker.go:169-182 | entries take the slots from the highest down, each with its own fragments, all its retries and the time of the restart |
| `Restart.RestartRestores` | pkg/broker/broker.go:147-150 | after any run from an empty log exactly the ring's appended messages and the unlogged ends come back |
| `Restart.TornRestart` | pkg/wal/wal.go:90-108 | after any run and any cut of the log exactly what the records wholly before the cut leave unacknowledged comes back, as sent |
| `Wal.CleanIsImage` | pkg/wal/wal.go:90-108 | a file without a torn tail is the image of its records |
| `Restart.NextLifeAgrees` | pkg/broker/broker.go:180-182 | when the counter is ahead of the log, ring and log agree in the next life too |
| `Restart.OpenDistinctIff` | pkg/broker/broker.go:169-178 | after a restart no two slots share an ID if and only if Replay listed no ID twice |
| `Restart.SentAckedSentAgain` | pkg/wal/wal.go:112-117 | an ID sent, acknowledged and sent again is listed twice |
| `Restart.FreshIff` | pkg/broker/broker.go:164-185 | over any file of genuine records, torn or not and in any life, the counter is ahead of every ID used if and only if the message with the largest is unacknowledged in what is readable |
| `Restart.NextIdFreshIff` | pkg/broker/broker.go:180-182 | after any run and restart the counter is ahead of every ID used if and only if nothing was sent or the message with the largest ID is live in the log |
| `Restart.TornFreshIff` | pkg/wal/wal.go:90-108 | the same after any run and any cut of the log, with the records wholly before the cut |
| `RestartRuns.ReusesIdAfterCompaction` | pkg/broker/broker.go:188-197 | a run after which no larger ID is left in the log and the next ID was used before |
| `RestartRuns.AckedBeforeAppend` | pkg/broker/broker.go:230-241 | a run in which an acknowledged message stays live in the log, because it was retransmitted before its append |
| `RestartRuns.CompactionLosesSend` | pkg/wal/wal.go:132-170 | a run in which a message sent during a compaction is in the ring and unknown to a restart |
| `Delivery.EmitsFragments` | pkg/broker/broker.go:244-250 | whatever a broker puts on the wire is a fragment of a message it sent |
| `Delivery.DataKeeps` | pkg/broker/broker.go:448-467 | receiving data keeps: only genuine messages are handed up and acknowledged |
| `Delivery.AckKeeps` | pkg/broker/broker.go:435-439 | receiving an acknowledgement frees a slot only for a delivered message |
| `Delivery.ReopenKeeps` | pkg/broker/broker.go:130-185 | a restart over any cut of the log keeps both directions, also when it uses IDs again, if no frame and no unfinished stream is about them |
| `Delivery.FreshIsSafe` | pkg/broker/broker.go:180-182 | with fresh IDs no frame and no unfinished stream can be about a reused one |
| `Delivery.ReopenFreshIff` | pkg/broker/broker.go:180-182 | in every life and over every cut, the restart leaves no ID to be used again if and only if the message with the largest is live in what is readable |
| `Delivery.WholeFileCuts` | pkg/broker/broker.go:230-241 | over a whole file a crash takes only messages that were not appended yet |
| `Delivery.SoundAlways` | pkg/broker/broker.go:409-478 | both directions stay sound over every run of two brokers, restarts included |
| `Delivery.AckSoundness` | pkg/broker/broker.go:433-467 | every acknowledgement in flight or consumed, in any life of the sender, is for a message handed up exactly as sent; nothing else is handed up; no panic |
| `Delivery.NoSilentLoss` | pkg/broker/broker.go:220-252 | across restarts every message that entered a ring is in one, delivered intact, ended as failed or exhausted, or was taken by a crash before the log could bring it back |
| `Sending.EnterWrites` | pkg/broker/broker.go:220-252 | without a log, Send writes exactly the fragments of its message |
| `Sending.AppendWrites` | pkg/broker/broker.go:234-252 | with a log it writes exactly them, after the append and only if it succeeds |
| `Sending.TickWrites` | pkg/broker/broker.go:511-558 | a check writes exactly the fragments of the slots that are due with a retry left |
| `Sending.ReconnectWrites` | pkg/broker/broker.go:409-430 | a reconnect writes exactly the fragments of the live slots |
| `Sending.DataTaken` | pkg/broker/broker.go:448-467 | a data frame that completes a message hands it up and acknowledges it, and any other data frame does neither |
| `Sending.ControlTaken` | pkg/broker/broker.go:433-446 | an acknowledgement or a refusal ends exactly the message with its ID, for its cause |
| `Sending.PingPong` | pkg/broker/broker.go:469-478 | a ping is answered with a pong of its ID, and other frames change nothing |
| `Sending.SendDelivers` | pkg/broker/broker.go:220-252 | from every reachable state in which the broker can take a message and the receiver a fragment of it, the message can be sent, handed up as sent and acknowledged with no retry and no reconnect, with or without a log |
| `Sending.CutIsHonest` | pkg/broker/broker.go:164-185 | only a restart counts messages as taken by a crash, and only those in the ring that did not come back |
| `Sending.RestartForgets` | pkg/broker/broker.go:130-150 | a restart begins with an empty fragment table and what the log holds; what was written and handed up stays |
| `Sending.WholeReopens` | pkg/broker/broker.go:164-185 | over the whole of a tidy log with the largest ID live, a restart is possible, brings exactly the live messages back and keeps the log tidy |
| `Sending.DeliveredAfterRestart` | pkg/broker/broker.go:164-185 | after such a restart, with everything in flight lost, a message of the log can be handed up and acknowledged in the new life |
| `Wire.FragmentsTravel` | pkg/broker/broker.go:244-251 | whatever a message is split into is read back as it was written, from a plain connection and from a session |
| `Wire.NetTravels` | pkg/conn/conn.go:127-227 | in every reachable state any frames the brokers have written travel whole, in any order |
| `ReusedIds.StaleAckSettlesNewMessage` | pkg/broker/broker.go:460-467 | a run in which a restart reuses an ID and an old acknowledgement settles a message that is never delivered |
| `ReusedIds.StaleDataSettlesNewMessage` | pkg/broker/broker.go:448-467 | a run in which an old frame is handed up and its acknowledgement settles the new message |
| `ReusedIds.StreamMixesMessages` | pkg/chunker/chunker.go:101-138 | a run, with nothing in flight at the restart, in which an unfinished stream completes with halves of two messages |
| `ReusedIds.StreamPanics` | pkg/chunker/chunker.go:101-138 | such a run in which the receiver indexes past its fragment table |
| `Retransmission.ResendsWhole` | pkg/broker/broker.go:425-429 | a reconnect or a retry writes every fragment of the message again |
| `Retransmission.EmitsWhatTheRingResends` | pkg/broker/broker.go:541-558 | the step system writes exactly the fragments the ring's check hands over |
| `Retransmission.CanStillBeDelivered` | pkg/broker/broker.go:409-430 | from every reachable state, with every frame in flight lost both ways, a message in the ring can be delivered and acknowledged, given that the receiver can take a fragment of it |
| `Ranges.SplitRanges` | pkg/transfer/parallel.go:32-43 | the loop fills the ranges of the specification, in wrapping 64-bit arithmetic |
| `Ranges.PartitionIff` | pkg/transfer/parallel.go:32-43 | the ranges are a balanced contiguous partition if and only if (n-1)*total fits 63 bits |
| `Transfer.DecodeEncoded` | pkg/transfer/transfer.go:81-94 | decoding a chunk gives offset and data back |
| `Transfer.ChunkLayout` | pkg/transfer/transfer.go:81-86 | the image of a chunk is eight bytes of offset, most significant first, then the data |
| `Transfer.DecodeIff` | pkg/transfer/transfer.go:88-94 | a message is a chunk if and only if it has eight bytes, and its offset is negative if and only if the first byte is 128 or more |
| `Transfer.BuildChunk` | pkg/transfer/transfer.go:81-86 | the buffer filled in place is the chunk's image |
| `Parallel.SendRange` | pkg/transfer/parallel.go:80-102 | one goroutine sends the pieces of its range in order and then EOS |
| `Parallel.PiecesTile` | pkg/transfer/parallel.go:83-96 | the pieces tile the range with chunks of at most ChunkSize, no gap, no overlap, no byte altered |
| `Parallel.PieceAt` | pkg/transfer/parallel.go:83-96 | piece i starts i times 524288 after its range and is 524288 bytes long, or ends with the range |
| `Parallel.NextInv` | pkg/transfer/parallel.go:66-252 | every step of sender or receiver keeps what is between them in order |
| `Parallel.FileComplete` | pkg/transfer/parallel.go:223-245 | when all readers are done, the file, the trailer and the empty streams are right |
| `Parallel.TransferCorrect` | pkg/transfer/parallel.go:76-252 | over every interleaving with any failures, saved files are a prefix of those sent, the check never fails, success follows saving |
| `Parallel.SavedIffIntact` | pkg/transfer/parallel.go:223-252 | in any state, reachable or not, a file is saved and acknowledged if and only if its hash and length are those of the trailer; otherwise the receiver stops |
| `Parallel.StopsAtNonsense` | pkg/transfer/parallel.go:145-215 | the receiver stops at a first message that is no header and at a chunk that cannot be written |
| `Parallel.QuietBetweenTransfers` | cmd/p2p/bench.go:312-324 | when the sender is idle every stream is empty both ways and the receiver is ready |
| `Parallel.NoDeadlock` | pkg/transfer/parallel.go:104-137 | without failure some protocol step is possible until every file is saved and acknowledged |
| `Progress.StepCloser` | pkg/transfer/parallel.go:66-252 | every step of the protocol brings a transfer closer to its end in a well-founded order |
| `Progress.Completes` | pkg/transfer/parallel.go:66-252 | from every reachable state without a failure the protocol can go on until every file is saved, byte for byte, and acknowledged |
| `SingleStream.Send` | pkg/transfer/send.go:66-98 | for reads of any sizes, the header, the chunks of the reads and the trailer of the whole file are sent |
| `SingleStream.Receive` | pkg/transfer/receive.go:21-88 | the loop's verdict is that of its specification, with every rejection |
| `SingleStream.Rejections` | pkg/transfer/receive.go:21-88 | rejected without a header first, without a trailer, or with a chunk before the trailer that is short or has a negative offset |
| `SingleStream.SavedIsAnnounced` | pkg/transfer/receive.go:80-88 | success is reported only for a file whose hash and length the first trailer announced, and nothing after it matters |
| `SingleStream.SavedIff` | pkg/transfer/receive.go:42-88 | whatever chunks come before the first trailer, exactly the file is saved if and only if they hold every byte that is not zero, and the last |
| `SingleStream.ReceiveRebuilds` | pkg/transfer/receive.go:42-88 | chunks in any order and multiplicity, each at least once, then the trailer: exactly the file is saved |
| `SingleStream.ReplayedTransfer` | pkg/transfer/receive.go:66-88 | replayed newest first a transfer is saved only if it is empty, and rejected if the header is replayed as well |
| `Matching.PairsAreMatching` | cmd/relay/main.go:160-185 | over every interleaving pairs join two different connections of one session and are disjoint |
| `Matching.ArrivalPairs` | cmd/relay/main.go:160-184 | a connection is paired with the waiter of its session if the table has one, and waits otherwise; other sessions are not touched |
| `Matching.HandOverNeverBlocks` | cmd/relay/main.go:180-184 | the second peer's send to the one-place channel never blocks |
| `Matching.ExpireKeepsFindableIff` | cmd/relay/main.go:170-173 | a timeout leaves every waiter findable if and only if the table does not hold another's entry |
| `Matching.OthersKeepFindable` | cmd/relay/main.go:160-184 | every other step leaves every waiter findable |
| `Matching.AlwaysFindableIff` | cmd/relay/main.go:160-184 | over whole runs every waiter stays findable if and only if every timeout deletes its own entry or none |
| `Matching.TimeoutLosesAnotherWaiter` | cmd/relay/main.go:167-176 | a run in which a timeout strands another waiter |
| `Matching.TakenIff` | cmd/relay/main.go:167-184 | a second peer can still be coordinated if and only if the first peer's timer has not fired |
| `Matching.HandedOverTooLate` | cmd/relay/main.go:167-184 | a run in which a second peer is handed over and never coordinated or closed |
| `Rendezvous.NextInv` | cmd/relay/main.go:215-262 | every step of clients and relay keeps reports, decision and results consistent |
| `Rendezvous.AlwaysInOrder` | pkg/rendezvous/rendezvous.go:111-185 | in every run each client writes, validates, reports and takes the decision in this order, and no decision comes before both reports or their timeouts |
| `Rendezvous.TransportAgreement` | pkg/rendezvous/rendezvous.go:111-175 | both Dials that succeed are both direct or both bridged; direct ones are the ends of one joining link if and only if either is on a joining link |
| `Rendezvous.SameLinkInClosedWorld` | pkg/rendezvous/rendezvous.go:111-175 | when every link that can be punched joins the clients, both always get the same result |
| `Rendezvous.SameLinkIff` | pkg/rendezvous/rendezvous.go:158-175 | over any links that the two clients can reach, both get the same result in every run if and only if no link of one to a stranger differs from one of the other |
| `Rendezvous.OneSidedStrangers` | pkg/rendezvous/rendezvous.go:111-175 | strangers around one client only do no harm |
| `Rendezvous.StrangersSplitTheLink` | pkg/rendezvous/rendezvous.go:158-175 | a run in which both end direct on different links |
| `Rendezvous.DirectHasConnection` | pkg/rendezvous/rendezvous.go:138-141 | no client ends direct without a connection |
| `Rendezvous.GenuinePeersGoDirect` | pkg/rendezvous/rendezvous.go:111-175 | on any link that joins them, two clients that validate and report in time both end direct on that link |
| `Rendezvous.WithoutPunchBridged` | pkg/rendezvous/rendezvous.go:111-141 | when one client picks no link, both end on the bridge, whatever the other picked |
| `Rendezvous.LateReportBridged` | cmd/relay/main.go:215-262 | when the report of either comes too late both end on the bridge, whatever the link |
| `Bridge.Reader.ReadLine` | cmd/relay/main.go:222-227 | reads of any sizes give the first line within cap and deadline and leave the rest, buffered or not |
| `Bridge.Reader.ReadRest` | cmd/relay/main.go:264-285 | copying gives everything left, buffered bytes first, up to the cap |
| `Bridge.FirstPeerForwards` | cmd/relay/main.go:117-137 | exactly the first peer's data is forwarded if and only if its control lines fit the cap and came in time |
| `Bridge.SecondPeerForwards` | cmd/relay/main.go:229-231 | exactly the second peer's data is forwarded if and only if its report came in time |
| `Bridge.ClientReads` | pkg/rendezvous/rendezvous.go:142-185 | a client gets every byte after BRIDGE, across its buffered reader |
| `Bridge.Admits` | cmd/relay/main.go:117-137 | the relay goes on with a peer if and only if its first two lines fit the cap |
| `Bridge.Bridged` | cmd/relay/main.go:117-285 | two peers are bridged if and only if the first two lines of each fit the cap; each then reads exactly what the other wrote after its report, under exactly the stated conditions |

## Left out

- Noise handshakes, key storage and zstd: foreign libraries; only a reliable pipe and a round trip are kept.
- Hole punching, sockets, TLS and deadlines in real time: the choice of a link and every timeout are arbitrary steps.
- Tar archives, file names, modes, rename and overwrite prompts: file-system plumbing.
- JSON: headers, trailers and control messages are datatypes.
- Command line, chat, progress, benchmarks, formatting, code phrases, installers: user interface.
- Stream negotiation in cmd/p2p/streams.go: it would only add a minimum of two counts; the transfer assumes that both ends use the same streams.
- Broker defaults for settings that are not positive (pkg/broker/broker.go:108-119): the model takes the settings as they then are.
- Waiting for a free slot, Close and goroutine lifetimes: scheduler-dependent; a full ring is a step that is not enabled.
- The wait for DONE of the single-stream Send: the handshake is modelled for the parallel transfer only.
- A write deadline that cuts a frame short on a connection that is then used again: a transport that fails stays failed.
- A log append that fails half-way: a failed write leaves the file as it was; `Wal.AppendReadsBackIff` shows what a torn tail would do.
