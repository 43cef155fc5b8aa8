# Proofs for the hot-upgrade server, the storage-engine listings and the systems exercises

This project models, in Dafny, the stateful algorithms of the repository and proves what they promise
over whole runs:

- the **hot-upgrade echo server**: a framing state machine over partial reads and writes, and the
  handover of the listening socket and of every session to a second process;
- the **bounded buffer** `sbuf`, for any number of threads and every interleaving;
- the **LevelDB listings**: merging and user iterators, the drop rule of compaction, block prefix
  compression, memtable encoding and lookup, write batches, and the group-commit writer queue;
- the **Redis dictionary** with incremental rehashing;
- **robust I/O** and the **select-based client pool**.

Code that changes state is a class or a method with loops, proved against functions on values. Protocols
whose steps interleave (the upgrade, the bounded buffer, the writer queue) are step systems; their
theorems quantify over every run. System calls are adversarial: they may transfer any part of what is
asked for, be interrupted finitely often, or fail.

## Where to start

| file | main results |
|---|---|
| `UpgradeTheorems.dfy` | `UpgradeInvisible`, `SeamlessHandoff`, `RepliesAreFrames`, `NobodyIsDropped` |
| `UpgradeProgress.dfy` | `EveryClientAnswerable`, `UpgradeCompletes` |
| `ControlChannel.dfy` | `Transfer`, `DispatchedAsSent` |
| `SbufTheorems.dfy` | `FifoExactly`, `OperationsComplete` |
| `Store.dfy` | `ScanStore`, `ScanAroundCompaction` |
| `DbIter.dfy`, `Merging.dfy`, `Compaction.dfy` | `Apply`, `Merge`, `CompactionPreservesReads` |
| `WriteQueueTheorems.dfy` | `ServedOnce`, `AcknowledgedIsStored`, `WorkDecides`, `WritersComplete` |
| `CommitReads.dfy` | `ReadsSeeAcknowledged`, `ReplayAndRead` |
| `Block.dfy`, `Memtable.dfy`, `Batches.dfy` | `RestartRoundTrip`, `MemTable.Get`, `BatchSeenAfter` |
| `Dict.dfy` | `Replay`, `Dictionary.Rehash` |
| `Rio.dfy`, `ClientPool.dfy` | `PerformAll`, `Pool.Turn` |

## Where the code and its description differ

- The answer to exercise 12.9 A says that one producer and one consumer with more than one slot need the
  mutex (`csapp/concurrent_program/concurrent_program_practice.cc:106`). `SbufTheorems.FifoExactly` shows that
  first-in first-out order does not: with one producer and one consumer the index updates cannot overlap.
  Its loads and stores are sequentially consistent; the C language gives no such promise for plain accesses.
- The send loop of a control message restarts at the beginning of the buffer after a partial send
  (`hot_upgrade_demo/unix_client.cc:118-129`). `ControlChannel.DispatchedAsSent` proves that the receiver finds the
  type that was sent if and only if the first accepted send took all four bytes of it, and
  `ControlChannel.PartialFirstSendIsLost` gives a run where the sender reports success and the session is lost.
  In `ControlChannel.OverrunIsDelivered` the sender reports an error and the session has arrived.
- `add_client` takes a slot for free when it is negative, so it stores descriptor 0, and `check_clients` asks for a
  positive descriptor, so it never services it (`csapp/concurrent_program/echoservers.cc:60-93`).
  `ClientPool.Pool.Turn` states the exact condition under which all ready clients are serviced.
- `rio_readlineb` returns the number of stored bytes only when the line ends in a newline, and one more
  otherwise (`csapp/system_io/rio.cc:79-101`). `Rio.Reader.ReadLineB` states the returned value in every case.
- A failed log write still uses up the sequence numbers of its group
  (`markdown/leveldb-write-data-process.md:100-132`); `WriteQueueTheorems.RangesAreAdjacent` counts them.
- `MemTable::Add` and `dictRehash` carry assertions; the buffer is proved to be filled exactly, and the
  scan to stay inside the table, so neither can fail.

## Model

| member | source | states |
|---|---|---|
| `Coding.FixedRoundTrip` | markdown/leveldb-memtable.md:153 | A fixed-width little-endian integer is read back as written when it fits its width. |
| `Coding.VarintRoundTrip` | markdown/leveldb-memtable.md:107-133 | A variable-length integer is read back, with the bytes that follow it, for every number. |
| `Coding.VarintFormat` | markdown/leveldb-memtable.md:107-133 | The bytes carry the seven-bit digits of the number, lowest first and no more than needed, with the high bit set on all but the last. |
| `Coding.VarintAtMostFive` | markdown/leveldb-memtable.md:92-101 | A 32-bit number takes at most five bytes. |
| `Frames.RequestLenIs` | hot_upgrade_demo/inet_conn.cc:51-52 | The four header bytes are the length as a signed 32-bit little-endian integer. |
| `Frames.FrameKinds` | hot_upgrade_demo/inet_conn.cc:46-73 | Every stream begins with a whole frame, a rejected header, or a part of a frame, and with only one of these. |
| `Frames.DecodeExtend` | hot_upgrade_demo/inet_conn.cc:30-77 | Decoding frames is incremental: cutting the stream anywhere and decoding the undecoded remainder with what follows gives the same frames and the same remainder. |
| `Frames.DecodeOneFrame` | hot_upgrade_demo/inet_conn.cc:71-76 | Exactly one whole frame decodes to its payload and leaves nothing. |
| `Frames.DecodeRequest` | hot_upgrade_demo/client.cc:18-25 | What clients send for payloads within the size limit decodes to exactly those payloads. |
| `Frames.DeadStream` | hot_upgrade_demo/inet_conn.cc:54-66 | After a header the server rejects no later byte adds a frame. |
| `Frames.EchoMonotone` | hot_upgrade_demo/inet_conn.cc:30-77 | What a longer stream decodes to extends what its prefix decodes to. |
| `Echo.FreshEchoes` | hot_upgrade_demo/inet_conn.cc:8-12 | A new connection satisfies the echo invariant. |
| `Echo.EchoesFaithful` | hot_upgrade_demo/inet_conn.cc:79-96 | Under the invariant what was sent is a prefix of the payloads read, and all of them while waiting for input. |
| `Echo.FaithfulToArrived` | hot_upgrade_demo/inet_conn.cc:79-96 | The same holds against everything the client has sent. |
| `Echo.ReadsKeepEcho` | hot_upgrade_demo/inet_conn.cc:30-77 | Any wake-up of the reader keeps the echo invariant, entering write mode exactly on a whole frame; when it gives the session up what was sent stays a faithful prefix and there is a cause: a broken connection, a rejected header, or the end of a stream whose requests are all answered. |
| `Echo.ReadsDecode` | hot_upgrade_demo/inet_conn.cc:71-76 | A wake-up that ends with `kReadAll` adds exactly its reply, as one frame, to what the stream decodes to; every other wake-up adds none. |
| `Echo.WritesKeepEcho` | hot_upgrade_demo/inet_conn.cc:79-96 | Any wake-up of the writer, with any partial write, keeps the invariant and returns to read mode only with the reply sent whole. |
| `InetConnection.Socket.Read` | hot_upgrade_demo/inet_conn.cc:33 | `read`: any part of the unread bytes, nothing for now, zero only at the end of a stream the client has closed, an error only on a broken one; refused when the count is negative as a signed size, zero for a zero count. |
| `InetConnection.Socket.Write` | hot_upgrade_demo/inet_conn.cc:80 | `write`: any prefix of the data is accepted, nothing for now, or an error on a broken connection. |
| `InetConnection.InetConn.constructor` | hot_upgrade_demo/inet_conn.cc:8-12 | Empty buffers, valid state. |
| `InetConnection.InetConn.EmptyReadBuf` | hot_upgrade_demo/inet_conn.cc:22-24 | True exactly when nothing of a request has been read. |
| `InetConnection.InetConn.GetRequest` | hot_upgrade_demo/inet_conn.cc:30-77 | Whatever `read` does, one call is a read step of the value model: it never takes a byte of the next frame nor leaves the buffer, on `kReadAll` the reply is the payload, and the status is the one that the header and the last `read` call for. |
| `InetConnection.InetConn.ReadPayload` | hot_upgrade_demo/inet_conn.cc:51-76 | The second half of the call, for every signed length, with the unsigned size arithmetic and the exact status. |
| `InetConnection.InetConn.SendReply` | hot_upgrade_demo/inet_conn.cc:79-96 | One call is a write step: the next part of the reply in order, cleared only when all of it was accepted; an error exactly when `write` failed for good. |
| `InetConnection.ReadsCompose` | hot_upgrade_demo/inet_conn.cc:32-69 | Reading the header and then on is one longer read step. |
| `ControlChannel.UnixSocket.SendMsg` | hot_upgrade_demo/unix_client.cc:120 | `sendmsg` of the whole buffer: a non-empty prefix is accepted, and each accepted call passes a further copy of the descriptor. |
| `ControlChannel.UnixSocket.RecvMsg` | hot_upgrade_demo/unix_conn.cc:44 | `recvmsg`: any non-empty part of what is in flight. |
| `ControlChannel.FillMessage` | hot_upgrade_demo/unix_client.cc:97-100 | The buffer is the type, the length and the data, padded with zeros. |
| `ControlChannel.SendLoop` | hot_upgrade_demo/unix_client.cc:118-129 | For every behaviour of the kernel: the bytes in flight are prefixes of the message one after the other, of the accepted sizes, with one copy of the descriptor each. |
| `ControlChannel.SendsWhenAble` | hot_upgrade_demo/unix_client.cc:118-129 | Without a failing call, interruptions and short sends do not stop the loop before a message's worth is on its way. |
| `ControlChannel.SendTransfer` | hot_upgrade_demo/unix_client.cc:89-135 | The transfer reports success, and waits for one reply, exactly when the accepted sizes add up to the message size, whatever the reply comes to. |
| `ControlChannel.UnixClient.TransferListenFd` | hot_upgrade_demo/unix_client.cc:41-87 | The listener's message goes out so. |
| `ControlChannel.UnixClient.TransferSessionFd` | hot_upgrade_demo/unix_client.cc:89-135 | The session's message goes out so. |
| `ControlChannel.GetReply` | hot_upgrade_demo/unix_client.cc:22-39 | The sender makes one `recvmsg` and is content with any outcome. |
| `ControlChannel.ProcessRecv` | hot_upgrade_demo/unix_conn.cc:27-75 | For any bytes in flight and however `recvmsg` cuts them up, the receiver dispatches on the first four bytes, with the descriptor, if and only if a message's worth arrives before a call fails or the stream ends. |
| `ControlChannel.CompletedWhenEnough` | hot_upgrade_demo/unix_conn.cc:41-59 | That never happens with too few bytes in flight; with enough and no failing call, interruptions and short reads do not prevent it. |
| `ControlChannel.DispatchedAsSent` | hot_upgrade_demo/unix_conn.cc:61-73 | When a message's worth is in flight the receiver finds the type that was sent if and only if the first accepted send took all four bytes of it; otherwise it reports a parse error. |
| `ControlChannel.WholeMessagesAreDispatched` | hot_upgrade_demo/unix_client.cc:45-52 | The two messages carry the types 1 and 3, and whole they are dispatched as listener and session. |
| `ControlChannel.PartialFirstSendIsLost` | hot_upgrade_demo/unix_client.cc:118-134 | A run where one byte and then 1023 are accepted: the sender succeeds with either message and the receiver cannot parse it. |
| `ControlChannel.OverrunIsDelivered` | hot_upgrade_demo/unix_client.cc:118-132 | A run where twice 1000 bytes are accepted: the sender reports an error and the receiver has the session. |
| `ControlChannel.Transfer` | hot_upgrade_demo/unix_client.cc:89-135 | A transfer from end to end, for every behaviour of the kernel on both ends: what the sender reports, whether the receiver gets anything, and that it gets the type sent if and only if the first accepted send took it whole. |
| `ControlChannel.IntactExactly` | hot_upgrade_demo/unix_client.cc:118-129 | A message whose first byte occurs once arrives byte for byte if and only if the first accepted send took all of it. |
| `ControlChannel.TransfersHaveUniqueHeads` | hot_upgrade_demo/unix_client.cc:41-100 | In both messages the client sends, the first byte occurs once. |
| `Server.EventLoop.Attach` | hot_upgrade_demo/server.cc:161-164 | An accepted or received descriptor gets a fresh connection in read mode; all others stay as they are. |
| `Server.EventLoop.HandleNetEvent` | hot_upgrade_demo/server.cc:53-90 | The handler does to the session what its event allows; on input at a request boundary while upgrading, and only then, it sends the descriptor over the control channel, and closes the session whether or not that succeeds. |
| `Server.EventLoop.OnReadable` | hot_upgrade_demo/server.cc:74-80 | The input branch: one call of the reader, then write mode, read mode or closing by its status. |
| `Server.EventLoop.OnWritable` | hot_upgrade_demo/server.cc:81-88 | The output branch: one call of the writer, then read mode, write mode or closing by its status. |
| `Server.EventLoop.ServeOne` | hot_upgrade_demo/server.cc:53-90 | Handling one session leaves every other session and stream alone. |
| `Server.EventLoop.Dispatch` | hot_upgrade_demo/server.cc:183-194 | The main loop's handling of a session event: closed sessions leave the map, unknown descriptors are closed, the invariant of all sessions is kept. |
| `Server.EventLoop.Forget` | hot_upgrade_demo/server.cc:186-192 | Erasing a session restores the invariant of all others, which stay as they are. |
| `Server.ClosesForCause` | hot_upgrade_demo/server.cc:53-90 | An event closes its session only on an error event, a hand-off, a broken connection, the end of a closed stream or a rejected header. |
| `HotUpgrade.SingleReadable` | hot_upgrade_demo/server.cc:74-80 | A read event keeps the invariant of the server that is never upgraded. |
| `HotUpgrade.SingleWritable` | hot_upgrade_demo/server.cc:81-88 | A write event keeps it. |
| `HotUpgrade.SessionAccepted` | hot_upgrade_demo/server.cc:154-165 | Accepting a session keeps it. |
| `HotUpgrade.SessionClosed` | hot_upgrade_demo/server.cc:185-193 | Closing a session for a cause keeps it; the client's stream stays a faithful echo. |
| `HotUpgrade.SingleInvKept` | hot_upgrade_demo/server.cc:123-196 | Every step of a server that is never upgraded keeps its invariant. |
| `HotUpgrade.InitHolds` | hot_upgrade_demo/server.cc:106-121 | The two processes start in the invariant, as one fresh server. |
| `HotUpgrade.UpgradeStepInvisible` | hot_upgrade_demo/server.cc:125-143 | Trigger, handover, receipt and resumption change nothing a client can see. |
| `HotUpgrade.HandoffClean` | hot_upgrade_demo/server.cc:64-72 | A session is sent away only with nothing half-read and no reply half-sent. |
| `HotUpgrade.ServiceStepRefines` | hot_upgrade_demo/server.cc:152-195 | Every other step of either process is the same step of the never-upgraded server. |
| `HotUpgrade.ReadableRefines` | hot_upgrade_demo/server.cc:74-80 | The refinement for input events, whichever process owns the session. |
| `HotUpgrade.WritableRefines` | hot_upgrade_demo/server.cc:81-88 | The refinement for output events. |
| `HotUpgrade.UpgradeKeepsProtocol` | hot_upgrade_demo/unix_conn.cc:103-130 | The exchange of descriptors keeps its invariant: at most one message in flight, the sender blocked on it, one reply owed. |
| `HotUpgrade.ServiceKeepsProtocol` | hot_upgrade_demo/server.cc:152-195 | Ordinary events leave the exchange alone. |
| `HotUpgrade.SystemInvKept` | hot_upgrade_demo/server.cc:123-196 | Every step of the two processes, the kernel and the clients keeps the whole invariant. |
| `UpgradeTheorems.RunInv` | hot_upgrade_demo/server.cc:123-196 | The invariant holds at every moment of every run. |
| `UpgradeTheorems.UpgradeInvisible` | hot_upgrade_demo/server.cc:53-195 | Leaving the upgrade steps out of any run gives a run of a server that is never upgraded, with the same accept queue, streams and closed sessions. |
| `UpgradeTheorems.SeamlessHandoff` | hot_upgrade_demo/server.cc:53-90 | In every run the client has received a prefix of the echo of its frames, and exactly the echo of what was read whenever the owner waits for input. |
| `UpgradeTheorems.RepliesAreFrames` | hot_upgrade_demo/inet_conn.cc:30-77 | In every run the replies prepared for a session, in order and by whichever process, are exactly the frames of what was read from it. |
| `UpgradeTheorems.AllRequestsAnswered` | hot_upgrade_demo/server.cc:53-90 | When whole requests were sent, all were read and the owner waits for input again, the client has received exactly their payloads, whichever process answered which. |
| `UpgradeTheorems.ClosedForCause` | hot_upgrade_demo/server.cc:183-193 | In every run a closed session is one whose connection broke, whose client sent a rejected header, or whose client closed its end and had all its requests read and answered. |
| `UpgradeTheorems.NobodyIsDropped` | hot_upgrade_demo/server.cc:53-90 | A client that sends well-formed requests, whole or in part, over a connection that holds is never dropped, however often it is moved. |
| `UpgradeTheorems.FinishedIsAnswered` | hot_upgrade_demo/server.cc:53-90 | A client that closes its end after well-formed requests is closed only with all of them answered. |
| `UpgradeTheorems.Ownership` | hot_upgrade_demo/server.cc:125-143 | At every moment a session that is neither queued nor closed is open in some process, at most one process can act on it, the listening socket is open somewhere, and only one process can accept. |
| `UpgradeTheorems.InFlightSessionsAreQuiet` | hot_upgrade_demo/unix_client.cc:118-134 | While a descriptor is on the wire its session is at a request boundary with everything owed sent, and neither process can touch it. |
| `UpgradeTheorems.StreamsOnlyGrow` | hot_upgrade_demo/server.cc:53-195 | Over any stretch of a run nothing sent or received is taken back. |
| `UpgradeTheorems.SenderUnblocks` | hot_upgrade_demo/unix_client.cc:133 | From every state of the invariant with a blocked sender there are at most two steps after which it runs again, having let go of exactly what it sent; no client can tell. |
| `UpgradeTheorems.ServedEventIsStep` | hot_upgrade_demo/server.cc:53-90 | What the event-loop code does with an event it serves itself is a step of the step system. |
| `UpgradeTheorems.HandsOffIsSteps` | hot_upgrade_demo/server.cc:64-72 | An event on which it hands the session off is the steps of sending, receiving and letting go: the session moves with a fresh connection, its stream untouched. |
| `UpgradeProgress.RequestsAnswerable` | hot_upgrade_demo/server.cc:53-90 | From every state of the invariant the servers can, by themselves, answer every whole request of an open session, which stays open, with the others untouched; and if its client is between requests during an upgrade the session moves. |
| `UpgradeProgress.UpgradeBegins` | hot_upgrade_demo/server.cc:125-135 | The upgrade can begin in every state of the invariant, and no client can tell. |
| `UpgradeProgress.UpgradeCompletes` | hot_upgrade_demo/server.cc:125-143 | From every state where the upgrade has begun and no client is in the middle of a request, the servers can by themselves empty the retiring process: every session open in the successor, which listens, and every request answered. |
| `UpgradeProgress.QueuedIsAccepted` | hot_upgrade_demo/server.cc:152-165 | A session in the accept queue can be accepted, by whichever process listens then. |
| `UpgradeProgress.EveryClientAnswerable` | hot_upgrade_demo/server.cc:123-196 | From every moment of every run, every client whose session has not been closed can be given the echo of all it has sent whole. |
| `UpgradeProgress.ClientsAreFree` | hot_upgrade_demo/server.cc:145-165 | At any time a client can connect, send anything or be cut off, and the invariant is kept. |
| `Keys.LessIsStrictTotalOrder` | markdown/leveldb-memtable.md:30-52 | The bytewise order of user keys is irreflexive, transitive and total. |
| `Keys.LessIsLexicographic` | markdown/leveldb-memtable.md:9 | A key is before another exactly when, at the first place where they differ, it has the smaller byte or ends. |
| `Lsm.Newest` | markdown/leveldb-memtable.md:294 | The newest version at or below the snapshot: visible, of maximal sequence, and absent only if no version is visible. |
| `Lsm.DecidesIsNewest` | markdown/leveldb-iterator.md:144-164 | In sorted entries the first version of a key at or below the snapshot is the newest visible one. |
| `Lsm.ReadIsLive` | markdown/leveldb-iterator.md:105-107 | A read returns a value exactly when a live entry of the key holds it. |
| `Lsm.ViewIsAscendingReads` | markdown/leveldb-iterator.md:105-107 | The list of live pairs is in ascending key order, each key once, and holds a pair exactly when a read returns it. |
| `DbIter.DbIterator.FindNextUserEntry` | markdown/leveldb-iterator.md:166-198 | From any position and with any key to skip, the scan lands on the first visible value above the key it hides by then, or makes the iterator invalid if there is none. |
| `DbIter.StopIsLive` | markdown/leveldb-iterator.md:166-198 | Started at the front, or past the key shown, the entry where the scan stops is live and not hidden. |
| `DbIter.PassedIsNotLive` | markdown/leveldb-iterator.md:177-186 | A live entry is passed only if the given key hides it. |
| `DbIter.DbIterator.FindNextLive` | markdown/leveldb-iterator.md:112-142 | As `Next` and `SeekToFirst` use it, the scan lands on exactly the next live entry that is not hidden. |
| `DbIter.DbIterator.FindPrevUserEntry` | markdown/leveldb-iterator.md:278-318 | From any position the backward scan saves the last live pair at or before it, or makes the iterator invalid. |
| `DbIter.PassSeen` | markdown/leveldb-iterator.md:285-304 | What meeting one visible entry does to the backward scan: only the last one met can still be live. |
| `DbIter.SavedIsLive` | markdown/leveldb-iterator.md:286-290 | The saved value is live once a smaller visible key or the front is met. |
| `DbIter.DbIterator.SeekToFirst` | markdown/leveldb-iterator.md:144-164 | Lands on the first live pair, or is invalid if there is none. |
| `DbIter.DbIterator.SeekToLast` | markdown/leveldb-iterator.md:230-277 | Lands on the last live pair, or is invalid if there is none. |
| `DbIter.DbIterator.Next` | markdown/leveldb-iterator.md:112-142 | In either direction: moves to the successor pair, and is invalid exactly at the end. |
| `DbIter.DbIterator.Prev` | markdown/leveldb-iterator.md:203-228 | In either direction: moves to the predecessor pair, and is invalid exactly at the start. |
| `DbIter.DbIterator.ShowsPair` | markdown/leveldb-iterator.md:321 | Key and value shown, from the cursor or from the saved copies, are the pair at the iterator's index. |
| `DbIter.Apply` | markdown/leveldb-iterator.md:112-228 | Any mix of moves walks the list of live pairs up and down by one. |
| `DbIter.Scan` | markdown/leveldb-iterator.md:166-198 | A forward scan returns exactly the live pairs in order. |
| `Merging.MergingIterator.FindSmallest` | markdown/leveldb-iterator.md:65-78 | Finds a child whose head is before the heads of all other live children, or that all are exhausted. |
| `Merging.MergingIterator.SeekToFirst` | markdown/leveldb-iterator.md:55-61 | Positions every child at its start and the iterator on the smallest entry. |
| `Merging.MergingIterator.Next` | markdown/leveldb-iterator.md:48 | Delivers the head and keeps the merge: delivered entries sorted, before all that remain, and together with them all entries. |
| `Merging.HeadIsLeast` | markdown/leveldb-iterator.md:65-78 | The smallest head is before every entry not yet delivered. |
| `Merging.Merge` | markdown/leveldb-iterator.md:48-78 | Repeated `FindSmallest` yields a sorted permutation of all entries of all children. |
| `Compaction.DropObsolete` | markdown/leveldb-compact.md:60-76 | The merge loop keeps exactly the entries that are neither shadowed at the smallest snapshot nor obsolete deletions. |
| `Compaction.KeptExactly` | markdown/leveldb-compact.md:60-76 | Exactly those entries are left that have no newer version at or below the smallest snapshot and are not deletions at or below it of a key that no deeper level has. |
| `Compaction.KeptDecides` | markdown/leveldb-compact.md:60-80 | At protected snapshots the output decides each key as the input did, or the deciding entry was an obsolete deletion and nothing of the key is left. |
| `Compaction.NothingSurvives` | markdown/leveldb-compact.md:67-73 | Dropping a deciding deletion drops all older versions with it. |
| `Compaction.MergedRunReadsAlike` | markdown/leveldb-compact.md:55-57 | Searching the runs newest first finds what searching their merge finds. |
| `Compaction.CompactionPreservesReads` | markdown/leveldb-compact.md:60-84 | For every key and every snapshot at or above the smallest one, reading newer levels, output and deeper levels gives the same as before. |
| `Compaction.Compact` | markdown/leveldb-compact.md:54-76 | Merging and dropping: the output is sorted, holds exactly the entries of all runs that the rule keeps, and preserves reads around any newer and deeper levels. |
| `Compaction.KeptSorted` | markdown/leveldb-compact.md:80 | The output is sorted and only the last version of a key in it can be at or below the smallest snapshot. |
| `Compaction.OlderSnapshotsAreLost` | markdown/leveldb-compact.md:55 | The snapshot bound is exact: below it there is a store where a read changes. |
| `Compaction.DroppedDeletionIsExact` | markdown/leveldb-compact.md:64-66 | Where a deciding deletion is dropped, the read is kept if and only if the deeper levels have nothing readable for the key. |
| `Store.ScanStore` | markdown/leveldb-iterator.md:81-107 | A scan of a whole store lists, ascending and each key once, exactly what point reads at the snapshot return. |
| `Store.ScanAroundCompaction` | markdown/leveldb-compact.md:54-84 | A scan at a protected snapshot is the same list before and after a compaction. |
| `Store.CompactedIsMergeable` | markdown/leveldb-compact.md:88 | The compacted levels are again runs that can be merged, newest first. |
| `Batches.SliceRoundTrip` | markdown/leveldb-write-data-process.md:12-26 | A length-prefixed slice of less than 4 GiB reads back, with what follows it. |
| `Batches.RecordRoundTrip` | markdown/leveldb-write-data-process.md:12-26 | A put or delete record reads back as the operation. |
| `Batches.RecordsRoundTrip` | markdown/leveldb-write-data-process.md:12-39 | The records of a batch read back as its operations in order. |
| `Batches.RecordsPlus` | markdown/leveldb-write-data-process.md:97 | Merging batches appends their records. |
| `Batches.CountOneMore` | markdown/leveldb-write-data-process.md:29 | The count in the header counts modulo its 32 bits. |
| `Batches.WriteBatch.Put` | markdown/leveldb-write-data-process.md:28-33 | The bytes stay the header and the records of the operations so far, with a put appended. |
| `Batches.WriteBatch.Delete` | markdown/leveldb-write-data-process.md:35-39 | Likewise for a deletion. |
| `Batches.WriteBatch.SetSequence` | markdown/leveldb-write-data-process.md:100 | Sets the sequence number and nothing else. |
| `Batches.WriteBatch.ReadsBack` | markdown/leveldb-write-data-process.md:7-39 | A reader of the bytes finds the sequence number, the count and the operations. |
| `Block.CommonPrefix` | markdown/leveldb-sst-file.md:155-158 | The longest common prefix: shared, and not extensible. |
| `Block.EntryRoundTrip` | markdown/leveldb-sst-file.md:121-129 | An entry gives back its pair to a reader that knows the shared part of the key, whatever follows it. |
| `Block.EntryReads` | markdown/leveldb-sst-file.md:134-139 | Entry i of a block reads back at a restart point without the previous key, and elsewhere with it. |
| `Block.ReadSuffix` | markdown/leveldb-sst-file.md:134-139 | Reading from any restart entry on gives exactly the pairs from there on. |
| `Block.SmallWithin` | markdown/leveldb-sst-file.md:167-169 | In a block below 4 GiB every length fits 32 bits. |
| `Block.RestartCount` | markdown/leveldb-sst-file.md:151-163 | There is one restart point for every interval of entries. |
| `Block.RestartIs` | markdown/leveldb-sst-file.md:151-163 | The j-th restart point is the offset of entry j times the interval. |
| `Block.TrailerRoundTrip` | markdown/leveldb-sst-file.md:187-194 | The restart array and its size are found from the last four bytes. |
| `Block.BlockRoundTrip` | markdown/leveldb-sst-file.md:144-203 | A finished block below 4 GiB gives back its entries, its restart points and exactly the added pairs. |
| `Block.RestartRoundTrip` | markdown/leveldb-sst-file.md:134-139 | Reading from the j-th recorded restart offset, without earlier bytes, gives exactly the pairs from entry j times the interval on. |
| `Block.BlockBuilder.SharedWithLast` | markdown/leveldb-sst-file.md:155-158 | The comparison loop finds the longest common prefix. |
| `Block.BlockBuilder.StartEntry` | markdown/leveldb-sst-file.md:150-163 | A restart point is recorded exactly when the interval is used up. |
| `Block.BlockBuilder.AppendEntry` | markdown/leveldb-sst-file.md:164-173 | The appended bytes are the next entry of the pairs added so far. |
| `Block.BlockBuilder.Add` | markdown/leveldb-sst-file.md:144-181 | Keeps buffer, restart points, counter and last key those of the added pairs, with one more pair. |
| `Block.BlockBuilder.Finish` | markdown/leveldb-sst-file.md:195-203 | The block is the entries, the restart offsets and their number. |
| `Memtable.EntryRoundTrip` | markdown/leveldb-memtable.md:92-159 | Decoding an encoded entry restores key, sequence number, type and value. |
| `Memtable.CompareKeys` | markdown/leveldb-memtable.md:36-60 | Comparing two buffers decides by their keys and tags, whatever follows. |
| `Memtable.CompareIsBefore` | markdown/leveldb-memtable.md:30-52 | The order on bytes is key ascending, then sequence descending, then type; only equal key, sequence and type compare equal. |
| `Memtable.CompareIsTotalOrder` | markdown/leveldb-memtable.md:36-60 | The comparator is antisymmetric and transitive, and of two entries that differ in key or sequence one is below the other. |
| `Memtable.EncodeEntry` | markdown/leveldb-memtable.md:143-157 | The moving pointer fills the buffer of `encoded_len` bytes exactly with the encoded entry. |
| `Memtable.EncodeKey` | markdown/leveldb-memtable.md:284-290 | The lookup key is the encoded key with the seek type and lies within the estimate. |
| `Memtable.LookupKey.constructor` | markdown/leveldb-memtable.md:274-291 | The estimate of the key size and thirteen bytes is enough for every key, in the inner array or an allocated one. |
| `Memtable.SeekDecides` | markdown/leveldb-memtable.md:351-360 | The first node not less than the lookup key is the newest visible version, or there is none. |
| `Memtable.NewestAfterInsert` | markdown/leveldb-memtable.md:135-159 | How an insertion changes the newest version of every key at every snapshot. |
| `Memtable.MemTable.Add` | markdown/leveldb-memtable.md:135-159 | The table stays the sorted encoding of its entries, with one entry inserted. |
| `Memtable.MemTable.Seek` | markdown/leveldb-memtable.md:342-343 | The first node that is not less than the key. |
| `Memtable.MemTable.Get` | markdown/leveldb-memtable.md:338-380 | Answers with the newest version at or below the snapshot, its value or its deletion, and with nothing exactly when there is none. |
| `Memtable.MemTable.Decode` | markdown/leveldb-memtable.md:361-377 | What is read from the node's bytes is the entry's. |
| `Memtable.MemTable.InsertOne` | markdown/leveldb-memtable.md:73-80 | One operation adds its entry and nothing else, becomes the newest version of its key from its sequence number on, and changes no other read. |
| `Memtable.MemTable.InsertInto` | markdown/leveldb-memtable.md:68-81 | A whole batch adds exactly its numbered entries; every read at every snapshot finds what there was, with the visible part of the batch on top. |
| `Memtable.MemTable.InsertBatch` | markdown/leveldb-write-data-process.md:120 | The same, from the bytes of the batch. |
| `Memtable.BatchUnseenBefore` | markdown/leveldb-memtable.md:294 | A snapshot from before a batch sees nothing of it. |
| `Memtable.BatchSeenAfter` | markdown/leveldb-memtable.md:294 | A snapshot from after a batch sees all its operations applied in order. |
| `WriteQueue.InvKept` | markdown/leveldb-write-data-process.md:64-172 | Every step of every writer keeps the invariant of the queue, the groups and the memtable. |
| `WriteQueue.ArriveKeepsInv` | markdown/leveldb-write-data-process.md:64-72 | Joining the queue keeps it. |
| `WriteQueue.LocalKeepsInv` | markdown/leveldb-write-data-process.md:73-121 | Waiting, leading, preparing, logging and inserting keep it. |
| `WriteQueue.PublishKeepsInv` | markdown/leveldb-write-data-process.md:130-172 | Publishing a group and waking the new front keeps it. |
| `WriteQueue.WriterList.AnswerWriter` | markdown/leveldb-write-data-process.md:153-157 | A served writer is marked done with the status, and the signal wakes it. |
| `WriteQueue.WriterList.PopThrough` | markdown/leveldb-write-data-process.md:150-160 | The loop pops, answers and wakes exactly the writers up to and including the last of the group, but not the leader. |
| `WriteQueue.WriterList.FinishGroup` | markdown/leveldb-write-data-process.md:150-172 | The third phase as a whole is the publishing step: members answered and awake, the leader returned, the new front woken. |
| `WriteQueueTheorems.OneLeader` | markdown/leveldb-write-data-process.md:104-122 | In every run at most one writer is past the wait loop, and it is the front of the queue. |
| `WriteQueueTheorems.GroupsAreFifo` | markdown/leveldb-write-data-process.md:150-160 | Published groups one after the other and then the queue are the writers in order of arrival, without repetition. |
| `WriteQueueTheorems.ServedOnce` | markdown/leveldb-write-data-process.md:150-160 | No writer is in two groups or twice in one, or served and still queued. |
| `WriteQueueTheorems.RangesAreAdjacent` | markdown/leveldb-write-data-process.md:91-102 | Groups take adjacent ranges of sequence numbers from 1 to the last sequence. |
| `WriteQueueTheorems.NumbersIncrease` | markdown/leveldb-write-data-process.md:97-121 | The memtable receives strictly increasing sequence numbers at every moment. |
| `WriteQueueTheorems.AnswerIsTheGroups` | markdown/leveldb-write-data-process.md:150-160 | A writer has an answer exactly when a group served it, and it is the group's status. |
| `WriteQueueTheorems.AnswersAreFinal` | markdown/leveldb-write-data-process.md:75-82 | An answer never changes and is never withdrawn. |
| `WriteQueueTheorems.WorkDecides` | markdown/leveldb-write-data-process.md:90-121 | In every run, what making room or writing the log gave is what the whole group is on the way to being told, or has been told, from then on. |
| `WriteQueueTheorems.StatusHasCause` | markdown/leveldb-write-data-process.md:90-121 | The members of every published group were told what making room or writing the log for that group gave. |
| `WriteQueueTheorems.HistoryGrows` | markdown/leveldb-write-data-process.md:118-132 | Nothing leaves the memtable, published groups stay, and no batch changes. |
| `WriteQueueTheorems.AcknowledgedIsStored` | markdown/leveldb-write-data-process.md:118-121 | A batch whose writer was told `Ok` is in the memtable whole, in order and consecutively numbered, from then on. |
| `WriteQueueTheorems.OnlyAcknowledgedIsStored` | markdown/leveldb-write-data-process.md:109-121 | Between groups the memtable holds the acknowledged batches in order of arrival and nothing else. |
| `WriteQueueTheorems.FrontCanMove` | markdown/leveldb-write-data-process.md:166-170 | No wake-up is lost: the front of a non-empty queue can always take a step towards publishing. |
| `WriteQueueTheorems.WaitersWait` | markdown/leveldb-write-data-process.md:73-77 | In every run a writer behind the front only sleeps and wakes, and a sleeping one does nothing until it is woken. |
| `WriteQueueTheorems.AnyGroupCanForm` | markdown/leveldb-write-data-process.md:88-110 | A leader with a batch can serve any number of the queued writers with one merged batch, whatever the log says to it. |
| `WriteQueueTheorems.FrontAdvances` | markdown/leveldb-write-data-process.md:75-172 | Each such step brings the front closer to its answer, and no other writer takes it back. |
| `WriteQueueTheorems.QueueMovesForward` | markdown/leveldb-write-data-process.md:150-170 | Each publication moves every queued writer forward or answers it; nothing else moves it. |
| `WriteQueueTheorems.QueueEmpties` | markdown/leveldb-write-data-process.md:75-172 | From every state of the invariant there is a continuation without new arrivals that empties the queue and tells `Ok` to everyone whose group had not failed before. |
| `WriteQueueTheorems.EveryoneReturns` | markdown/leveldb-write-data-process.md:75-82 | From there every writer can return with its answer: each was signalled when it got it. |
| `WriteQueueTheorems.WritersComplete` | markdown/leveldb-write-data-process.md:64-172 | From every moment of every run there is a continuation after which every writer that has arrived has returned, with `Ok` unless its group had failed before. |
| `CommitReads.NewestIsLast` | markdown/leveldb-memtable.md:294 | With increasing sequence numbers the newest version at a snapshot is the last operation on the key that the snapshot covers. |
| `CommitReads.LastDecides` | markdown/leveldb-memtable.md:294 | The last operation on a key decides what applying all of them in order gives. |
| `CommitReads.LaterAbove` | markdown/leveldb-write-data-process.md:91-102 | In every run whatever is in progress or comes later is numbered above the last published sequence. |
| `CommitReads.SnapshotCovers` | markdown/leveldb-write-data-process.md:118-132 | A snapshot at the last published sequence of any moment covers, then and later, exactly what the groups published by then stored. |
| `CommitReads.ReadsSeeAcknowledged` | markdown/leveldb-write-data-process.md:88-133 | A reader at that snapshot finds, then and at any later time, exactly what applying the batches acknowledged by then in order gives: no group under way, later group or failed write shows. |
| `CommitReads.LoadedTabulates` | markdown/leveldb-memtable.md:68-81 | A table that takes in a batch stays the sorted table of the numbered operations stored so far. |
| `CommitReads.StoreBatch` | markdown/leveldb-write-data-process.md:118-121 | Inserting the bytes of a group's batch keeps the memtable the table of the stored operations. |
| `CommitReads.ReadAcknowledged` | markdown/leveldb-memtable.md:338-380 | A lookup in a memtable that holds what a run has stored, at the last published sequence of any moment, answers with the acknowledged batches applied in order. |
| `CommitReads.ReplayRun` | markdown/leveldb-write-data-process.md:118-121 | Carrying out the insertions of any run one after the other builds, at every moment, the table of what it has stored. |
| `CommitReads.ReplayAndRead` | markdown/leveldb-memtable.md:338-380 | So a lookup after replaying any run up to any moment, at the last published sequence of an earlier one, finds what the batches acknowledged by then made. |
| `Sbuf.StepAccounts` | csapp/concurrent_program/sbuf.c:39-55 | Every step of every thread keeps the semaphore accounting. |
| `Sbuf.OneAtATime` | csapp/concurrent_program/sbuf.c:41-43 | With the mutex, or one slot, or one thread on each side, at most one producer and one consumer are between reading an index and accessing the slot. |
| `Sbuf.StoreIsFree` | csapp/concurrent_program/sbuf.c:42 | The slot a producer stores into holds no unread item. |
| `Sbuf.FifoKept` | csapp/concurrent_program/sbuf.c:39-55 | Every step keeps the queue invariant where index updates cannot overlap. |
| `SbufTheorems.BufferIsFifo` | csapp/concurrent_program/sbuf.c:39-55 | In every reachable state the items removed are a prefix of the items inserted. |
| `SbufTheorems.NoUnreadItemOverwritten` | csapp/concurrent_program/sbuf.c:42 | No insertion overwrites an unread slot. |
| `SbufTheorems.SemaphoresBalance` | csapp/concurrent_program/sbuf.c:24-55 | Slots, items and threads between their P and V always add up to n. |
| `SbufTheorems.OperationsComplete` | csapp/concurrent_program/sbuf.c:39-55 | No deadlock: from every reachable state the operations in progress can be completed, one step of work at a time. |
| `SbufTheorems.TwoProducersBreak` | csapp/concurrent_program/concurrent_program_practice.cc:103-110 | Without the mutex two producers can lose an item. |
| `SbufTheorems.TwoConsumersBreak` | csapp/concurrent_program/concurrent_program_practice.cc:103-110 | Without the mutex two consumers can take the same item. |
| `SbufTheorems.OneSidedIsFifo` | csapp/concurrent_program/sbuf.c:39-55 | With producers alone or consumers alone, what is removed is in every run a prefix of what is inserted. |
| `SbufTheorems.UnguardedBreaks` | csapp/concurrent_program/concurrent_program_practice.cc:103-110 | In every other unguarded configuration some run breaks the order. |
| `SbufTheorems.FifoExactly` | csapp/concurrent_program/concurrent_program_practice.cc:103-110 | Every run is first-in first-out if and only if the mutex is used, or there is at most one slot, or at most one producer and one consumer, or one side is missing. |
| `HashTable.MaskIsRemainder` | markdown/redis-dict.md:75 | For a table whose size is a power of two the mask selects the remainder. |
| `HashTable.RemoveNode` | markdown/redis-dict.md:223-234 | Unlinking a node removes its key and leaves every other lookup. |
| `Dict.MoveNode` | markdown/redis-dict.md:223-234 | Moving one node between the tables keeps them one map, with correct counters and every key in its bucket. |
| `Dict.Dictionary.constructor` | markdown/redis-dict.md:27-54 | An empty dictionary that is not rehashing. |
| `Dict.Dictionary.MoveBucket` | markdown/redis-dict.md:221-235 | Empties the current bucket into the new table; the map is unchanged. |
| `Dict.Dictionary.SkipEmpty` | markdown/redis-dict.md:217-220 | Passes empty buckets within the budget and never leaves the table while nodes remain. |
| `Dict.Dictionary.FinishRehash` | markdown/redis-dict.md:239-246 | The new table takes the place of the empty one; the map is unchanged. |
| `Dict.Dictionary.Rehash` | markdown/redis-dict.md:207-250 | n steps change no lookup, visit at most 10n empty buckets, empty at most n, pass each bucket of the table at most once, and stop before the end only when n buckets are emptied or 10n empty ones visited; the answer says exactly whether rehashing goes on. |
| `Dict.Dictionary.RehashToEnd` | markdown/redis-dict.md:188-196 | Repeated calls with n at least 1 finish within as many calls as the table has buckets. |
| `Dict.Dictionary.Expand` | markdown/redis-dict.md:178-180 | Refused exactly while rehashing or when too small for the nodes; otherwise allocates the first power of two at or above the request, as first table or to rehash into. The map is unchanged. |
| `Dict.Dictionary.ExpandIfNeeded` | markdown/redis-dict.md:121-140 | An empty table becomes one of the initial size; rehashing starts exactly in the stated cases, into the first power of two at or above twice the nodes; otherwise nothing changes. The map is unchanged. |
| `Dict.Dictionary.Resize` | markdown/redis-dict.md:162-171 | Works exactly when allowed and not rehashing; the new table has the first power of two at or above the nodes and the initial size, and is really smaller when the fill test asks for it. The map is unchanged. |
| `Dict.SparseIs` | markdown/redis-dict.md:151-158 | The fill test holds exactly above the initial size with fewer than a tenth as many nodes as buckets. |
| `Dict.SparseTable` | markdown/redis-dict.md:151-158 | When the fill test asks for shrinking, fewer than half of the buckets could hold a node each. |
| `Dict.Dictionary.KeyIndex` | markdown/redis-dict.md:83-106 | The bucket for a new key, in the new table while rehashing; -1 exactly when the key is present. |
| `Dict.Dictionary.Find` | markdown/redis-dict.md:260 | Looks in both tables and answers as the map does. |
| `Dict.Dictionary.Add` | markdown/redis-dict.md:83-106 | Adds a missing key and refuses a present one. |
| `Dict.Dictionary.Delete` | markdown/redis-dict.md:260 | Removes the key from whichever table holds it. |
| `Dict.Replay` | markdown/redis-dict.md:83-260 | Any sequence of lookups, additions, deletions, rehash steps, shrinks and resize switches answers like a plain map. |
| `Rio.Source.Read` | csapp/system_io/rio.cc:54 | `read`: any positive part of what there is, zero only at the end, or an interruption or failure that takes nothing. |
| `Rio.ReadN` | csapp/system_io/rio.cc:3-22 | Fills the buffer unless input ends or a call fails; what was read is a prefix of the stream in every case. |
| `Rio.WriteN` | csapp/system_io/rio.cc:24-42 | Writes everything in order through interruptions; fails exactly when a call fails, after some prefix. |
| `Rio.LineLengthIs` | csapp/system_io/rio.cc:79-101 | Where a line ends: at the first newline, at the limit or with the stream. |
| `Rio.Reader.constructor` | csapp/system_io/rio.cc:44-48 | An empty internal buffer in front of the source. |
| `Rio.Reader.Fill` | csapp/system_io/rio.cc:53-65 | Refills an empty buffer through interruptions; the undelivered stream is unchanged. |
| `Rio.Reader.Take` | csapp/system_io/rio.cc:50-76 | Delivers the next bytes of the stream, at least one unless at the end or failed. |
| `Rio.Reader.ReadNB` | csapp/system_io/rio.cc:103-123 | The bytes copied are the next of the stream, also when a call fails on the way; without a failure exactly the smaller of the request and what was left. |
| `Rio.Reader.CopyLine` | csapp/system_io/rio.cc:83-98 | The loop stores the stream's next line and stops at newline, limit or end. |
| `Rio.Reader.ReadLineB` | csapp/system_io/rio.cc:79-101 | Likewise, terminated by a zero, with the returned value in every case. |
| `Rio.PerformAll` | csapp/system_io/rio.cc:44-123 | Any mix of line and block reads delivers the stream without loss, repetition or reordering; without failures the answers do not depend on how the source was chunked. |
| `ClientPool.Pool.constructor` | csapp/concurrent_program/echoservers.cc:15-26 | Only the listening descriptor is in the read set. |
| `ClientPool.Pool.AddClient` | csapp/concurrent_program/echoservers.cc:55-81 | The descriptor takes the first free slot and joins the read set; the maximum and the high-water mark grow to cover it; it is left out exactly when no slot is free. |
| `ClientPool.SlotIsFree` | csapp/concurrent_program/echoservers.cc:78-80 | While descriptors stay in the range of the sets there is always a free slot. |
| `ClientPool.Pool.CheckClients` | csapp/concurrent_program/echoservers.cc:83-107 | Services exactly the first `nready` ready clients in slot order; of these exactly those at the end of their input leave the pool. |
| `ClientPool.Pool.RemoveClient` | csapp/concurrent_program/echoservers.cc:100-103 | Frees the slot and clears the descriptor from the read set. |
| `ClientPool.ReadyCount` | csapp/concurrent_program/echoservers.cc:88-93 | The clients the scan takes for ready, in slot order, are each ready client but descriptor 0 once. |
| `ClientPool.ClientZeroIsPassedOver` | csapp/concurrent_program/echoservers.cc:93 | A pool whose only client is descriptor 0, ready: the scan services nobody, whatever the count. |
| `ClientPool.WithoutZero` | csapp/concurrent_program/echoservers.cc:60-93 | Leaving out descriptor 0 reaches every ready client if and only if it is none of them. |
| `ClientPool.ScanIsComplete` | csapp/concurrent_program/echoservers.cc:88 | Stopping after n of them reaches every ready client if and only if n is not below their number. |
| `ClientPool.Pool.ServiceAll` | csapp/concurrent_program/echoservers.cc:83-107 | With the exact count every ready client but descriptor 0 is serviced once; all of them are, and the count is used up, if and only if 0 is not a ready client. |
| `ClientPool.Pool.Accept` | csapp/concurrent_program/echoservers.cc:131-132 | An accepted descriptor that the sets can hold always gets a slot. |
| `ClientPool.Pool.Admit` | csapp/concurrent_program/echoservers.cc:126-133 | After select and accept the count is exactly that of the ready clients; a new client is not among them. |
| `ClientPool.Pool.Turn` | csapp/concurrent_program/echoservers.cc:124-137 | In every turn, for any set select reports, the pool invariant is kept and every ready client but descriptor 0 is serviced exactly once; all are if and only if 0 is not a ready client; exactly the serviced clients at the end of their input leave. |

## Left out

- Failed or garbled transfers, crashes of a process, and reopening of the upgrade channel in the step system: it covers upgrades whose control messages are parsed as sent and answered.
- ProcessRecv: is for bytes that travel with copies of one descriptor, as one transfer sends them; with none the source reads what its control buffer happens to hold.
- Transfer: starts with nothing in flight, as the wait for a reply makes it; bytes left over from a transfer that overshot are not followed further.
- ReplayRun: is for operations that fit the encoding of the memtable, with internal keys and values below 4 GiB and 56-bit sequence numbers.
- What TCP promises is taken for granted: `read` returns zero only after the client has closed its end and everything was delivered, and errors and error events come only from broken connections.
- Delivery of events by epoll: the model says what happens when an event is handled, not that edge-triggered events keep coming.
- File descriptor numbers across processes: a session has one identity in both.
- That the kernel delivers a control message or a reply in the end: the steps that do so are shown to be possible.
- Memory ordering of plain C accesses, wrap-around of `front` and `rear`, and fairness of semaphores.
- The skip list, the version set, the LRU cache and the sst index and filter blocks: the memtable's ordered table is a sorted sequence searched from the front.
- Put and delete of the dictionary beyond `_dictKeyIndex`, `dictExpand` and the helpers of `DBIter` and `BuildBatchGroup` are not shown in the listings; they follow the surrounding text, and `BuildBatchGroup` may choose any number of writers.
- `IsBaseLevelForKey` is a parameter that may err on the side of caution.
- Failure of the memtable insertion itself, and the background-error mode after a failed sync, which shows as a failure to make room.
- Writes of `rio_readlineb` for a limit of zero into a zero-length buffer, and limits beyond the range of `int`.
- Descriptors at or above `FD_SETSIZE`, for which `FD_SET` is undefined.
- Batches whose bytes are malformed, and what a reader does with the part before the damage.
- Echoing and line reading in the client pool: which clients are at the end of their input is a parameter, and `select` and `accept` succeed.
- Block trailer bytes for compression and checksum, and memory-allocation failure anywhere.
- The remaining csapp demonstrations and the articles without code.
