# Terminal output replication

A Dafny model of how terminalez carries a terminal's output from the host to the people
watching it, and proofs about it. `dafny verify dfyconfig.toml` checks everything.

A host terminal reads bytes from a PTY, keeps the last few MiB of them, and sends them in
chunks cut at UTF-8 characters. The server accepts the chunks of each shell in a bounded
store, reports how far it has got, and can be saved and restored. A report that lags three
times in a row moves the terminal back. Viewers follow the store with a cursor while old
chunks are pruned under it.

| file | content |
|---|---|
| `Wrappers.dfy`, `Numbers.dfy`, `Bytes.dfy`, `Utf8.dfy`, `Protocol.dfy` | optional values, minimum and maximum, byte strings and lists of them, character boundaries, messages |
| `Characters.dfy` | the UTF-8 encoding of a text, and that the boundaries found in it are those between its characters |
| `HostSender.dfy` | the terminal: class `PtyTerminal` and the functions it is proved against |
| `StreamSender.dfy` | the same sender without memory limits, its framing, where messages resume, and its three-sync rule |
| `HostRuns.dfy` | whole runs of the terminal: refinement, window, framing, catch-up, memory |
| `Stalls.dfy` | output that stops replication for good, and exactly when |
| `Ledger.dfy` | what a server accepts of any messages, with nothing pruned |
| `ShellStore.dfy` | the pruned store: class `ShellState`, and its relation to the ledger |
| `Subscriber.dfy`, `Checkpoint.dfy`, `Session.dfy` | the cursor of a viewer, checkpoints, the shells of a session and the subscriptions to them |
| `Replication.dfy`, `Recovery.dfy` | terminal, channel, server and viewer together |
| `Notify.dfy`, `RwLock.dfy`, `Broadcast.dfy` | the primitives, for any number of tasks |

Unix and Windows terminals run one algorithm; they differ in the size of a read (16384 and
4096 bytes), which is a parameter of the catch-up and memory results. A read round is one
step: `read_queue` is an unbounded asyncio queue, so putting a message does not suspend.
`add_data` appends and prunes without suspending in between, so that is one step too; in
`Notify` its announcement is a separate step. Positions and
counters are unbounded integers. Reports may be delivered late, twice, in any order or not
at all. The channel of `Replication` delivers what the terminal sends in order and without
loss, and the shell has been announced before its output; `Ledger`, `ShellStore`,
`Subscriber` and `Checkpoint` make no such assumption and hold for arbitrary messages.

## What the code does not do

Some expected properties are false of the code. Each has a proof of that and, where there is
one, the exact condition.

- A terminal whose server lags more than 8 MiB can stop for good although nothing is lost:
  after three stale reports the cursor is before the window, the next read raises, and the
  read loop ends (`Recovery.StaleReportsStopTerminal`, 769 reads of plain ASCII). A read
  fails exactly when the cursor is before the window (`HostRuns.ReadRefines`), and after that
  nothing is sent (`HostRuns.FailedForGood`).
- A position where a character may start, followed by 65536 bytes 0x80..0xBF, stops
  replication there for good, whatever is read or reported later, and without such a place
  it can always go on (`Stalls.StallsForGoodIff`). A text in UTF-8 has none
  (`Stalls.TextIsNeverPlugged`). No message reaches past it, and memory
  grows without bound (`Stalls.PluggedTerminal`); a program that writes only such bytes is
  one case (`Stalls.FloodStalls`).
- The label of the chunks a viewer gets counts accepted bytes, not positions, so it is too
  small exactly after a gap (`Subscriber.LabelIsPositionIff`); a late first message is
  enough (`Subscriber.LabelCanBeWrong`).
- Pruning counts skipped bytes as stored. Once 2 MiB have been skipped in all, the store is
  empty after every message (`ShellStore.StoreIsEmptyIff`, `ShellStore.StoreCanBeEmpty`);
  once 32 KiB have been skipped a checkpoint's counters claim more than its bound
  (`Checkpoint.CheckpointIsSmall`, `Checkpoint.CheckpointCanMiscount`).
- `notify_all` wakes every waiter but sets one permit, so with two viewers of a shell one
  can sleep on unseen output (`Notify.WakeupLostIff`). From any state a viewer can catch up
  unless it is behind without a permit or an announcement to come (`Notify.CatchesUpIff`).
- A reader that waits for a writer too long enters beside it (`RwLock.MixedIffForced`,
  `RwLock.TimeoutMixes`). `_writers_waiting` is decremented twice when a writer meets the
  overall deadline, because the exception is caught by the handler for the single wait:
  `asyncio.TimeoutError` is the builtin `TimeoutError` (`RwLock.LockIsExclusive`,
  `RwLock.DeadlineMiscounts`).
- `close_shell` releases the write lock even when acquiring it timed out
  (core/server_core/state_manager/session.py:249-258), and `update_users` even when its
  second check raises before it (core/server_core/state_manager/session.py:374-387). Such a
  release can let two writers in exactly when a writer is active at that moment
  (`RwLock.StrayReleaseHarmsIff`, with a run of three writers in
  `RwLock.StrayReleaseBreaksLock`). While all of them find no active writer the lock is
  exclusive (`RwLock.LockIsExclusive`).

## Model

| member | source | states |
|---|---|---|
| Utf8.PrevCharBoundary | core/host_core/UnixPTyTerminal.py:27-68 | raises exactly outside 0..len, otherwise returns a boundary with no other between it and the index |
| Utf8.PrevInWindow | core/host_core/UnixPTyTerminal.py:203-206 | the boundary found in a window that starts at a character is the boundary of the whole stream |
| Utf8.PrevIsNear | core/host_core/UnixPTyTerminal.py:52-66 | when no character has more than three continuation bytes the search goes back at most three bytes |
| Characters.BoundaryIff | core/host_core/UnixPTyTerminal.py:27-68 | a position in the UTF-8 encoding of any text passes the boundary test exactly when it lies between two characters |
| Characters.PrevIsCharacter | core/host_core/UnixPTyTerminal.py:27-68 | the boundary found in an encoded text is the start of the character that the index is in, or the end |
| Characters.PartialTextIsShort | core/host_core/UnixPTyTerminal.py:52-66 | what has been read of a text in UTF-8 never has four continuation bytes in a row, as the catch-up and memory results ask |
| HostSender.PtyTerminal.constructor | core/host_core/UnixPTyTerminal.py:77-80 | a terminal starts with an empty window at position 0 |
| HostSender.PtyTerminal.ReadOutput | core/host_core/UnixPTyTerminal.py:199-225 | a read round appends, sends one message if anything is unsent, prunes, and stops for good where the source raises |
| HostSender.PtyTerminal.SendPending | core/host_core/ConPTyTerminal.py:131-145 | the sending part of the round |
| HostSender.PtyTerminal.FindSpan | core/host_core/UnixPTyTerminal.py:204-206 | the piece to send, or the exception when the cursor is before the window |
| HostSender.PtyTerminal.PruneContent | core/host_core/UnixPTyTerminal.py:219-225 | the pruning part of the round |
| HostSender.PtyTerminal.Sync | core/host_core/UnixPTyTerminal.py:281-285 | a lagging report is counted, and from the third on moves the cursor |
| StreamSender.MessageIsFramed | core/host_core/UnixPTyTerminal.py:203-216 | a message starts at the last character start not after the cursor, so a character that was cut is sent again whole; it ends where a character starts or at the end of what was read, and has at most 64 KiB |
| StreamSender.AllMessagesFramed | core/host_core/UnixPTyTerminal.py:203-216 | over every run of the unbounded sender all messages carry true bytes and start at characters |
| StreamSender.MessagesEndWell | core/host_core/UnixPTyTerminal.py:206-211 | over every run a message ends where a character of the whole stream starts or at the end of what had been read at some time |
| StreamSender.MessagesResume | core/host_core/UnixPTyTerminal.py:203-216 | over every run the next message starts at the last character start not after the end of this one, or earlier if there were reports, so that a cut character is sent again whole |
| StreamSender.SyncsAfterSend | core/host_core/UnixPTyTerminal.py:282-285 | the counter of outdated syncs and the position of the cursor after any list of reports |
| StreamSender.RewindNeedsThreeSyncs | core/host_core/UnixPTyTerminal.py:215-216 | after any send the cursor moves back if and only if three reports are less than it, and then to the least report from the third such one on |
| HostRuns.SendRefines | core/host_core/UnixPTyTerminal.py:203-216 | the windowed terminal sends the message that a sender remembering everything would send |
| HostRuns.PruneKeepsWindow | core/host_core/UnixPTyTerminal.py:219-225 | pruning keeps the window at a character start at least 8 MiB behind the highest position, and cuts it exactly at the last character start 8 MiB before the cursor when it holds more than 12 MiB |
| HostRuns.ReadRefines | core/host_core/UnixPTyTerminal.py:199-225 | a read fails exactly when the cursor is before the window; otherwise message and state are those of the unbounded sender, and the window starts exactly where the stream and the cursor say |
| HostRuns.ReadCutsBack | core/host_core/UnixPTyTerminal.py:219-225 | a read leaves the window as it was with the data added, or cuts it back to what is unsent and 8 MiB, at most three bytes more |
| HostRuns.RunRefines | core/host_core/UnixPTyTerminal.py:186-235 | over every run of reads and reports the windowed terminal is indistinguishable from the unbounded sender until it fails, and its window starts where that sender's run says |
| HostRuns.TerminalMessagesFramed | core/host_core/UnixPTyTerminal.py:203-225 | across prunes and rewinds every message carries true bytes, starts at a character and ends at one or at the end of what was read; the next one resumes no later than at the last character start before that end, and exactly there when nothing is reported |
| HostRuns.TextMessages | core/host_core/UnixPTyTerminal.py:203-225 | when what is read is a text in UTF-8, every message of a run starts between two characters, and ends between two or at the end of what was read |
| HostRuns.LittleLagNeverFails | core/host_core/UnixPTyTerminal.py:281-285 | when every report is at most 8 MiB behind the highest position reached, no read fails and the cursor stays in the window |
| HostRuns.EmitCatchesUp | core/host_core/UnixPTyTerminal.py:203-216 | a read empties the backlog or shrinks it by 65530 bytes less the bytes read (49146 for reads of 16384) |
| HostRuns.SenderCatchesUp | core/host_core/UnixPTyTerminal.py:203-216 | the same over any number of reads |
| HostRuns.TerminalCatchesUp | core/host_core/UnixPTyTerminal.py:186-235 | a rewound terminal has sent everything after a computable number of non-empty reads |
| HostRuns.MemoryWithoutRewinds | core/host_core/UnixPTyTerminal.py:22-24 | a terminal that is not moved back has sent everything after each read and keeps at most 12 MiB |
| HostRuns.MemoryAfterRead | core/host_core/UnixPTyTerminal.py:219-225 | after any read of any run the window has grown by the data or is cut back to what is unsent and 8 MiB; it is at most 12 MiB or what is unsent, 8 MiB and 3 bytes |
| HostRuns.FailedForGood | core/host_core/UnixPTyTerminal.py:227-233 | a terminal that has failed sends nothing more |
| Stalls.EmptyMessageIff | core/host_core/UnixPTyTerminal.py:204-208 | a message is empty exactly when the last character start not after the cursor is followed by a whole chunk of continuation bytes |
| Stalls.ProgressIff | core/host_core/UnixPTyTerminal.py:203-216 | a read empties the backlog or moves the cursor forward exactly when it is not in the character that such a place (a plug) starts with |
| Stalls.PlugBlocks | core/host_core/UnixPTyTerminal.py:203-216 | a cursor that is not past a plug is at or before its start after a read |
| Stalls.PlugEndsRun | core/host_core/UnixPTyTerminal.py:186-235 | over every run no message, before or after the plug is there, reaches past it |
| Stalls.StallsForGoodIff | core/host_core/UnixPTyTerminal.py:203-216 | replication of what was produced can never be completed, whatever is read and reported, exactly when the stream has a plug |
| Stalls.PluggedTerminal | core/host_core/UnixPTyTerminal.py:203-225 | the same for the windowed terminal, which keeps all output after the plug in memory |
| Stalls.TextIsNeverPlugged | core/host_core/UnixPTyTerminal.py:203-206 | a text in UTF-8 never stops replication in this way |
| Stalls.FloodStalls | core/host_core/UnixPTyTerminal.py:203-225 | output of continuation bytes only is never replicated past 64 KiB and is kept in memory entirely |
| Ledger.AcceptKeepsOrder | core/server_core/state_manager/session.py:291-320 | a message moves the position to its end if that is further, and keeps accepted chunks in order |
| Ledger.AcceptedIsTrue | core/server_core/state_manager/session.py:298-320 | from true messages under any loss, duplication and reordering, accepted chunks are true and lie at disjoint increasing positions |
| Ledger.StoredByteIsFirst | core/server_core/state_manager/session.py:298-320 | for any messages whatever, the byte accepted for a position is that of the first message reaching past it, if that message covers it, and none otherwise |
| Ledger.AcceptedPlusSkipped | core/server_core/state_manager/session.py:306-317 | the position is the bytes accepted plus the bytes skipped by gaps |
| Ledger.CountedPosition | core/server_core/state_manager/session.py:306-310 | the bytes accepted before a chunk are at most its position, and equal it exactly when nothing was skipped before |
| ShellStore.ShellState.AddData | core/server_core/state_manager/session.py:291-323 | ignores old and empty data, trims an overlap, accepts a gap, and prunes |
| ShellStore.ShellState.ManageStorage | core/server_core/state_manager/session.py:331-353 | drops leading chunks and moves both offsets past them |
| ShellStore.ShellState.SkipPruned | core/server_core/state_manager/session.py:338-350 | the counting loop of pruning |
| ShellStore.PruneCountIsGreatest | core/server_core/state_manager/session.py:341-350 | pruning drops the greatest number of leading chunks that fit into the excess |
| ShellStore.ManageCuts | core/server_core/state_manager/session.py:331-353 | pruning moves a cut of the ledger to the greatest index that leaves 2 MiB |
| ShellStore.CutAfter | core/server_core/state_manager/session.py:331-353 | the same after any messages, from any cut |
| ShellStore.StoreIsCutLedger | core/server_core/state_manager/session.py:270-353 | after any messages the store is the ledger cut at the greatest index that leaves 2 MiB, however often pruning ran |
| ShellStore.CutIsUnique | core/server_core/state_manager/session.py:331-353 | there is only one such index |
| ShellStore.StoreCounts | core/server_core/state_manager/session.py:38-41 | what `seq_num`, `chunk_offset` and `byte_offset` count over every run, gaps included |
| ShellStore.StoreIsEmptyIff | core/server_core/state_manager/session.py:334-350 | after an accepted message the store is empty exactly when 2 MiB have been skipped in all, and otherwise keeps 2 MiB or everything |
| ShellStore.StoreCanBeEmpty | core/server_core/state_manager/session.py:334-350 | one byte accepted at position 2 MiB is dropped at once |
| Subscriber.PollIsExact | core/server_core/state_manager/session.py:147-158 | whatever the cursor and whatever was cut off, a poll leaves the cursor at the last chunk or beyond and yields exactly the unpruned chunks it had not passed, with the count of bytes before them, and nothing when there are none |
| Subscriber.SubscriberIsExact | core/server_core/state_manager/session.py:120-204 | over every run of adds, prunes and polls each poll continues at the last one and yields exactly what is still there |
| Subscriber.EveryEventCounts | core/server_core/state_manager/session.py:120-204 | looking changes nothing in the store, which is what the messages of the run make it, and every look is on record |
| Subscriber.LookReachesEnd | core/server_core/state_manager/session.py:149-155 | after a look the cursor is at the last chunk, or where it was if that is further |
| Subscriber.EachChunkOnce | core/server_core/state_manager/session.py:149-155 | every chunk that the cursor passed belongs to exactly one poll, which yielded it unless it was pruned; no other poll, idle ones included, yields it |
| Subscriber.LabelIsPositionIff | core/server_core/state_manager/session.py:147-153 | the label is the true position exactly when nothing was skipped before the chunk |
| Subscriber.LabelCanBeWrong | core/server_core/state_manager/session.py:147-158 | a viewer is told position 0 for a first message that came late |
| Checkpoint.Capture | core/server_core/state_capture/checkpoint.py:75-100 | the record of a shell is its store without the leading chunks that the trim loop passes, with its window size; there is none when that is unknown |
| Checkpoint.Restore | core/server_core/state_capture/checkpoint.py:130-143 | a state filled from a record is that store, with its window size beside it |
| Checkpoint.TrimIsLeast | core/server_core/state_capture/checkpoint.py:78-85 | the fewest chunks are left out that bring the counted bytes below 32 KiB, and the totals stay |
| Checkpoint.CheckpointIsSmall | core/server_core/state_capture/checkpoint.py:10-11 | fewer than 32768 bytes are stored; the counters agree exactly when less than that has been skipped |
| Checkpoint.CheckpointCanMiscount | core/server_core/state_capture/checkpoint.py:77-85 | after one byte accepted at position 32 KiB the counters of a checkpoint exceed its bound |
| Checkpoint.RestoredFollowsOriginal | core/server_core/state_capture/checkpoint.py:131-136 | a restored store fed the same messages keeps position and chunk number, holds a suffix of the original, and equals it exactly when nothing was left out or it counts 2 MiB |
| Session.Session.AddShell | core/server_core/state_manager/session.py:212-219 | a used number is refused, a new one gets an empty store once the write lock is held |
| Session.Session.CloseShell | core/server_core/state_manager/session.py:231-257 | an open shell is marked closed, its subscribers are woken, and it is forgotten if the write lock could be acquired |
| Session.Session.AddData | core/server_core/state_manager/session.py:284-289 | data for an unknown shell is ignored, and no other shell changes |
| Session.Session.SequenceNumbers | core/server_core/state_manager/session.py:84-106 | the positions of exactly the shells that are not closed |
| Session.Subscription.Round | core/server_core/state_manager/session.py:137-158 | a round of the subscription loop looks the shell up, ends when it is gone or closed, and otherwise yields what the cursor has not passed |
| Replication.ProduceKeepsSound | core/host_core/UnixPTyTerminal.py:199-225 | the terminal never gets ahead of where the server will be when the channel is delivered |
| Replication.DeliverKeepsSound | core/server_core/state_manager/session.py:297-323 | a delivered message never finds a gap |
| Replication.SystemIsSound | core/server_core/state_manager/session.py:297-323 | over every interleaving what reaches the server is true and complete |
| Replication.HostIsTerminal | core/host_core/UnixPTyTerminal.py:186-235 | in every interleaving the terminal is what it is without server and channel |
| Replication.NothingIsLost | core/server_core/state_manager/session.py:297-353 | in every interleaving each message that the terminal sent has been accepted, in order, or is in the channel |
| Replication.ReportedIff | core/server_core/state_manager/session.py:84-106 | the terminal can be told exactly the positions where the server was when it reported |
| Replication.ServerHoldsStream | core/server_core/state_manager/session.py:297-353 | the stored chunks join to exactly the stream from `byte_offset` to `seq_num` |
| Replication.ViewerSeesStream | core/server_core/state_manager/session.py:147-158 | everything a viewer gets carries its true position and the bytes of the stream there |
| Replication.ViewReachesEnd | core/server_core/state_manager/session.py:149-155 | after each look the viewer is at the last chunk |
| Replication.UnprunedViewerSeesPrefix | core/server_core/state_manager/session.py:136-158 | a viewer from the start that pruning never outran has seen an exact prefix of the stream, and after each look all that was delivered |
| Replication.QuiescentServerIsComplete | core/server_core/state_manager/session.py:20-21 | when nothing is unsent or in the channel the server is at the end and holds the last 2 MiB or everything |
| Recovery.CloseReportsNeverFail | core/host_core/UnixPTyTerminal.py:281-285 | in the whole system, reports at most 8 MiB behind never make a read fail |
| Recovery.RecoveredServerIsComplete | core/host_core/UnixPTyTerminal.py:203-216 | from every reachable state with the cursor in the window, through any reads, deliveries, new reports and looks in any order: once enough is read and the channel is empty the server is complete |
| Recovery.StaleReportsStopTerminal | core/host_core/UnixPTyTerminal.py:50-53 | a reachable run on a lossless channel in which stale reports make the terminal stop for good |
| Notify.Notify.NotifyN | core/comms_core/utils/notify.py:11-14 | sets the permit and wakes the `n` that have waited longest |
| Notify.Notify.NotifyAll | core/comms_core/utils/notify.py:22-25 | sets the permit and wakes every waiter |
| Notify.Notify.Check | core/comms_core/utils/notify.py:16-20 | one check of the waiting loop takes the permit if there is one, and sleeps otherwise |
| Notify.SingleViewerIsServed | core/server_core/state_manager/session.py:149-177 | a single subscriber that sleeps behind the last chunk has an announcement coming |
| Notify.SomeoneIsServed | core/comms_core/utils/notify.py:16-25 | among any number of subscribers one has seen the last chunk, is about to look, or can still be woken |
| Notify.PermitWakesAll | core/comms_core/utils/notify.py:22-25 | while a permit is set no subscriber sleeps |
| Notify.CatchesUpIff | core/comms_core/utils/notify.py:16-25 | in every reachable state a subscriber can catch up by its own steps and a due announcement exactly when it is looking, up to date, or there is a permit or an announcement |
| Notify.WakeupLostIff | core/comms_core/utils/notify.py:16-25 | with appends under the lock that is held until they are announced, a wakeup can be lost exactly when there are two subscribers |
| RwLock.ReadWriteLock.TryRead | core/comms_core/utils/rw_lock.py:17-32 | a reader waits for an active writer only, and enters anyway after a timeout |
| RwLock.ReadWriteLock.ReleaseRead | core/comms_core/utils/rw_lock.py:34-38 | one reader less; the last one wakes the waiters |
| RwLock.ReadWriteLock.RequestWrite | core/comms_core/utils/rw_lock.py:40-42 | one waiting writer more |
| RwLock.ReadWriteLock.TryWrite | core/comms_core/utils/rw_lock.py:45-52 | a writer enters when there is neither writer nor reader |
| RwLock.ReadWriteLock.GiveUpWrite | core/comms_core/utils/rw_lock.py:46-55 | a waiting writer gives up; at the overall deadline the count drops by two |
| RwLock.ReadWriteLock.ReleaseWrite | core/comms_core/utils/rw_lock.py:57-60 | no writer is active; the waiters are woken |
| RwLock.LockIsExclusive | core/comms_core/utils/rw_lock.py:17-60 | for any number of acquisitions with timeouts, and stray releases that find no active writer: exact counts, at most one writer, no reader beside it unless one was forced in |
| RwLock.WritersNeverOverlap | core/comms_core/utils/rw_lock.py:40-60 | on the same runs two writers are never in together |
| RwLock.LockIsAsMeant | core/comms_core/utils/rw_lock.py:17-60 | on the same runs the counts decide as a lock that knows who holds it: readers wait for a writer, writers for everyone |
| RwLock.AdmittedIff | core/comms_core/utils/rw_lock.py:17-52 | whoever comes or checks again gets in exactly when no writer, for a writer also no reader, is in |
| RwLock.ReleaseFrees | core/comms_core/utils/rw_lock.py:34-60 | a holder that releases is gone, the others stay, and the lock is open accordingly |
| RwLock.GivingUpLeaves | core/comms_core/utils/rw_lock.py:46-55 | a waiter that gives up is gone and changes nothing else |
| RwLock.WaiterGetsIn | core/comms_core/utils/rw_lock.py:17-60 | from every state, once the holders have released, any waiting reader or writer gets in at its next check |
| RwLock.MixedIffForced | core/comms_core/utils/rw_lock.py:43-56 | on the same runs reader and writer are ever in together exactly when a timeout let a reader in beside a writer |
| RwLock.TimeoutMixes | core/comms_core/utils/rw_lock.py:17-32 | one reader timing out beside a writer is enough |
| RwLock.DeadlineMiscounts | core/comms_core/utils/rw_lock.py:46-55 | one writer meeting the overall deadline leaves `_writers_waiting` at -1 |
| RwLock.StrayReleaseHarmsIff | core/server_core/state_manager/session.py:249-258 | a release by a task that does not hold the lock can let two writers in, by steps of others, exactly when a writer is active |
| RwLock.StrayReleaseBreaksLock | core/server_core/state_manager/session.py:249-258 | a run of three writers, one of which times out and releases, that puts two in together |
| Broadcast.BroadcastChannel.Broadcast | core/comms_core/utils/broadcast.py:12-33 | every subscribed queue gets the value, a full one loses its oldest |
| Broadcast.BroadcastChannel.Subscribe | core/comms_core/utils/broadcast.py:35-39 | adds a new empty queue |
| Broadcast.BroadcastChannel.Unsubscribe | core/comms_core/utils/broadcast.py:41-47 | takes exactly that queue out |
| Broadcast.ReceiverIsSound | core/comms_core/utils/broadcast.py:12-33 | a queue is always a suffix of what was broadcast; values arrive in order, and one is missed only if `max_size` later ones came |
| Broadcast.LogIsSent | core/comms_core/utils/broadcast.py:12-33 | what the record says was broadcast is what was sent before the receiver unsubscribed |
| Broadcast.ReceiveTakesNext | core/comms_core/utils/broadcast.py:17-27 | a reception takes the next value that was sent and not dropped |
| Broadcast.ReceivedWasSent | core/comms_core/utils/broadcast.py:12-33 | the received values are values that were sent, in the order sent |
| Broadcast.ReceivesAllIff | core/comms_core/utils/broadcast.py:19-26 | what was received and what waits are together all that was sent, in order, exactly when the receiver never had `max_size` values waiting at a broadcast; otherwise as many are missing as were dropped |

## Left out

- PTY, process and ConPTY calls, gRPC, WebSocket, protobuf and zstd: messages and reports are abstract values, and reads are inputs.
- Loss inside the host (core/host_core/console_handler.py:134-138, core/host_core/Controller.py:159-173): `Replication` assumes a lossless channel; what holds under loss is in `Ledger`, `ShellStore` and `Checkpoint`.
- Waiting loops: the condition waits of the lock and of `Notify` are modelled one check at a time, with every wake-up order allowed, since a method cannot suspend.
- The session level of checkpoints: as written, the integer-keyed window sizes are looked up with a `Sid`, which never matches (core/server_core/state_capture/checkpoint.py:67-70, 87), and the counters are restored as objects; only the records of single shells are modelled.
- Session.Session.AddShell: the check for a used number and the insertion are one step, while the source waits for the write lock in between; the server handles what one host announces in order.
- Session.Session.CloseShell: marking and forgetting are one step, and the notice to the clients that follows is not modelled.
- Window sizes (beyond the one a checkpoint record carries), the list of shells sent to clients, users, chat and pings: map updates without interplay with the output.
- The Redis mesh and the transfer of sessions between servers.
- `IdCounter`: it reads before it locks, so that its numbers are unique only without interleaving.
- Cancellation of a subscription and the end of a session, except that the loop ends when the shell is closed or gone.
- The width of wire integers.
