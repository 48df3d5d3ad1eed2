# A verified model of the stateful cores of a lwIP 1.4.1 port and its proxy relay

The project models, in Dafny, the parts of this repository that keep hard state: the heap allocator, the
select/event-callback protocol and the TCP stream reader of the socket layer, the two-thread proxy relay, the
mailboxes of the thread port, the netconn request machine, the element pools, the DNS client and the DHCP options.
`dafny verify dfyconfig.toml` checks all of it.

| files | what they model |
|---|---|
| `Common` | two notions shared by several models |
| `HeapBlocks`, `HeapOps`, `HeapLaws`, `HeapLinks`, `Heap`, `HeapRuns` | `mem.c`: `mem_init`, `plug_holes`, `mem_malloc`, `mem_free`, `mem_trim` on `next`/`prev`/`used` fields in place; their meaning on lists of blocks; laws over several calls and whole runs |
| `SelectProtocol`, `SelectRuns` | `sockets.c`: `lwip_select`, `lwip_selscan` and `event_callback`, any number of threads, one step per protected region; whole runs told by the events that happened |
| `SocketReader` | `sockets.c`: `lwip_recvfrom` on a TCP socket; `api_msg.c`: `do_recv` |
| `RelayLane`, `Relay`, `RelayRuns` | `relay.c`: both relay threads, their crossbars, the in-place compaction of their arrays, and the main thread that adds connections; how the end of a stream is passed on, and what a turn of a thread looks at |
| `Mailbox`, `MailboxProtocol` | `sys_arch.c`: the mailbox in place, and any interleaving of its callers |
| `TcpWrite`, `Netconn`, `NetconnRuns` | `api_msg.c`: `do_writemore` as arithmetic; requests and callbacks of a TCP netconn; whole runs of one |
| `ListWalk`, `Memp` | `memp.c`: free lists threaded through the elements, and Floyd's cycle check |
| `DnsName`, `DnsTable` | `dns.c`: name encoder, walker and comparison; the table of requests under ticks, responses and requests |
| `DhcpOptions`, `Dhcp` | `dhcp.c`: the option writers and the option loop of the reply parser |

The central results, in one line each:

- A well-formed heap is determined by the memory it has handed out. From this one theorem follow that freeing what was
  just allocated restores the heap exactly, and that freeing everything, in any order, restores the initial block.
- First fit from the lowest-free pointer, with its early stop, finds the lowest fitting block of the whole heap, and
  fails only when no block fits; no block handed out has room to spare for another.
- No interleaving of selectors and event callbacks loses a wakeup: a sleeping selector with a pending event is signalled,
  or a callback for that socket has yet to visit it, through every restart of the walk; left to run it gets there. What
  is pending is what the events of the run have made of the socket, and nobody is signalled or turned back without cause.
- The relay keeps each direction's bytes in order without loss, passes on the end of a stream once all of it is written,
  destroys each connection once and touches none after; every turn of a thread looks at all its connections.
- A TCP reader gets the bytes that arrive, in order: each read returns the front of what was left over and the buffers
  its turns fetched, and leaves the rest for the next one.
- Mailbox traffic is a FIFO queue with room for exactly 127 messages, and one blocking consumer with any producers never gets stuck together.
- Every netconn request of a run is acknowledged exactly once, or is the pending one, whatever is retried on the way,
  up to the first `write_offset` assertion that fails.
- `memp_sanity` decides cycles exactly, and terminates, on every heap of list nodes.
- A DNS request is called back at most once and, unanswered, exactly at a computed tick, whatever else the table does.
- What the DNS encoder writes, the walker passes over and the comparison accepts; what the DHCP writers write, the
  parser reads back with first-occurrence semantics.

Where the code does not have a property for all inputs, the code is modelled as it is and the exact condition is proved:
`HeapLaws.BlockHoldsRequest` and `HeapLaws.TrimmedBlockHoldsRequest` (a size so large that rounding it wraps
`mem_size_t`), `DnsName.EncodingFitsReserve` and `DnsName.WalkFindsTheEnd` (long or empty labels),
`TcpWrite.StaleOffset` and `NetconnRuns.OnlyCuttingOffLeavesOffset` (the offset that a write cut off half-way leaves
behind, on which `NetconnRuns.CutOffWriteFailsAssertion` sees an assertion fail),
`SelectProtocol.WithoutLeftoverNothingIsMissed` with `SelectProtocol.LeftoverIsNotAnnounced` (leftover data is no event),
`MailboxProtocol.OnlyASecondFetcherIsUnsafe` with `MailboxProtocol.TwoFetchersLoseAWakeup` (a second blocking consumer),
`Dhcp.Received.ParseOptions` with `DhcpOptions.ShortPacketsAdvance` and `DhcpOptions.LongPacketNeedNotAdvance` (a 16-bit
offset, which cannot wrap in packets of up to 65280 bytes and can in every longer one; a UDP payload has up to 65507).
`Netconn.Conn.ErrTcp` says what would be forgotten if a close failed while a connect is outstanding; `tcp_close`
cannot fail then (src/lwip/core/tcp.c:221-227), and `NetconnRuns.NextIsSane` shows that no event leads there.

## Model

| member | source | states |
|---|---|---|
| `HeapBlocks.AlignSizeRounds` | src/lwip/core/mem.c:507-509 | rounding a request yields an aligned size that holds it, or zero exactly when adding the alignment leaves `mem_size_t` |
| `HeapBlocks.NeedIsAligned` | src/lwip/core/mem.c:509-514 | the size worked with is aligned, at least the minimum, and covers the request unless rounding wrapped; it exceeds the request by less than the alignment, or is the minimum |
| `HeapBlocks.LowestFreeIsUnique` | src/lwip/core/mem.c:294-295 | the block behind which everything lower is used is the one the lowest-free pointer means |
| `HeapOps.PlaceKeeps` | src/lwip/core/mem.c:548-588 | handing out a fitting block, split or whole, keeps the heap well formed, adds exactly its extent to the memory in use, and the `used` statistic grows by that extent |
| `HeapOps.PlaceIsTight` | src/lwip/core/mem.c:553-588 | a placed block holds what is needed, and less than would make another block |
| `HeapOps.CoalesceKeeps` | src/lwip/core/mem.c:236-268 | merging a freed block with its neighbours leaves no two free neighbours, no change in memory in use, and the lowest free offset where it was |
| `HeapOps.ReleaseKeeps` | src/lwip/core/mem.c:339-351 | freeing removes exactly the block's extent and keeps the heap well formed |
| `HeapOps.ShrinkKeeps` | src/lwip/core/mem.c:421-470 | trimming moves exactly the block's end, in all three cases, and keeps the heap well formed |
| `HeapOps.ShrinkIsTight` | src/lwip/core/mem.c:421-470 | so does a trimmed one; in front of a free block nothing is left over |
| `HeapLinks.Unlink` | src/lwip/core/mem.c:254-266 | the two pointer writes of `plug_holes` take one block out of the doubly linked list |
| `HeapLinks.Link` | src/lwip/core/mem.c:564-576 | the writes of a split put one free block into the list |
| `HeapLinks.Relink` | src/lwip/core/mem.c:422-445 | the writes that move the free block behind a trimmed one keep the list, although the old block is never unlinked |
| `HeapLinks.EndPrevUnread` | src/lwip/core/mem.c:292 | whatever the end marker's `prev` holds, the fields hold the same list |
| `Heap.Mem.constructor` | src/lwip/core/mem.c:273-302 | the fresh heap is valid: one free block up to the end marker |
| `Heap.Mem.PlugHoles` | src/lwip/core/mem.c:235-268 | in place, the list becomes the coalesced one, and `lfree` is the lowest free block even if it stood on a swallowed one |
| `Heap.Mem.PlugForward` | src/lwip/core/mem.c:248-256 | the forward half |
| `Heap.Mem.PlugBackward` | src/lwip/core/mem.c:258-267 | the backward half |
| `Heap.Mem.Free` | src/lwip/core/mem.c:310-356 | NULL does nothing, a pointer outside only counts as illegal, a used block is released; validity, `lfree` and statistics included |
| `Heap.Mem.FreeBlock` | src/lwip/core/mem.c:339-351 | the fields afterwards hold the released list |
| `Heap.Mem.Trim` | src/lwip/core/mem.c:368-482 | a size that rounds to more than the block holds is refused, a pointer outside ignored, otherwise the block shrinks to the rounded size, with less to spare than another block takes, and is returned; a size whose rounding wraps counts as the minimum |
| `Heap.Mem.TrimBlock` | src/lwip/core/mem.c:404-481 | the branches once the block is known |
| `Heap.Mem.TrimIntoNext` | src/lwip/core/mem.c:422-446 | the free block behind is moved down and `lfree` with it |
| `Heap.Mem.TrimOff` | src/lwip/core/mem.c:448-469 | the rest becomes a free block, which may become the lowest one |
| `Heap.Mem.Malloc` | src/lwip/core/mem.c:493-633 | NULL for zero or oversized requests; else the lowest fitting block of the heap, aligned, with less to spare than another block takes; or NULL with the error counted exactly when every free block is too small |
| `Heap.Mem.Allocate` | src/lwip/core/mem.c:532-632 | the same once the size is rounded: all free blocks below the one taken are too small |
| `Heap.Mem.MallocAndFree` | src/lwip/core/mem.c:335-351 | allocating and freeing again leaves blocks, `lfree` and the `used` statistic as they were |
| `Heap.Mem.FreeAgain` | src/lwip/core/mem.c:310-356 | freeing the block just placed gives back the heap it was placed in |
| `Heap.Mem.FindFit` | src/lwip/core/mem.c:535-549 | the scan stops at the first fit of the whole heap, or nothing fits anywhere |
| `Heap.Mem.TakeBlock` | src/lwip/core/mem.c:553-611 | the fields, `lfree` and the statistic after the block is taken |
| `Heap.Mem.SplitOff` | src/lwip/core/mem.c:564-576 | the in-place split |
| `Heap.Mem.NextFree` | src/lwip/core/mem.c:592-611 | the loop ends at the lowest free block or the end marker |
| `Heap.NoRoomBeyond` | src/lwip/core/mem.c:535 | behind the loop bound no block can fit, so stopping there is complete |
| `Heap.FreedIsLowest` | src/lwip/core/mem.c:343-346 | comparing with `lfree` keeps it lowest after a free |
| `Heap.ShrinkLowest` | src/lwip/core/mem.c:429-459 | where the lowest free block is after a trim, case by case |
| `Heap.PlaceLowest` | src/lwip/core/mem.c:592-611 | taking a block above `lfree` leaves `lfree` right |
| `HeapLaws.HeapIsDeterminedByUse` | src/lwip/core/mem.c:235-268 | two well-formed heaps that handed out the same memory are equal |
| `HeapLaws.MallocThenFree` | src/lwip/core/mem.c:548-611 | freeing the block just allocated restores every boundary and flag |
| `HeapLaws.FreeingAllRestoresInitial` | src/lwip/core/mem.c:273-295 | freeing all live blocks, in any order, leaves the initial heap |
| `HeapLaws.BlockHoldsRequest` | src/lwip/core/mem.c:485-518 | an allocated block holds the requested bytes if and only if rounding did not wrap |
| `HeapLaws.BlockSparesLittle` | src/lwip/core/mem.c:507-588 | what a block has to spare for a request is less than rounding adds, or the minimum, and another block takes |
| `HeapLaws.WrappedRequestExample` | src/lwip/core/mem.c:507-518 | a concrete request for which it does wrap |
| `HeapLaws.TrimmedBlockHoldsRequest` | src/lwip/core/mem.c:379-415 | a trimmed block holds the new size if and only if rounding it did not wrap; if it did, the block is cut to the minimum, although the size was more than it held |
| `HeapLaws.TrimmedBlockSparesLittle` | src/lwip/core/mem.c:379-470 | the same for a trim |
| `HeapLaws.WrappedTrimExample` | src/lwip/core/mem.c:379-446 | a concrete trim for which it does wrap |
| `HeapLaws.PlaceAligned` | src/lwip/core/mem.c:616-619 | the returned pointer and all boundaries are aligned |
| `HeapLaws.TrimAligned` | src/lwip/core/mem.c:379-384 | trimming keeps all boundaries aligned |
| `HeapRuns.RunsAreGood` | src/lwip/core/mem.c:310-633 | after every run the heap is well formed and its used blocks are exactly the live allocations, each holding what was last asked for and little more |
| `HeapRuns.Perform` | src/lwip/core/mem.c:310-633 | every call on the allocator in place is a step of such a run |
| `HeapRuns.LiveAllocationsApart` | src/lwip/core/mem.c:548-588 | live allocations are disjoint and inside the heap |
| `SelectProtocol.NextShape` | src/lwip/api/sockets.c:1138-1150 | every step keeps the list of selectors repetition-free and every up-to-date walker on a list entry |
| `SelectProtocol.NextCounts` | src/lwip/api/sockets.c:1152-1165 | `select_waiting` is always the number of selectors counted on that socket |
| `SelectProtocol.NextSignals` | src/lwip/api/sockets.c:1344-1349 | a signal that was sent is there until it is taken |
| `SelectProtocol.CallbackCovers` | src/lwip/api/sockets.c:1288-1318 | an event either finds nobody counted, or starts a walk that covers all who are owed a signal |
| `SelectProtocol.WalkCovers` | src/lwip/api/sockets.c:1319-1361 | a region of the walk, its restart and its end included, uncovers nobody who is owed a signal |
| `SelectProtocol.StepKeepsInv` | src/lwip/api/sockets.c:1138-1212 | every step of every thread keeps the protocol invariant |
| `SelectProtocol.RunsKeepInv` | src/lwip/api/sockets.c:1090-1362 | so does every run |
| `SelectProtocol.SleepersAreWoken` | src/lwip/api/sockets.c:1288-1361 | no lost wakeup over all interleavings |
| `SelectProtocol.OnlyLeftoverIsMissed` | src/lwip/api/sockets.c:1058-1063 | at the moment a sleeper misses something, it is leftover data without a pending receive event |
| `SelectProtocol.StaysScanned` | src/lwip/api/sockets.c:1167-1169 | as long as nobody leaves data over on a socket after its rescan, its scan stays true of the sleeper |
| `SelectProtocol.WithoutLeftoverNothingIsMissed` | src/lwip/api/sockets.c:1152-1183 | then nothing at all that a scan of the socket would report is missed |
| `SelectProtocol.LeftoverIsNotAnnounced` | src/lwip/api/sockets.c:711-721 | a run in which it is missed: a buffer arrives and is fetched, and what is not consumed is stored after the rescan |
| `SelectProtocol.OneRegionOn` | src/lwip/api/sockets.c:1324-1359 | each region of a covering walk signals the selector or comes one entry closer |
| `SelectProtocol.WalkSignals` | src/lwip/api/sockets.c:1324-1359 | a covering walk left to run signals the selector within as many regions as the list is long |
| `SelectRuns.EventSetsSocket` | src/lwip/api/sockets.c:1288-1307 | an event changes the pending count by one, makes the socket writable or not, or puts it in error, and touches no other socket |
| `SelectRuns.SocketsFollowEvents` | src/lwip/api/sockets.c:1288-1307 | after every run the pending count is the number of arrivals less that of fetches, the socket is writable as the last event about that said, and in error once there was one |
| `SelectRuns.EventsWake` | src/lwip/api/sockets.c:1288-1361 | a sleeper on reading, writing or exceptions is signalled or awaits a visit when more arrived than was fetched, when the last event said writable, when there was an error |
| `SelectRuns.EventWakes` | src/lwip/api/sockets.c:1296-1303 | so it is right after the event that makes the socket writable or is an error |
| `SelectRuns.ScanFindsReady` | src/lwip/api/sockets.c:1056-1075 | scanning a socket is a hit exactly if it is ready for what is asked; after the last one the selector sleeps exactly if there was no hit |
| `SelectRuns.HitMeansReady` | src/lwip/api/sockets.c:1167-1183 | in every run a selector turns back without sleeping only if a scan of its found a socket ready |
| `SelectRuns.SignalHasCause` | src/lwip/api/sockets.c:1324-1349 | a selector is signalled only by a callback that finds an event it asked for |
| `SelectRuns.WokenForCause` | src/lwip/api/sockets.c:1324-1349 | in every run the semaphore is binary, and set only after such a callback |
| `SelectRuns.SelectorGetsOn` | src/lwip/api/sockets.c:1138-1212 | a selector that does not sleep can always go on, and each step brings it closer to sleeping, turning back or being gone; waking up and timing out both lead to its being gone |
| `SelectRuns.OthersLeaveSelector` | src/lwip/api/sockets.c:1288-1361 | nobody else moves it |
| `SocketReader.Recved` | src/lwip/api/api_msg.c:1184-1189 | the window credit is passed on in pieces of at most 0xffff that sum to it |
| `SocketReader.WhatIsRefused` | src/lwip/api/sockets.c:585-625 | a turn finds no buffer exactly if nothing comes any more, nothing is there and it may not wait, or the fetch fails; and the error for each |
| `SocketReader.WhatStops` | src/lwip/api/sockets.c:644-665 | a turn is the last one exactly if it finds no buffer, its buffer carries PUSH, or no receive event is pending behind it |
| `SocketReader.Sock.Supply` | src/lwip/api/sockets.c:580-628 | a left-over buffer comes first; otherwise the fetched one, or the reason there is none |
| `SocketReader.Sock.CopyOut` | src/lwip/api/sockets.c:644-739 | the front of the unread bytes is copied, and consumed unless peeking; the buffer goes exactly when it is used up |
| `SocketReader.Sock.TakeTurn` | src/lwip/api/sockets.c:578-740 | one turn of the loop adds exactly the buffer it fetches to the stream, copies as much of the unread bytes as there is room for, and says exactly when it is the last |
| `SocketReader.Sock.ReadTurn` | src/lwip/api/sockets.c:578-740 | the same as the i-th turn of a call: what the call has read so far is what was unread and what its turns fetched, up to its length |
| `SocketReader.Sock.Gather` | src/lwip/api/sockets.c:578-740 | the loop ends; what is fetched are the buffers of the turns taken, one after the other, and it goes on past no stop |
| `SocketReader.ConsumedIsFront` | src/lwip/api/sockets.c:717-727 | if consumed and unread bytes are those fetched, in order, a read has returned the front of the stream and left the rest |
| `SocketReader.NothingBrought` | src/lwip/api/sockets.c:597-625 | a call that is refused with nothing read has fetched nothing |
| `SocketReader.Sock.ReadFrom` | src/lwip/api/sockets.c:578-740 | the loop returns the front of the unread bytes and the fetched buffers, and leaves the rest unread |
| `SocketReader.Sock.Recv` | src/lwip/api/sockets.c:558-741 | a call returns the first `len` bytes of those left over followed by the buffers its turns fetched, and leaves exactly the others for the next call; a short read leaves nothing; the window credit equals the bytes returned; a call with nothing to return whose last turn found no buffer fails with its error, or returns 0 at the end of the stream, and one that may not wait with nothing there fails with EWOULDBLOCK |
| `RelayLane.ReadKeeps` | examples/src/relay.c:196-200 | a read into the empty buffer keeps the byte stream and the token in one place |
| `RelayLane.WriteKeeps` | examples/src/relay.c:227-245 | so does a partial write with its memmove, and a full one that hands the buffer back |
| `RelayLane.ReadEndKeeps` | examples/src/relay.c:201-213 | at end of stream or error the token is dropped, and every byte read has been written |
| `RelayLane.WriteEndKeeps` | examples/src/relay.c:246-259 | a writer's end shuts the side that is read from for reading and drops that token and no other |
| `Relay.ReaderPass` | examples/src/relay.c:193-220 | the in-place pass over the readers keeps or removes exactly the entry it looks at |
| `Relay.WriterPass` | examples/src/relay.c:223-267 | the same for the writers |
| `Relay.QuietIsSame` | examples/src/relay.c:129-151 | emptying the crossbar, selecting and skipping move no token and no byte |
| `Relay.WriteDataIsWrite` | examples/src/relay.c:227-245 | a step of the thread on its arrays is the abstract write |
| `Relay.ReadDataIsRead` | examples/src/relay.c:196-200 | and the abstract read |
| `Relay.DropKeepsInv` | examples/src/relay.c:56-67 | closing by the two-party count destroys a connection exactly with its second dropped token |
| `Relay.StepKeepsInv` | examples/src/relay.c:113-269 | every step of every thread keeps the invariant and works on live memory |
| `Relay.RunsKeepInv` | examples/src/relay.c:113-269 | so does every run |
| `Relay.BytesArriveInOrder` | examples/src/relay.c:193-267 | in every run and direction, written bytes followed by the pending ones are the bytes read; after a shutdown none is missing |
| `Relay.DestroyedOnce` | examples/src/relay.c:44-67 | a connection is destroyed exactly when both tokens are dropped, and once |
| `Relay.NoStepTouchesDestroyed` | examples/src/relay.c:56-67 | no step works on a destroyed connection |
| `Relay.LaneFits` | examples/include/relay.h:33-43 | readers and writers of a direction are no more than the live connections |
| `Relay.ArraysFit` | examples/src/relay.c:139-147 | with at most `num_relays` live connections no array of a run overflows |
| `RelayRuns.ShutExactly` | examples/src/relay.c:201-259 | in every run a far side has been shut down for writing exactly if the reader of that direction met the end of the stream or an error, a near side for reading exactly if its writer did |
| `RelayRuns.EndIsPassedOn` | examples/src/relay.c:201-213 | from the end of the stream on, the far side stays shut down, all that was read has been written, and nothing more is read |
| `RelayRuns.TurnLooksAtAll` | examples/src/relay.c:188-267 | between a select that reports something and the end of the turn a thread looks at every connection it reads from and every job it writes, with the set of writable ones that select reported |
| `RelayRuns.PassGoesOn` | examples/src/relay.c:188-267 | within a turn a thread can always take a step, and each one is one closer to the end |
| `RelayRuns.TurnCountsDown` | examples/src/relay.c:188-267 | whatever the other threads do, a turn has as many steps left as it had less those taken |
| `RelayRuns.TurnEnds` | examples/src/relay.c:188-267 | it is over after one step for each entry and two more |
| `RelayRuns.AnyAnswerIsTaken` | examples/src/relay.c:185-266 | every answer of select, read and write has a step |
| `Mailbox.Mbox.constructor` | src/lwip/sys_arch.c:186-204 | a new mailbox is empty, nobody waits, no semaphore is set |
| `Mailbox.Mbox.Store` | src/lwip/sys_arch.c:241-253 | the ring, index and semaphore after a message is stored |
| `Mailbox.Mbox.PostEnter` | src/lwip/sys_arch.c:269-294 | a post stores the message if fewer than 127 are there and else counts itself as waiting |
| `Mailbox.Mbox.PostResume` | src/lwip/sys_arch.c:275-279 | the same after its wait, the count taken back first |
| `Mailbox.Mbox.TryPost` | src/lwip/sys_arch.c:224-258 | succeeds exactly with fewer than 127 messages, and else changes nothing |
| `Mailbox.Mbox.FetchRegion` | src/lwip/sys_arch.c:298-376 | takes the oldest message and signals a waiting sender, or finds the mailbox empty |
| `MailboxProtocol.StoreIsFifo` | src/lwip/sys_arch.c:241-249 | storing appends to the abstract queue despite the index reduction modulo 128 |
| `MailboxProtocol.RemoveIsFifo` | src/lwip/sys_arch.c:361-369 | fetching takes the head of the queue |
| `MailboxProtocol.FullMeans127` | src/lwip/sys_arch.c:224-294 | a post appends its message exactly if fewer than 127 are there; else a blocking one waits and a non-blocking one gives up |
| `MailboxProtocol.EmptyMeansNone` | src/lwip/sys_arch.c:298-376 | a fetch takes the oldest message exactly if there is one; else a blocking one waits until woken or timed out, and a non-blocking one gives up |
| `MailboxProtocol.RunsAreFifo` | src/lwip/sys_arch.c:224-377 | in every interleaving the fetched messages are the first posted ones in order, and at most 127 are stored |
| `MailboxProtocol.RunsKeepSenders` | src/lwip/sys_arch.c:272-279 | `wait_send` counts the senders, and a waiting one has something to wake it |
| `MailboxProtocol.RunsKeepBinary` | src/lwip/sys_arch.c:528-548 | the semaphore for a fetcher is at most 1 in every run, whatever the number of threads |
| `MailboxProtocol.OnlyASecondFetcherIsUnsafe` | src/lwip/sys_arch.c:344-359 | a step lets a fetcher wait on an unset semaphore of a non-empty mailbox exactly when it wakes one while messages are there and another fetcher waits |
| `MailboxProtocol.RunsKeepFetcher` | src/lwip/sys_arch.c:344-359 | with one blocking consumer, waiting on a non-empty mailbox means its semaphore is set |
| `MailboxProtocol.SomeoneCanGoOn` | src/lwip/sys_arch.c:482-553 | when a consumer and producers wait, one of them can go on |
| `MailboxProtocol.NeverAllStuck` | src/lwip/sys_arch.c:224-377 | consumer and producers are never all stuck, in any run |
| `MailboxProtocol.TwoFetchersLoseAWakeup` | src/lwip/sys_arch.c:251-253 | with two blocking consumers a wakeup can be lost: a concrete run after which one waits on an unset semaphore of a non-empty mailbox and no thread is on its way to take the message or to signal |
| `TcpWrite.HandsOverAPrefix` | src/lwip/api/api_msg.c:1237-1298 | whatever the pcb answers, `tcp_write` gets a prefix of the message in order, up to `write_offset` while the write goes on |
| `TcpWrite.BlockingWriteIsComplete` | src/lwip/api/api_msg.c:1281-1298 | a blocking write without timeout reports success only with the whole message handed over |
| `TcpWrite.AcceptingVisitsFinish` | src/lwip/api/api_msg.c:1281-1298 | every visit that accepts bytes shortens the rest, so enough of them finish the write |
| `TcpWrite.NothingOffered` | src/lwip/api/api_msg.c:1226-1240 | a timeout reports the bytes handed over, or that it would block if there are none; so does a non-blocking write without room |
| `TcpWrite.BytesOffered` | src/lwip/api/api_msg.c:1242-1312 | each visit offers the next bytes, as many as are left, as 16 bits count and as there is room for; what becomes of the write for each answer |
| `TcpWrite.AmpleRoom` | src/lwip/api/api_msg.c:1244-1298 | with ample room a blocking write takes one visit for every 65535 bytes or part of them |
| `TcpWrite.FatalErrors` | include/lwip/lwip/err.h:62-73 | the errors that make a connection unusable are those from ERR_ABRT on |
| `TcpWrite.StaleOffset` | src/lwip/api/api_msg.c:1223-1236 | exactly when a finished write leaves `write_offset` non-zero |
| `Netconn.Conn.constructor` | src/lwip/api/api_msg.c:571-640 | a fresh netconn is idle: no pcb, no request, no error, no connect flagged, nothing handed over |
| `Netconn.Conn.DoNewconn` | src/lwip/api/api_msg.c:547-561 | answered at once with what allocating the pcb came to |
| `Netconn.Conn.Offer` | src/lwip/api/api_msg.c:1221-1312 | the body of `do_writemore` computes the arithmetic of one visit |
| `Netconn.Conn.WriteMore` | src/lwip/api/api_msg.c:1207-1331 | a finished write clears `current_msg` before it acknowledges, once; an unfinished one stays pending |
| `Netconn.Conn.DoWrite` | src/lwip/api/api_msg.c:1342-1389 | refused at once with the last error, ERR_INPROGRESS or ERR_CONN, in that order, or begun, and then finished or pending |
| `Netconn.Conn.CloseInternal` | src/lwip/api/api_msg.c:746-822 | a close is acknowledged exactly when the pcb closes; else it stays pending |
| `Netconn.Conn.DoClose` | src/lwip/api/api_msg.c:1450-1482 | the answer of every state and kind of shutdown |
| `Netconn.Conn.DoDelconn` | src/lwip/api/api_msg.c:831-888 | ERR_INPROGRESS during a write or close, else done at once or the pending close |
| `Netconn.Conn.DoConnect` | src/lwip/api/api_msg.c:983-1032 | pending exactly for a blocking connect that got under way |
| `Netconn.Conn.DoListen` | src/lwip/api/api_msg.c:1063-1111 | state, pcb and error for every state and answer |
| `Netconn.Conn.Connected` | src/lwip/api/api_msg.c:936-973 | ends the connect and releases a blocked caller with the result |
| `Netconn.Conn.ErrTcp` | src/lwip/api/api_msg.c:346-404 | releases the pending caller with the error if and only if it is not a close during a non-blocking connect |
| `Netconn.Conn.Retry` | src/lwip/api/api_msg.c:276-337 | `sent_tcp` and `poll_tcp` retry what is pending and nothing else |
| `NetconnRuns.NextIsSane` | src/lwip/api/api_msg.c:276-1482 | no event breaks what a netconn keeps: the request in progress fits the state, an unfinished write is blocking and has bytes left, and no connect stays flagged on another state |
| `NetconnRuns.OnlyCuttingOffLeavesOffset` | src/lwip/api/api_msg.c:1223-1298 | an event leaves `write_offset` behind exactly when it ends a partly handed-over write by a timeout or a hard error |
| `NetconnRuns.CleanRunsLeaveNoOffset` | src/lwip/api/api_msg.c:1355-1360 | no `write_offset` assertion fails on a non-blocking netconn, nor as long as no write is cut off |
| `NetconnRuns.CutOffWriteFailsAssertion` | src/lwip/api/api_msg.c:1228-1240 | a concrete run in which it fails: a byte of two is handed over, the send timeout passes, and another write is requested |
| `NetconnRuns.Request` | src/lwip/api/api_msg.c:1355-1360 | unless it fails the `write_offset` assertion, a request gets one message with its data, which is answered once or left pending, and the netconn goes to the state the model of events says |
| `NetconnRuns.Callback` | src/lwip/api/api_msg.c:276-404 | a callback answers the pending request once or leaves it, and the netconn goes to the state the model of events says |
| `NetconnRuns.Run` | src/lwip/api/api_msg.c:276-1482 | a run takes every event up to the first one that fails a `write_offset` assertion; a request that happens fills its slot with its own message, which is acknowledged exactly once or is the pending one; the final state is that of the events taken |
| `NetconnRuns.CleanRun` | src/lwip/api/api_msg.c:276-1482 | all events are taken if the netconn is non-blocking or no write is cut off |
| `ListWalk.EndMeansNoCycle` | src/lwip/core/memp.c:190-196 | a walk that ends shows that the list has no cycle |
| `ListWalk.EndsOrRevisits` | src/lwip/core/memp.c:187-197 | over finitely many elements a walk ends or comes back to an element |
| `ListWalk.HareDecides` | src/lwip/core/memp.c:190-194 | the hare, one ahead and twice as fast, leaves the list or meets the tortoise |
| `Memp.HareMoves` | src/lwip/core/memp.c:190-191 | the guarded double jump is two steps along the list |
| `Memp.Pools.CheckList` | src/lwip/core/memp.c:187-197 | terminates, and says no exactly for a list that runs into a cycle |
| `Memp.Pools.Sanity` | src/lwip/core/memp.c:181-199 | returns 0 exactly when some pool's list contains a cycle |
| `Memp.Pools.constructor` | src/lwip/core/memp.c:337-375 | every element of every pool is on its pool's list |
| `Memp.Pools.Carve` | src/lwip/core/memp.c:358-368 | the inner loop puts the elements of one pool on its list and disturbs no other |
| `Memp.Pools.Malloc` | src/lwip/core/memp.c:405-417 | hands out the head of the list, which is then on no list, or NULL exactly for an empty or unknown pool |
| `Memp.Pools.Free` | src/lwip/core/memp.c:434-468 | puts the element back; the sanity check it ends with never fails |
| `Memp.Pools.UserWrites` | src/lwip/core/memp.c:405-417 | whatever users write into their elements, the lists stay as they are |
| `Memp.Pools.ListsEnd` | src/lwip/core/memp.c:434-468 | in every valid state no free list has a cycle |
| `DnsName.EncodeInto` | src/lwip/core/dns.c:587-602 | the encoder loop writes exactly the encoding, and nothing behind it |
| `DnsName.EncodeIsByLabels` | src/lwip/core/dns.c:591-601 | the encoding is each label behind its length, then a zero |
| `DnsName.EncodingFitsReserve` | src/lwip/core/dns.c:576-577 | the reserved bytes suffice exactly for names below 255 bytes |
| `DnsName.ParseName` | src/lwip/core/dns.c:527-548 | the walking loop computes where the name ends |
| `DnsName.CompareName` | src/lwip/core/dns.c:492-518 | the comparing loop reports a difference exactly at a differing byte of a label |
| `DnsName.WalkFindsTheEnd` | src/lwip/core/dns.c:527-548 | the walker ends one past the terminator if and only if no label is over 191 bytes and none but the first is empty |
| `DnsName.CompareAcceptsOwnEncoding` | src/lwip/core/dns.c:492-518 | a name never differs from its own encoding |
| `DnsName.NameRoundTrip` | src/lwip/core/dns.c:492-602 | for labels of 1 to 63 bytes: encode, walk, compare, in any surroundings |
| `DnsName.WalkEndsBehindLabels` | src/lwip/core/dns.c:527-548 | behind any labels the walker ends one past a zero and two past the first byte of a pointer, so compressed names included |
| `DnsName.DiffersInALabel` | src/lwip/core/dns.c:492-518 | the comparison reports a difference exactly if a label before the zero or the pointer differs |
| `DnsName.ComparesBytes` | src/lwip/core/dns.c:492-518 | against the encoding of another name it does so exactly if a byte of that name which is no dot differs |
| `DnsTable.CheckCountsDown` | src/lwip/core/dns.c:661-693 | a tick brings an unanswered entry exactly one tick closer to its timeout |
| `DnsTable.LastTickIsLast` | src/lwip/core/dns.c:661-693 | an entry has one tick left exactly when no wait, retry or server is left |
| `DnsTable.TimesOutExactly` | src/lwip/core/dns.c:661-693 | it times out at exactly the computed tick |
| `DnsTable.AskedAgain` | src/lwip/core/dns.c:661-687 | the r-th repetition of a query to a server comes after 1 + r(r-1)/2 ticks |
| `DnsTable.AsksNextServer` | src/lwip/core/dns.c:665-678 | after 1 + R(R-1)/2 ticks for R retries the next server is turned to, or the request is over if none is set |
| `DnsTable.PerServerIs` | src/lwip/core/dns.c:665-687 | R retries spend 1 + R(R-1)/2 ticks on a server |
| `DnsTable.RequestTimesOut` | src/lwip/core/dns.c:647-693 | a fresh entry runs out after S(1 + R(R-1)/2) ticks for the S servers set, within the bound for all N |
| `DnsTable.DefaultTimeout` | src/lwip/core/dns.c:661-687 | 14 ticks with the defaults |
| `DnsTable.CompletedExpires` | src/lwip/core/dns.c:695-703 | a completed entry is kept for exactly the ticks of its time to live, for 2^32 if that is zero |
| `DnsTable.OldestIsReplaced` | src/lwip/core/dns.c:867-891 | with no entry unused the one replaced is completed, and no completed one is older, unless `dns_seqno` has wrapped |
| `DnsTable.Table.CheckEntry` | src/lwip/core/dns.c:635-712 | an entry's next value, and its callback exactly at its timeout |
| `DnsTable.Table.Finish` | src/lwip/core/dns.c:672-677 | the callback is made once and the request is over |
| `DnsTable.Table.CheckEntries` | src/lwip/core/dns.c:717-725 | every entry gets exactly one check |
| `DnsTable.Table.Tick` | src/lwip/core/dns.c:302-309 | of the pending requests exactly those at their last tick are called back, the others come one tick closer, nothing else changes |
| `DnsTable.Table.Receive` | src/lwip/core/dns.c:758-843 | only a pending entry takes a response, and its request is then over |
| `DnsTable.Table.FindSlot` | src/lwip/core/dns.c:867-891 | the first unused entry, else the oldest completed one, else none; never a pending one |
| `DnsTable.Table.Enqueue` | src/lwip/core/dns.c:859-914 | the request is pending in exactly that entry, under the current number, all others unchanged, or refused |
| `DnsTable.Table.Occupy` | src/lwip/core/dns.c:897-910 | filling in the entry and sending its first query |
| `DnsTable.Table.Run` | src/lwip/core/dns.c:635-914 | in every run each callback is made at most once, exactly when its request is over |
| `DnsTable.Table.Unanswered` | src/lwip/core/dns.c:635-914 | no event but a response to its entry moves a pending request other than by its ticks |
| `DnsTable.Table.RunUnanswered` | src/lwip/core/dns.c:635-914 | in every run without a response to its entry, a request is called back, once, exactly when its ticks have run out |
| `DnsTable.Table.RequestUnanswered` | src/lwip/core/dns.c:635-914 | from its acceptance on, an unanswered request is called back exactly at tick S(1 + R(R-1)/2) |
| `DnsTable.OneSlot` | src/lwip/core/dns.c:867-891 | only one entry can take a request, and if there is one the request is accepted |
| `DhcpOptions.ScanEncoded` | src/lwip/core/dhcp.c:1380-1448 | reading the option list back from a packet yields the options written |
| `DhcpOptions.GoesForward` | src/lwip/core/dhcp.c:1448 | a step of the option loop goes forward exactly if the sum fits 16 bits |
| `DhcpOptions.ShortPacketsAdvance` | src/lwip/core/dhcp.c:1380-1448 | in packets of at most 65280 bytes the offset never wraps |
| `DhcpOptions.LongPacketNeedNotAdvance` | src/lwip/core/dhcp.c:1376-1448 | the bound is tight: for every greater length, and wherever the options start, there is a packet in which it wraps |
| `DhcpOptions.UnderstoodOptions` | src/lwip/core/dhcp.c:1392-1447 | the codes that are understood and the lengths each may have |
| `DhcpOptions.AcceptsExactly` | src/lwip/core/dhcp.c:1392-1447 | the parser accepts a list exactly when the lengths of all its known options fit |
| `DhcpOptions.StoreSets` | src/lwip/core/dhcp.c:1449-1475 | a value is stored once, at its index, and disturbs no lower one |
| `DhcpOptions.MissingBytesAreZeros` | src/lwip/core/dhcp.c:1450-1474 | a value that the packet cuts off is read as if followed by zeros |
| `DhcpOptions.FirstOccurrenceCounts` | src/lwip/core/dhcp.c:1454-1474 | each known option is given exactly if it occurs, with the number of its first occurrence |
| `DhcpOptions.SecondServerCounts` | src/lwip/core/dhcp.c:1410-1417 | the second DNS server is that of the first DNS option that names any |
| `Dhcp.LongRoundTrip` | src/lwip/core/dhcp.c:1293-1301 | a written 32-bit value is read back |
| `Dhcp.ShortRoundTrip` | src/lwip/core/dhcp.c:1285-1291 | a written 16-bit value is read back |
| `Dhcp.PaddedLenIs` | src/lwip/core/dhcp.c:1762-1767 | the padded length is the first from the end mark on that is at least 68 and a multiple of four, or all there is |
| `Dhcp.Outgoing.OptionLong` | src/lwip/core/dhcp.c:1293-1301 | appends the four bytes, most significant first |
| `Dhcp.Outgoing.OptionShort` | src/lwip/core/dhcp.c:1285-1291 | appends the two bytes, most significant first |
| `Dhcp.Outgoing.OptionTrailer` | src/lwip/core/dhcp.c:1755-1768 | appends the end mark and zeros up to the minimum and a multiple of four, as far as there is room |
| `Dhcp.Outgoing.OptionBytes` | src/lwip/core/dhcp.c:1278-1283 | appends the bytes in order |
| `Dhcp.Outgoing.WriteLongOption` | src/lwip/core/dhcp.c:299-303 | code, length and four bytes append one encoded option |
| `Dhcp.Outgoing.WriteShortOption` | src/lwip/core/dhcp.c:295-296 | code, length and two bytes append one encoded option |
| `Dhcp.Outgoing.WriteBytesOption` | src/lwip/core/dhcp.c:305-309 | code, length and any bytes append one encoded option |
| `Dhcp.Received.StoreValue` | src/lwip/core/dhcp.c:1449-1475 | the decode loop in place is the storing of one option |
| `Dhcp.Received.TakeOption` | src/lwip/core/dhcp.c:1379-1475 | one turn of the option loop refuses a bad length, and else steps behind the option, modulo 16 bits, having applied it |
| `Dhcp.Received.ParseOptions` | src/lwip/core/dhcp.c:1376-1488 | on any packet: either the offset wraps, which is decided by the packet alone, or the loop ends with the scanned options applied in order, ERR_VAL at the first bad length |
| `Dhcp.Received.ParseReply` | src/lwip/core/dhcp.c:1336-1511 | cleared first, too short a packet refused, the overload option taken out again |
| `Dhcp.WrittenIsParsed` | src/lwip/core/dhcp.c:1376-1488 | a list of encoded options behind any header is parsed into first occurrences with their numbers, or refused exactly for a bad length |
| `Dhcp.WriteAndParse` | src/lwip/core/dhcp.c:1267-1488 | the same for a message written by the writers, ended by the trailer and parsed, all in place |
| `Dhcp.WrittenNumber` | src/lwip/core/dhcp.c:1293-1301 | the number of a four-byte option is the value written |

## Left out

Repository parts not modelled: audio drivers and PortAudio, socket opening and argument parsing, TCP, UDP, IP, ARP, pbuf
and timer internals, `kv_server.c`, `util.c`, the netif list, getsockopt/setsockopt, error tables, SNMP headers, DHCP
leases and timers, the local DNS host list. What pcbs, sockets, select and thread scheduling answer is left open.

- Heap.Mem: the struct fields are arrays indexed by offset, so the overlap of headers with user data in one byte array is not captured; the mutex is not modelled (calls are atomic); pool-backed `mem_malloc` and the variant with frees from other contexts are left out. The comment in `mem.c` says that `plug_holes` is also called by `mem_trim`; the code does not, and the model follows the code.
- Heap.Mem.Free: the assertions that a pointer is aligned and legal (mem.c:320-323 and mem.c:390) and that a trim does not grow (mem.c:408) are taken to be empty, as LWIP_UNIX_EMPTY_ASSERT makes them, because the code behind them handles those cases; where they abort, the contract beyond them says nothing. The assertion that the block is used (mem.c:339) is a precondition, here and for `Heap.Mem.Trim`.
- HeapRuns.RunsAreGood: live allocations whose request wrapped `mem_size_t` are not claimed to hold it; `HeapLaws.BlockHoldsRequest` says exactly which.
- SelectProtocol.StepKeepsInv: here and in `SelectRuns`, `select_cb_ctr`, `select_waiting` and `rcvevent` are unbounded integers; sockets stay open; the first scan before registering, the final scan and the copying of the fd sets are not modelled; leftover data may appear and go at any time.
- SelectProtocol.SleepersAreWoken: says nothing for data left over from an earlier read, which is no event in the code; see `SelectProtocol.OnlyLeftoverIsMissed`.
- SocketReader.Sock.Recv: TCP sockets only, without the sender's address; fetches are given as a list of turns, after which nothing more arrives; the error of a failed fetch is its own code, not the errno made of it.
- SocketReader.Sock.Recv: peeking also opens the window in the code, so the credit is the bytes consumed plus the bytes peeked at.
- Relay.StepKeepsInv: closing and destroying are one step, as are a read with its hand-over and a write with its hand-over; allocation failures and the accept loop of the main thread are left out.
- Mailbox.Mbox: `first`, `last` and `wait_send` are unbounded; a mutex region is one step; freeing a mailbox is left out.
- MailboxProtocol.RunsKeepFetcher: holds for one blocking consumer only, which is how the stack uses its mailboxes; `MailboxProtocol.OnlyASecondFetcherIsUnsafe` says which step breaks it with more, `MailboxProtocol.TwoFetchersLoseAWakeup` gives a run.
- Netconn.Conn: TCP only; events to the socket layer, receive and accept mailboxes, core locking and `NETCONN_FLAG_CHECK_WRITESPACE` are left out; one application thread per netconn.
- Netconn.Conn.DoDelconn: the assertion that no blocking connect is in progress is a precondition. With two threads on one netconn the acknowledgements are counted per request, although the threads share one semaphore.
- NetconnRuns.Run: events that cannot happen where they stand are passed over; a run stops where the assertion about `write_offset` fails; whether the netconn is non-blocking does not change during a run.
- Memp.Pools: overflow guard regions and statistics are left out; elements are numbers in memory order.
- DnsName.CompareName: that it accepts only equal names is not claimed, and not so: it accepts a mere prefix and does not check separators, which `DnsName.ComparesBytes` makes exact; bytes behind the message read as zero.
- DnsTable.Table.Receive: whether a response is an error or an answer, and its time to live, is given; the parsing of answer records is left out. Callbacks do not call back into the client. A time to live of zero wraps around as in the code.
- DnsTable.Table.Enqueue: the age of completed entries is the C expression, negative once `dns_seqno` has wrapped; then the oldest is no longer what the name promises, and a table without pending entries can refuse a request.
- Dhcp.Received.ParseReply: one contiguous buffer; the model stops where the 16-bit offset wraps, and says so in its result; parsing the file and sname fields again for an overloaded message is left out, the result says when it would happen.
- Dhcp.Received.TakeOption: in a turn that wraps the offset, what is stored for the option is left open.
- Dhcp.Outgoing: the assertions on the space left are preconditions.
