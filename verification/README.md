# SavanXP kernel: verified core

A Dafny model of the parts of the SavanXP kernel whose correctness does not show in any one
function: the TCP stream (`kernel/net.cpp`), the write-back queue of the block layer
(`kernel/block.cpp`), the heap (`kernel/heap.cpp`), the framebuffer's damage tracking
(`kernel/fb_gpu.cpp`), physical memory (`kernel/physical_memory.cpp`), waiting on an address and
the process tree (`kernel/process.cpp`, `kernel/native_dispatch.cpp`), object waits
(`kernel/object.cpp`, `kernel/sx.cpp`), the ELF loader (`kernel/elf.cpp`), calendar arithmetic
(`kernel/fat_diskio.cpp`) and storage extents (`kernel/storage.cpp`, `kernel/partition.cpp`).

`dafny verify dfyconfig.toml` checks the whole project.

## How it is built

Each component is modelled twice and the two are tied together. Code that changes state in place is
a class whose methods keep the loops, pointers, arrays and branches of the source. Beside it stand
functions and relations on values, and each method's contract equates the new state with them. The
results that span several calls (whole runs, every interleaving, round trips) are lemmas about those
values.

| component | classes | values and run theorems |
|---|---|---|
| TCP | `TcpReceiver`, `TcpSocket` | `SequenceNumbers`, `TcpReassembly`, `TcpRanges`, `TcpRing`, `TcpEndpoint`, `TcpFin`, `TcpTransfer`, `TcpWriter`, `TcpReader`, `TcpWindow` |
| block layer | `BlockLayer` | `BlockLog`, `BlockQueue`, `BlockState` |
| heap | `HeapAllocator` | `HeapBlocks`, `HeapLinks`, `HeapState` |
| framebuffer | `FrameBuffer` | `FrameDamage`, `ScreenSession` |
| physical memory | `PhysicalMemory` | `FreeRegions` |
| wait on address | `ThreadTable` | `AddressWait` |
| process tree | `ProcessTable` | `ProcessTree`, `ProcessWaits` |
| object waits | `ObjectWait` | `ObjectWait` |
| ELF loader | `ElfLoader` | `ElfSegments` |
| storage | `Storage` | `StorageExtents` |
| checksum, calendar, shared arithmetic | `Checksum` (methods) | `Checksum`, `Calendar`, `FatTime`, `Division`, `Machine` |

What the kernel cannot decide is a parameter: whether a send leaves, what a driver or an allocation
answers, which pages are offered, the time, what a file system says. The theorems hold for every
choice.

## Main results

- **Stream safety.** In every run of two connected sockets over a network that loses, repeats and
  reorders, the bytes that arrived are a prefix of the bytes put on the wire by writes, in both
  directions at once, and a slot freed by an acknowledgement means they all arrived
  (`TcpTransfer.StreamSafety`). What write calls report, blocking ones included, is those bytes
  exactly when no call failed after its segment had left (`TcpWriter.ReportedIsWritten`). A read call
  reports the end of the stream only when every byte the peer wrote has been handed out
  (`TcpReader.EndMeansAll`).
- **Write-back is a synchronous disk.** What `read` returns is the device overlaid by the queue; it
  changes only by a write's own range, through merging, splitting and failed commands, and a flush
  orders the medium at every moment a power cut could choose (`BlockLayer`, `BlockState.CommandOrdered`).
- **Heap.** After every allocate and free the blocks tile their arenas, live payloads are disjoint,
  aligned and large enough, and the success of a request is characterized exactly; for a size whose
  end passes 2^64 the contract says what is written instead (`HeapAllocator.Heap.Allocate`).
- **Damage union.** In every session the screen shows the surface after every present
  (`ScreenSession.ScreenShowsSurface`), and the rule this needs of the client is exact
  (`FrameDamage.StalePresentExactly`).
- **No lost wake.** In every interleaving, a store between the load of the word and the park
  included, a parked thread sleeps on the value it expects or its wake is owed
  (`AddressWait.NoLostWake`).
- **Exact ancestry**, **conserved signals**, **write xor execute**, **calendar inverse**, **disjoint
  volumes**: see the table.

## Where the code does not do what one would expect

Each is a lemma with the exact condition, or a concrete case beside it.

- A write whose segment cannot be sent returns an error but leaves the segment armed, so the next
  timeout delivers bytes no write accepted (`TcpTransfer.FailedWriteLeaks`). So does a blocking write
  whose wait runs out after its segment left (`TcpWriter.ExpiredWriteArrives`).
- A blocking write answers success after the connection was given up or reset, with nothing delivered
  (`TcpWriter.GivenUpReportsSuccess`, `TcpWriter.ResetReportsSuccess`), and one that was waiting for
  the slot then arms its data on the dead connection (`TcpWriter.DeadConnectionArms`). Runs from every
  start end this way (`TcpWriter.GivenUpInARun`, `TcpWriter.ExpiredInARun`).
- An acknowledgement of data never sent does not move `send_unacked`, as the comment on it asks, but
  frees the slot and ends a blocking write with success all the same
  (`TcpWriter.UnsentAckReportsSuccess`).
- A FIN is taken although data is held beyond it; the bytes held are then read from the cell below
  their own (`TcpFin.LateRead` says exactly when a reader notices, `TcpFin.LostByte` is a case).
- A window update refused by the network card is recorded as sent and no later read repeats it
  (`TcpWindow.ReadUpdateExactly`, `TcpWindow.RefusedUpdateIsFinal`).
- The comment on the retransmission constants says about 12 s; the code gives up after 16.5 s
  (`TcpWindow.GivesUpAfterBackoff`).
- The heap's end-of-block test adds in 64 bits, so a request of 2^47 bytes passes it for a block of
  the direct map, and the trailing header is written at address 0x60 (`HeapBlocks.WrappedPlace`,
  `HeapBlocks.ComputeLayout`).
- An arena made for an alignment of 64 or 128 may not hold the request it was made for, in which case
  arenas are taken until one is refused (`HeapAllocator.FreshArenaFits`,
  `HeapAllocator.FreshArenaTooSmall`, `HeapAllocator.Heap.Allocate`).
- Of two threads of one process that wait for the same child, the second is left waiting for a pid
  that is gone when it has no other child to wait for (`ProcessWaits.SecondWaiterStuck`; exactly these
  exits do it: `ProcessWaits.ExitLeavesExactly`, `ProcessWaits.RunServesExactly`).
- A partial present after the screen was touched otherwise shows the right frame, and can make the
  next one wrong (`FrameDamage.FirstPresentMustBeWhole`). The comment at the top of
  `kernel/fb_gpu.cpp` that every present copies the whole surface describes an older version.
- A page count of 2^52 or more wraps when turned into bytes (`PhysicalMemory.BytesExact`).
- A wait for all of several handles that names one auto-reset object twice takes a signal and fails
  (`ObjectWait.Objects.TryConsume`, `ObjectWait.TwiceTheSame`).
- The loader's range check lets the end of a position-independent segment wrap around
  (`ElfSegments.PagesHoldSegment`, `ElfSegments.WrappedEndAccepted`).
- Dates round-trip exactly while the day count from year 0 fits 32 bits (`Calendar.CivilUndoesDays`).
- The day of a FAT date is not cut to its month: 31 February is read as a day of March
  (`FatTime.OverlongDay`, exactly which stamps return: `FatTime.UnpackRoundTrip`).

## Model

| member | source | states |
|---|---|---|
| `SequenceNumbers.SignedDistance` | kernel/net.cpp:321-335 | the signed 32-bit difference is the distance of two stream positions exactly when they are less than 2^31 apart |
| `SequenceNumbers.CompareWires` | kernel/net.cpp:321-335 | for near positions the four comparisons are the order of the positions, across any number of wraps |
| `SequenceNumbers.UnwrapWire` | kernel/net.cpp:321-335 | a position is recovered from its 32-bit form exactly by a near reference |
| `SequenceNumbers.ClipWires` | kernel/net.cpp:780-800 | cutting a segment to the window in 32-bit arithmetic is cutting it in stream positions, for every sequence number |
| `TcpReassembly.ReceiveSettled` | kernel/net.cpp:780-820 | any segment keeps the window's right edge, takes nothing readable back, loses no held byte, and leaves at most four runs beyond a gap, all strictly ahead and inside the window |
| `TcpReassembly.ReceiveStream` | kernel/net.cpp:780-820 | segments cut from one stream, in any order and overlap, bring in only that stream's bytes at their own places |
| `TcpReassembly.FinComplete` | kernel/net.cpp:1230-1242 | a FIN due at `recv_next` finds the whole stream arrived and nothing held beyond |
| `TcpRanges.RunsAreSpans` | kernel/net.cpp:718-775 | disjoint, non-touching ranges are exactly the runs of held positions |
| `TcpRanges.NoSlotLeft` | kernel/net.cpp:745-775 | a range is dropped only when recording it would need a fifth run |
| `TcpRanges.MergeKnown` | kernel/net.cpp:745-775 | merging a slot into the range being recorded keeps the positions of both |
| `TcpRing.FinMoves` | kernel/net.cpp:1236-1239 | moving `recv_next` past a FIN, whatever is held beyond it, makes each held byte the one in the ring cell below its own |
| `TcpReceiver.Receiver.StoreAt` | kernel/net.cpp:708-713 | bytes go round the ring to the cells of their positions and no other cell changes |
| `TcpReceiver.Receiver.AbsorbRanges` | kernel/net.cpp:718-740 | every range the in-order data reached becomes readable, repeated until none is reached, and no byte is lost |
| `TcpReceiver.Receiver.RecordRange` | kernel/net.cpp:745-775 | the range is merged with all it touches, transitively, keeping slots disjoint; refused exactly when all four are in use and none touches |
| `TcpReceiver.Receiver.ReceiveData` | kernel/net.cpp:780-820 | the ring, ranges and counters after a segment are the pure reassembly of the view, across 32-bit wrap |
| `TcpReceiver.Receiver.Dequeue` | kernel/net.cpp:822-833 | hands out the first readable bytes in order and leaves the rest, and what is held ahead, as it was |
| `TcpReceiver.Receiver.TakeFin` | kernel/net.cpp:1236-1239 | the ring after a FIN, with data held beyond it or not, shows the view in which held bytes are read from the cells below |
| `TcpFin.LateRead` | kernel/net.cpp:1230-1242 | after a FIN, for data that reaches the next position, the reader gets what was sent exactly when each byte held beyond the FIN and following on repeats the one in the cell below it |
| `TcpFin.LostByte` | kernel/net.cpp:1230-1242 | bytes 7 and 8 at positions 2 and 3, a FIN at 0, byte 5 at 1: whatever the ring held before, the reader gets 5, the byte left in the cell of position 1, and 7, never 5, 7, 8 |
| `TcpSocket.Socket.constructor` | kernel/net.cpp:1680-1703 | connecting puts a SYN in the retransmission slot and sends it |
| `TcpSocket.Socket.Send` | kernel/net.cpp:869-942 | a segment carries the current acknowledgement and window; the advertised window is recorded once the next hop is known, even if the send then fails |
| `TcpSocket.Socket.Arm` | kernel/net.cpp:947-970 | the segment is in the retransmission slot with a fresh timeout whether or not it left |
| `TcpSocket.Socket.CompleteSend` | kernel/net.cpp:974-985 | the slot is freed exactly by an acknowledgement at or past the end of its segment |
| `TcpSocket.Socket.ServiceSocket` | kernel/net.cpp:1011-1033 | a due timeout repeats the segment with the current acknowledgement and doubles the timeout up to the cap, or gives up after six repeats |
| `TcpSocket.Socket.TakeAck` | kernel/net.cpp:1186-1196 | an acknowledgement inside what was sent moves `send_unacked` and may free the slot |
| `TcpSocket.Socket.TakeSegment` | kernel/net.cpp:1216-1246 | data and FIN of any segment are taken where they are due, data held beyond the FIN included, and answered with one acknowledgement |
| `TcpSocket.Socket.DeliverTcp` | kernel/net.cpp:1163-1247 | any segment for the socket does to every field what `TcpEndpoint.Deliver` says, in every state |
| `TcpSocket.Socket.ReadSocket` | kernel/net.cpp:1890-1949 | a read is answered at once, with the next bytes of the stream also when the connection is gone, or left waiting, as the value function says in every state |
| `TcpSocket.Socket.ResumeRead` | kernel/net.cpp:1906-1949 | one turn of the wait: bytes, broken connection, end of the stream, would block, timeout, signal, in the order the source looks |
| `TcpSocket.Socket.HandOut` | kernel/net.cpp:1933-1949 | at most a segment of the next bytes is handed out and a window update sent exactly when the window became useful |
| `TcpSocket.Socket.WriteSocket` | kernel/net.cpp:1968-2025 | a write of at most one segment: refused, answered at once, or left waiting for the slot or for the acknowledgement, as the value function says in every state |
| `TcpSocket.Socket.ResumeWrite` | kernel/net.cpp:1860-1880 | one turn of either wait of a blocking write: slot freed, connection dead, signal, timeout, in the order the source looks |
| `TcpTransfer.StepKeeps` | kernel/net.cpp:944-1033 | every step of either end keeps the two-sided invariant: sound logs, sound slots, arrived a prefix of written |
| `TcpTransfer.StreamSafety` | kernel/net.cpp:1163-1247 | in every run, in both directions, what arrived is a prefix of the bytes writes put on the wire, and a freed slot of a live connection means all of them arrived |
| `TcpTransfer.FinFindsNothingAhead` | kernel/net.cpp:1230-1242 | whenever a FIN is due in a run, the whole stream has arrived and nothing is held beyond |
| `TcpTransfer.FailedWriteLeaks` | kernel/net.cpp:2003-2011 | from every such state of a run, a write whose segment does not leave makes the next timeout deliver bytes no write accepted |
| `TcpWriter.ReportedIsWritten` | kernel/net.cpp:1968-2025 | over every run of blocking and non-blocking writes whose sends leave, what the calls reported is what was put on the wire exactly when no call failed after its segment had left; the stream stays safe either way |
| `TcpWriter.SuccessMeansArrived` | kernel/net.cpp:1860-1880 | in every run a blocking write that answers success on a connection not aborted means everything written has arrived |
| `TcpWriter.GivenUpReportsSuccess` | kernel/net.cpp:987-998 | from every such state, giving up after six repeats makes the waiting call answer success although its bytes did not arrive |
| `TcpWriter.ResetReportsSuccess` | kernel/net.cpp:1860-1880 | so does any reset that arrives while the call waits |
| `TcpWriter.DeadConnectionArms` | kernel/net.cpp:1994-2011 | a call waiting for the slot when the connection dies arms its data on the dead connection, and only then reports the failure |
| `TcpWriter.ExpiredWriteArrives` | kernel/net.cpp:2017-2024 | from every such state, a call whose wait runs out reports nothing and its bytes arrive at the next timeout |
| `TcpWriter.GivenUpInARun` | kernel/net.cpp:987-1033 | from every start and for every data, a run in which nothing arrives and the blocking write reports all of it |
| `TcpWriter.ExpiredInARun` | kernel/net.cpp:2017-2024 | from every start and for every data, a run in which the blocking write reports a failure and its bytes arrive |
| `TcpWriter.FirstWriteLeaks` | kernel/net.cpp:2003-2011 | from every start the first write, if its segment does not leave, is delivered by the next timeout |
| `TcpWriter.FreedExactly` | kernel/net.cpp:974-985 | an acknowledgement, whatever its number, frees the slot exactly when it is at or beyond the end of what was sent; beyond it `send_unacked` does not move |
| `TcpWriter.UnsentAckReportsSuccess` | kernel/net.cpp:1186-1196 | a waiting call answers success exactly on an acknowledgement at or beyond the end: also on one of data never sent |
| `TcpReader.GotIsStream` | kernel/net.cpp:1890-1949 | in every run the bytes read calls handed out are a prefix of the peer's stream |
| `TcpReader.EndMeansAll` | kernel/net.cpp:1897-1918 | in every run a call reports the end of the stream only when the peer has closed and all it wrote was handed out, and a broken connection only when all that arrived was |
| `TcpReader.AnswersExactly` | kernel/net.cpp:1906-1931 | in every run a waiting call hands out bytes, reports a broken connection or the end of the stream exactly when bytes are left, the connection was aborted, or the FIN came |
| `TcpWindow.RightEdgeNeverMovesLeft` | kernel/net.cpp:915-917 | over every run, acknowledgement plus window announced never decreases, whatever arrives and whatever fails |
| `TcpWindow.NoSillyWindow` | kernel/net.cpp:1933-1948 | while sends succeed, no run leaves the peer on a window below a segment although a segment would fit |
| `TcpWindow.ReadUpdateExactly` | kernel/net.cpp:1933-1949 | a read keeps the peer on a useful window exactly when no update was due or the update left |
| `TcpWindow.RefusedUpdateIsFinal` | kernel/net.cpp:915-942 | after an update refused by the card, no number of reads sends another |
| `TcpWindow.UnresolvedUpdateIsRetried` | kernel/net.cpp:869-917 | after an update that failed before the next hop was known, the next read that takes a byte sends it |
| `TcpWindow.GivesUpAfterBackoff` | kernel/net.cpp:1011-1033 | an unacknowledged segment is repeated six times and the connection given up no sooner than 16.5 s after the first |
| `Checksum.DeferredCarry` | kernel/net.cpp:341-356 | adding in 32 bits and folding at the end is ones' complement addition word by word |
| `Checksum.Fold` | kernel/net.cpp:352-355 | folding terminates and keeps the sum modulo 65535, zero only for zero |
| `Checksum.ComputeChecksum` | kernel/net.cpp:341-356 | the complement of the ones' complement sum, for even and odd lengths up to 65535, the sum never passing 32 bits |
| `Checksum.ComputeTransportChecksum` | kernel/net.cpp:358-394 | the same behind the pseudo header, with 0 sent as 0xffff |
| `Checksum.ChecksumVerifies` | kernel/net.cpp:925-926 | a header with its checksum in the zeroed field adds up to all ones |
| `Checksum.TransportVerifies` | kernel/net.cpp:925-926 | pseudo header and segment with the checksum in the zeroed field add up to all ones, and it is never zero |
| `BlockLog.IssueWrite` | kernel/block.cpp:429-472 | issuing a write keeps done plus queued equal to issued, barriers included |
| `BlockLog.IssueBarrier` | kernel/block.cpp:474-506 | a flush is recorded, or left out when nothing was written or an ordering point already stands at the end; the order promised is kept |
| `BlockLog.BarrierLeftOut` | kernel/block.cpp:474-506 | leaving the flush out keeps the order promised exactly when nothing was written or an ordering point already stands at the end |
| `BlockLog.SkipBarrier` | kernel/block.cpp:132-150 | a queued ordering point may be skipped when nothing was written since the last flush |
| `BlockQueue.BatchOverlay` | kernel/block.cpp:159-196 | laying the merged records over the medium one by one is writing the merged batch |
| `BlockQueue.TornOverlay` | kernel/block.cpp:176-196 | whatever a failed command left in its range, the queue still covers it |
| `BlockState.QueueWriteGood` | kernel/block.cpp:99-108 | queueing keeps the invariant: overlay equals the disk seen, bytes counted, order kept |
| `BlockState.WriteBatchGood` | kernel/block.cpp:159-196 | a merged command and the removal of its records leave the disk seen unchanged |
| `BlockState.WritePartGood` | kernel/block.cpp:159-196 | so does writing part of the head record |
| `BlockState.TornGood` | kernel/block.cpp:176-184 | so does a command that failed half way |
| `BlockState.CommandOrdered` | kernel/block.cpp:132-196 | whatever is written next, even if torn, every write issued before a flush preceding it is on the medium |
| `BlockState.PowerCutOrdered` | kernel/block.cpp:132-196 | the same at any moment of the device's history |
| `BlockState.ThroughOrdered` | kernel/block.cpp:429-472 | a write straight to the device finds everything issued before it on the medium |
| `BlockState.DrainedIsDurable` | kernel/block.cpp:213-234 | an empty queue and a flushed device mean everything issued is durable |
| `BlockState.QueueBounded` | kernel/block.cpp:199-211 | the queue holds at most 8 MiB, or one oversized head record |
| `BlockLayer.Layer.Gather` | kernel/block.cpp:159-175 | the batch is the head from where it was left and the whole records continuing it, never more than the stage holds |
| `BlockLayer.Layer.Step` | kernel/block.cpp:132-196 | one step changes nothing a caller can see, and a successful one lowers the sectors or records left |
| `BlockLayer.Layer.MakeRoom` | kernel/block.cpp:199-211 | drains until the bytes fit, or reports a stuck queue; nothing visible changes |
| `BlockLayer.Layer.DrainAll` | kernel/block.cpp:213-234 | true means every deferring device is drained and flushed |
| `BlockLayer.Layer.OverlayQueued` | kernel/block.cpp:238-254 | the buffer becomes the device's range overlaid by the queue, oldest first |
| `BlockLayer.Layer.Read` | kernel/block.cpp:414-427 | returns exactly the synchronous disk's sectors |
| `BlockLayer.Layer.WriteCached` | kernel/block.cpp:429-472 | the synchronous disk changes in the write's own range and nowhere else; an error leaves it, or tears only that range; a device that does not defer gets the write at once |
| `BlockLayer.Layer.Flush` | kernel/block.cpp:474-506 | a barrier is issued on the device: in the queue, or, for a device that does not defer, as a command at once |
| `BlockLayer.Layer.Sync` | kernel/block.cpp:508-514 | true means everything issued on every deferring device is on the medium; a device that does not defer is sent nothing |
| `BlockLayer.Layer.Write` | kernel/block.cpp:528-530 | true means the write is on the medium and its range reads back, and a device that does not defer got it followed by a flush |
| `BlockLayer.Layer.Register` | kernel/block.cpp:278-314 | a device with sectors takes the first free slot, if and only if there is one, and no queued record is mistaken for its own; a device without sectors is refused |
| `BlockLayer.Layer.Unregister` | kernel/block.cpp:316-327 | a device goes only when nothing is queued for it |
| `BlockLayer.Continues` | kernel/block.cpp:159-175 | the 32-bit sum in the merge test never wraps |
| `BlockLayer.BytesCover` | kernel/block.cpp:110-118 | the byte counter never underflows |
| `HeapBlocks.ComputeLayout` | kernel/heap.cpp:138-163 | for every size, finds the lowest place in a block for an aligned payload that leaves nothing or a whole block in front, or none exists; a place it accepts is inside the block exactly when its end stays below 2^64 |
| `HeapBlocks.WrappedPlace` | kernel/heap.cpp:138-163 | 2^47 bytes pass the test in a block of 65440 bytes of the direct map, and the header after them falls at 0x60 |
| `HeapBlocks.CarveTiles` | kernel/heap.cpp:165-212 | carving keeps the blocks tiling the arena with no two free neighbours, and hands out an aligned block large enough |
| `HeapBlocks.ReleaseTiles` | kernel/heap.cpp:342-366 | giving back joins free neighbours and keeps the tiling |
| `HeapLinks.CommitRelinked` | kernel/heap.cpp:165-212 | the pointer writes of an allocation link exactly the pieces in and touch no other header |
| `HeapLinks.ReleaseRelinked` | kernel/heap.cpp:104-117 | the merges of a free link exactly the joined block in and touch no other header |
| `HeapState.LiveApart` | kernel/heap.cpp:319-340 | two live blocks, of whatever arenas, have no byte in common |
| `HeapState.ChangedGood` | kernel/heap.cpp:165-212 | replacing part of one arena's blocks keeps the whole heap sound |
| `HeapState.AcquiredGood` | kernel/heap.cpp:214-245 | a new arena at the front keeps the heap sound |
| `HeapState.DiscardedGood` | kernel/heap.cpp:258-278 | unlinking an empty arena keeps the heap sound |
| `HeapAllocator.Heap.constructor` | kernel/heap.cpp:308-313 | the heap starts with one arena, or unusable when there is none to be had |
| `HeapAllocator.Heap.FindBlock` | kernel/heap.cpp:280-289 | for every size, the first block in list order the test accepts, or no arena has a place; what it accepts is a place unless its end passes 2^64 |
| `HeapAllocator.Heap.Commit` | kernel/heap.cpp:165-212 | the headers in memory after an allocation are those of the carved list; past 2^64, exactly which headers were written |
| `HeapAllocator.Heap.MergeWithNext` | kernel/heap.cpp:104-117 | a free block swallows the free block behind it, once; a block in use is left alone |
| `HeapAllocator.Heap.Coalesce` | kernel/heap.cpp:358-363 | a block given back is joined with its free neighbours on both sides |
| `HeapAllocator.Heap.FullyFree` | kernel/heap.cpp:247-256 | recognizes exactly an arena that is one free block |
| `HeapAllocator.Heap.ReleaseArena` | kernel/heap.cpp:258-278 | an arena is unlinked exactly when all of it is free and it is not the last; its pages are free again unless the page allocator refuses them |
| `HeapAllocator.Heap.AcquireArena` | kernel/heap.cpp:214-245 | a new arena is one free block at the front of the list, taken exactly when the pages, computed in 64 bits, can be had |
| `HeapAllocator.Heap.Take` | kernel/heap.cpp:319-340 | a place exists and exactly one new block is live there, or nothing changes and there is no place; past 2^64, what is overwritten |
| `HeapAllocator.Heap.Allocate` | kernel/heap.cpp:319-340 | for every size: when the payload ends below 2^64, exactly one new block is live, aligned and large enough; otherwise what the call overwrote instead; a failure changes nothing live and means an arena was refused. Below 2^64 it succeeds exactly when there is a place or one new arena can be had and holds the request, and at most one arena is taken unless a new arena is too small for its request |
| `HeapAllocator.Heap.Free` | kernel/heap.cpp:342-366 | exactly the block given back is no longer live, and the used bytes fall by its size without underflow; null does nothing and a block given back twice panics |
| `HeapAllocator.Heap.SumBlockBytes` | kernel/heap.cpp:291-302 | the counted bytes are the free ones plus the used ones, and the used counter equals the count |
| `HeapAllocator.FreshArenaFits` | kernel/heap.cpp:214-225 | an arena holds the request it was made for exactly when, for alignments 64 and 128, the page rounding leaves the extra gap |
| `HeapAllocator.FreshArenaTooSmall` | kernel/heap.cpp:214-225 | 65376 bytes at alignment 64: a 16-page arena with no place for them |
| `HeapAllocator.NothingLiveIsWhole` | kernel/heap.cpp:342-366 | once nothing is live every arena is a single free block again |
| `FrameDamage.DamageUnion` | kernel/fb_gpu.cpp:784-820 | if the screen showed the surface as last presented, copying last damage and this damage shows it as it is, and the buffers stay in step |
| `FrameDamage.WholePresent` | kernel/fb_gpu.cpp:784-820 | a whole present shows the surface whatever was there before |
| `FrameDamage.TrustworthyIfSynced` | kernel/fb_gpu.cpp:784-820 | every declared present to come is right exactly when the hidden buffer agrees with the screen outside the remembered damage |
| `FrameDamage.StalePresentExactly` | kernel/fb_gpu.cpp:784-820 | after a partial present that copied everything, the remembered damage is right exactly when the old screen agreed outside those rectangles |
| `FrameDamage.FirstPresentMustBeWhole` | kernel/fb_gpu.cpp:784-820 | two partial presents after an unknown screen leave a wrong row |
| `ScreenSession.ScreenShowsSurface` | kernel/fb_gpu.cpp:784-820 | in every session of draws, presents, bypassing copies, releases and mode changes, each present leaves exactly the surface visible |
| `ScreenSession.StepKeeps` | kernel/fb_gpu.cpp:340-376 | every call keeps: screen equal to the last present, buffers in step, or no damage remembered |
| `FrameBuffer.Device.constructor` | kernel/fb_gpu.cpp:444-511 | a new mode has two buffers exactly when both fit and panning works, and no damage remembered |
| `FrameBuffer.Device.BlitRect` | kernel/fb_gpu.cpp:275-314 | one run or row by row, exactly the bytes of the rectangle become the source's; every other byte of video memory stays |
| `FrameBuffer.Device.BlitDamage` | kernel/fb_gpu.cpp:754-773 | all rectangles inside the surface are copied, others skipped; without a mode it fails exactly when there was something to copy |
| `FrameBuffer.Device.RememberDamage` | kernel/fb_gpu.cpp:95-107 | remembers up to 32 rectangles, otherwise everything |
| `FrameBuffer.Device.FlipBackBuffer` | kernel/fb_gpu.cpp:319-329 | the buffers change roles and the display's first line is the front buffer's |
| `FrameBuffer.Device.ComposeBack` | kernel/fb_gpu.cpp:800-816 | the hidden buffer gets everything or both damages, and the visible one is untouched; without a mode nothing is drawn |
| `FrameBuffer.Device.PresentSurfaceDamage` | kernel/fb_gpu.cpp:784-820 | video memory, offsets and remembered damage change as the value relation says, or, without a mode, not at all |
| `FrameBuffer.Device.Present` | kernel/fb_gpu.cpp:340-357 | a whole frame is shown and damage tracking starts over |
| `FrameBuffer.Device.PresentRegion` | kernel/fb_gpu.cpp:359-376 | a rectangle goes straight to the visible buffer and damage tracking starts over |
| `FrameBuffer.Device.ReleaseSurface` | kernel/fb_gpu.cpp:714-724 | damage remembered for the surface is forgotten with it |
| `FreeRegions.Canonical` | kernel/physical_memory.cpp:65-84 | sorted, separated region lists with the same free addresses are the same list |
| `FreeRegions.Taken` | kernel/physical_memory.cpp:147-170 | taking from the front of a region removes exactly those addresses and keeps the form |
| `FreeRegions.PagesCounted` | kernel/physical_memory.cpp:192-202 | pages summed by region are the size of the set of free pages |
| `PhysicalMemory.PageAllocator.constructor` | kernel/physical_memory.cpp:107-137 | the free addresses are those of the usable map entries, whole pages above the first megabyte; ready exactly when there is one, the direct map is known, and no entry finds the array full of the regions of those before it |
| `PhysicalMemory.PageAllocator.RemoveRegion` | kernel/physical_memory.cpp:38-48 | shifting removes exactly one entry; an index past the end does nothing |
| `PhysicalMemory.PageAllocator.InsertRegion` | kernel/physical_memory.cpp:50-63 | shifting inserts exactly one entry, or refuses |
| `PhysicalMemory.PageAllocator.MergeNeighbors` | kernel/physical_memory.cpp:65-84 | restores the form from one misplaced entry without changing which addresses are free |
| `PhysicalMemory.PageAllocator.AddFreeRegion` | kernel/physical_memory.cpp:86-101 | adds exactly the addresses given, aligned or not, also where some were free; refused exactly for an empty run or a full array |
| `PhysicalMemory.PageAllocator.AllocateContiguous` | kernel/physical_memory.cpp:147-170 | succeeds exactly when some region has room; returns free addresses of the first such region and removes exactly those |
| `PhysicalMemory.PageAllocator.FreePages` | kernel/physical_memory.cpp:172-182 | adds exactly the pages given, or says no and changes nothing |
| `PhysicalMemory.PageAllocator.FreePageCount` | kernel/physical_memory.cpp:192-202 | the size of the set of free pages |
| `PhysicalMemory.BytesExact` | kernel/physical_memory.cpp:152 | the byte count of a request is right exactly below 2^52 pages |
| `PhysicalMemory.FreeUndoesAllocate` | kernel/physical_memory.cpp:147-182 | giving back a fresh allocation restores the region array entry by entry |
| `AddressWait.NoLostWake` | kernel/process.cpp:2649-2739 | in every interleaving of stores, loads, parks, wakes and timeouts, once stores are announced, each parked thread sleeps on a word that holds its expected value |
| `AddressWait.StepSafe` | kernel/process.cpp:2683-2739 | every step keeps: a parked thread's word, and the word loaded by the thread that holds the lock, is unchanged or its wake is owed |
| `AddressWait.DecideSafe` | kernel/process.cpp:2683-2706 | parking after the load keeps this although the word may have changed in between |
| `AddressWait.OldestUnique` | kernel/process.cpp:2719-2737 | there is only one set of longest-parked threads of a given size |
| `AddressWait.ParkGood` | kernel/process.cpp:2700-2704 | a new ticket is newer than every parked one, so ticket order is parking order |
| `ThreadTable.Table.WaitOnAddress` | kernel/process.cpp:2683-2706 | parks exactly when size, alignment and access are good, the word still matches and there is time to wait |
| `ThreadTable.Table.ReadWord` | kernel/process.cpp:2666-2679 | the word of the size asked for |
| `ThreadTable.Table.WakeAddress` | kernel/process.cpp:2708-2739 | wakes exactly the min(count, parked) threads that parked first, with result 0, and no other |
| `ThreadTable.Table.WakeWaitTimeouts` | kernel/process.cpp:750-762 | exactly the waits whose deadline has come end with a timeout |
| `ProcessTree.TreeHolds` | kernel/process.cpp:1453-1523 | in every run in which init stays, each process has a live, older parent, none names a dead one, and no zombie in the table is waited for |
| `ProcessWaits.OnlyExitsLeave` | kernel/process.cpp:2051-2086 | no step but an exit leaves a thread waiting for a child that is gone: a wait never takes a child another thread waits for |
| `ProcessWaits.ExitLeavesExactly` | kernel/process.cpp:575-591 | the exit of a live process leaves nobody so exactly when no second thread that waits for it has no other child to wait for and is handed none |
| `ProcessWaits.RunServesExactly` | kernel/process.cpp:720-735 | throughout a run nobody waits for a child that is gone exactly when no exit in it is of that kind |
| `ProcessWaits.StuckForGood` | kernel/process.cpp:2062-2086 | a thread whose child is gone stays waiting through every further step but one of its own or the end of its process |
| `ProcessWaits.SecondWaiterStuck` | kernel/process.cpp:720-735 | two threads waiting for any child and for child 3: when 3 exits the first is released, 3 is reaped and the second waits for ever |
| `ProcessTree.TerminateKeeps` | kernel/process.cpp:1453-1523 | ending a process, whoever waits and whatever children it leaves, keeps the tree |
| `ProcessTree.ReparentKeeps` | kernel/process.cpp:593-605 | afterwards no process names the ended parent |
| `ProcessTree.ReapedForGood` | kernel/process.cpp:2051-2056 | a pid leaves the table exactly by being reaped and never comes back |
| `ProcessTree.OnlyZombiesReaped` | kernel/process.cpp:2051-2056 | only a process that has ended is reaped |
| `ProcessTree.Climb` | kernel/native_dispatch.cpp:375-388 | being an ancestor is being the parent or an ancestor of the parent |
| `ProcessTable.Table.constructor` | kernel/process.cpp:2580-2603 | at boot, idle processes and init form a good tree |
| `ProcessTable.Table.AllocateProcessSlot` | kernel/process.cpp:1112-1123 | a new pid in the first unused slot, or none is unused |
| `ProcessTable.Table.WakeWaitingParent` | kernel/process.cpp:720-735 | the first matching waiter is released and the child reaped, or an orphan reaped at once, or it stays a zombie |
| `ProcessTable.Table.ReparentOrphanedChildren` | kernel/process.cpp:593-605 | zombie children are reaped, live ones pass to init, others stay |
| `ProcessTable.Table.TerminateProcess` | kernel/process.cpp:1453-1523 | the whole table after an exit is the value function's, or as it was while another core runs a thread of the process, and the tree stays good |
| `ProcessTable.Table.WaitPidChild` | kernel/process.cpp:2062-2086 | a zombie child is reaped if and only if there is one; refused exactly without a child; otherwise the thread waits |
| `ProcessTable.Table.DescendsFrom` | kernel/native_dispatch.cpp:375-388 | the bounded walk decides exactly whether a chain of parents leads to the process |
| `ObjectWait.Objects.TryConsume` | kernel/sx.cpp:246-263 | wait-all takes one signal per handle or nothing, exactly when a target is not ready or there are enough signals; wait-any takes exactly the first ready |
| `ObjectWait.Objects.CanComplete` | kernel/sx.cpp:202-222 | all targets ready, or one of them |
| `ObjectWait.Objects.ConsumeAll` | kernel/sx.cpp:224-236 | the handles are served in order, all of them exactly when there are enough signals |
| `ObjectWait.Objects.ConsumeAny` | kernel/sx.cpp:238-244 | exactly the first ready target gives a signal |
| `ObjectWait.Objects.AcquireTarget` | kernel/object.cpp:641-653 | a ready target gives one signal unless it resets by hand |
| `ObjectWait.Objects.ReleaseSemaphore` | kernel/object.cpp:536-551 | the count grows by the amount, or the release is refused and nothing changes |
| `ObjectWait.DifferentIsEnough` | kernel/sx.cpp:224-236 | for pairwise different targets being ready is enough, so a wait-all is all or nothing |
| `ObjectWait.TwiceTheSame` | kernel/sx.cpp:224-236 | one event named twice: ready, not enough, and its signal is taken |
| `ObjectWait.SignalsConserved` | kernel/object.cpp:514-551 | over every run a semaphore's count stays in its bounds and equals first plus released minus acquired |
| `ElfSegments.NeverBoth` | kernel/elf.cpp:427-447 | no page is writable and executable, however many segments share it |
| `ElfSegments.ValidIsGood` | kernel/elf.cpp:393-428 | an accepted segment's pages lie in the user range below the stack guard |
| `ElfSegments.PagesHoldSegment` | kernel/elf.cpp:393-405 | the pages mapped hold the whole segment exactly when no 64-bit sum came around |
| `ElfSegments.WrappedEndAccepted` | kernel/elf.cpp:393-405 | a position-independent segment whose end wraps and is accepted |
| `ElfSegments.SegmentContent` | kernel/elf.cpp:507-531 | for segments apart in memory every byte is the segment's own file content, or zero |
| `ElfLoader.Space.Collect` | kernel/elf.cpp:349-469 | the table is accepted exactly when every segment is valid, no pair makes a page writable and executable, and the entry is in code |
| `ElfLoader.Space.PageFlags` | kernel/elf.cpp:480-490 | the union of the permissions of all segments on the page |
| `ElfLoader.Space.MapSegment` | kernel/elf.cpp:478-505 | every page of the segment is there, new ones zero, those there keep their bytes |
| `ElfLoader.Space.CopySegment` | kernel/elf.cpp:507-531 | page by page, exactly the file bytes land at their addresses; out of memory means one has no page, truncated means a read failed, and no page is lost |
| `ElfLoader.Space.Load` | kernel/elf.cpp:471-531 | every mapped byte is that of the last segment with file content there, or zero; whatever fails on the way, pages stay within their permissions |
| `ElfLoader.LoadedImage` | kernel/elf.cpp:471-531 | of a loaded image: no page writable and executable, every page in the user range, every byte of every segment in place |
| `Calendar.CivilUndoesDays` | kernel/fat_diskio.cpp:38-57 | for every valid date from 1970 the day number leads back to it, exactly while the count fits 32 bits |
| `Calendar.DaysUndoCivil` | kernel/fat_diskio.cpp:38-57 | every 32-bit day number leads back from its date; the date is one from 1970 on exactly when the shift by the epoch does not wrap |
| `Calendar.DaysCount` | kernel/fat_diskio.cpp:38-45 | day 0 is 1 January 1970 and each next day has the next number, across months, leap years and centuries |
| `FatTime.StampRoundTrip` | kernel/fat_diskio.cpp:84-118 | packing and unpacking gives the even second at or before, clamped to FAT's years, in two 16-bit fields |
| `FatTime.UnpackRoundTrip` | kernel/fat_diskio.cpp:84-118 | unpacking two 16-bit fields and packing them again gives them back exactly when they hold a date of the calendar and a time of the clock |
| `FatTime.OverlongDay` | kernel/fat_diskio.cpp:100-118 | a day past the end of its month is read as one of the next month |
| `StorageExtents.OverlapMeans` | kernel/storage.cpp:66-83 | the test finds exactly the extents with a sector in common |
| `StorageExtents.VolumesStayDisjoint` | kernel/storage.cpp:207-256 | over every run of mounts, unmounts, rescans and writes mounted volumes share no sector |
| `StorageExtents.WriteOnlyThere` | kernel/storage.cpp:306-323 | a raw write changes its own sectors and none of any mounted volume |
| `StorageExtents.RescanKeeps` | kernel/storage.cpp:350-370 | reading a table again leaves every mounted volume where it was |
| `Storage.Calls.AnyMounted` | kernel/storage.cpp:66-83 | whether some attached volume shares the range |
| `Storage.Calls.MountVolume` | kernel/storage.cpp:207-244 | a device is mounted only clear of every mounted volume; any other answer changes nothing |
| `Storage.Calls.Unmount` | kernel/storage.cpp:246-256 | the volume released goes exactly when it may and the file system lets it; the root and the boot volume stay |
| `Storage.Calls.Write` | kernel/storage.cpp:306-323 | success puts the data in the disk's own range; a failed write tears at most that range; any other answer changes nothing |
| `Storage.Calls.AddSlice` | kernel/partition.cpp:155-191 | a partition is cut to its disk and placed in the first free slot of both tables, exactly when it is not empty, begins on the disk and both have room |
| `Storage.Calls.Rescan` | kernel/storage.cpp:350-370 | only the partitions of a disk without mounted volumes are replaced: by the entries of its table that lie on it, in order, all of them unless a table is full; when one still has writes queued, those in slots before it are gone and the rest as they were |
| `Storage.Calls.Drop` | kernel/partition.cpp:421-439 | the partitions of a disk go slot by slot until one is busy, and the two tables stay in step |

## Left out

- TcpSocket.Socket.DeliverTcp: fewer than 2^30 FINs in a row without data in between, so that positions behind the window stay near.
- TcpSocket.Socket.TakeSegment: the same.
- TcpReceiver.Receiver.TakeFin: the same.
- TcpSocket.Socket.ReadSocket: a user buffer that cannot be written.
- TcpSocket.Socket.WriteSocket: a user buffer that cannot be read.
- TcpTransfer.StreamSafety: for runs in which the network delivers segments less than 2^31 bytes old and no write's send failed (`TcpTransfer.FailedWriteLeaks` says what happens otherwise).
- TcpTransfer.StreamSafety: safety only; that bytes do arrive needs a network that delivers.
- TcpWriter.SuccessMeansArrived: one direction; on an aborted connection the bytes may have arrived all the same, with only the acknowledgement lost.
- HeapAllocator.Heap.Allocate: for alignments that, added to an address of the heap, stay below 2^64.
- HeapAllocator.Heap.Free: for null or the address of some block of the heap; on any other address the source reads memory the model does not have and may panic.
- AddressWait.NoLostWake: tickets do not wrap, and threads of two processes that share memory do not meet, as in the source.
- ProcessTree.TreeHolds: pids do not wrap at 2^32, and init does not exit.
- Storage.Calls.Rescan: reading the table itself; what the GPT or MBR of the disk says is a parameter.
- Storage.Calls.MountVolume: path checks and the file system's own answer are parameters.
- ElfLoader.Space.Load: the header checks, the interpreter path and the initial stack are not modelled.
- ObjectWait.SignalsConserved: timers, events and thread ends are signals set and reset from outside.
- Closing a socket is a function on values only (`TcpEndpoint.Close`); the socket table around it is not modelled.
- TCP listening and accepting, ARP, UDP, ICMP, DHCP and the loss injector of the network code.
- The forced and idle draining of the block queue by timer: a step is a step, whoever takes it.
- Virtual memory beyond the pages of a new image, scheduling, signals, pipes and the file systems.
- Device drivers, buses and interrupts: register access against hardware.
- Access rights and credentials.
