# A model of the address-space manager and the TCP socket layer

This project models the two parts of a small seL4 user-space operating system that carry most of
its state, and a third that serves them:

* the **address-space manager and program loaders** of the kernel thread and the root task: the
  page index `mapped_page`, the retry loop that installs translation tables, the one-page copy
  window, mmap and munmap, the chunked copy between address spaces, the deep copy of an address
  space, the two ELF loaders and the builder of the initial stack;
* the **TCP socket layer** of the network thread: the compare-and-swap state word of a socket, the
  per-port listen table with its SYN queues, the ownership of socket handles, and the ephemeral
  ports;
* the **object allocator**, which hands out capability slots.

## How it is put together

`Machine.dfy` states what is assumed of seL4: frames of one page that are zero when they are
retyped, frame capabilities with at most one mapping, leaf entries, a tree of translation tables,
and calls that fail with the kernel's error and change nothing. Each `.unwrap()` of the code is an
assertion that the call returned `Ok`.

`TaskSpace.dfy` and `AddressSpace.dfy` hold the invariant (`MachineOk`, `TaskOk`, `SystemOk`) and
the three effects on an address space: a new page, new contents for a page, a page discarded.
Every operation is a method on mutable objects (`Kernel`, `Sel4Task`) that is proved equal to a
sequence of effects; every sequence of effects is proved to refine the same sequence on a plain map
from addresses to page contents (`EffectsOk`). What an operation means is then stated on plain maps
and byte by byte: `Mmap`, `CopyLoop`, `Output`, `Clone`, `Elf`, `Image`, `Tables`, `ChildSpace`,
`Stack`, `StackMapping`. `Runs.dfy` puts the operations together: over every run of calls the whole
machine refines a map from tasks to plain memories, and the page index agrees with the page tables.

`SocketState.dfy` interleaves any number of threads on one socket. `NetWorld.dfy` defines the
operations on socket set, listen table and sockets together, `NetRuns.dfy` proves what every run of
them keeps, and `NetStack.dfy` is the same layer in place (a map of live sockets, an array of table
entries, a cursor): each method is proved to compute the operation of `NetWorld`, keeps the invariant
and says what its caller gets. `NetReplies.dfy` tells the reply and the changes of each operation from
its inputs. `Resets.dfy` follows the handles of connections that are reset before
they are accepted, `LockOrder.dfy` the locks of the layer (port cursor, interfaces and devices, socket
set, table entries), and `AcceptRace.dfy` the three lookups of one accept. `SynQueue.dfy`,
`Ports.dfy` and `Allocator.dfy` hold the queue, the port scan and the slot allocator.

`dafny verify dfyconfig.toml` checks everything.

## What the code does not promise

Where a property one would expect is not true of the code, an input shows it and the exact condition
is proved:

* `sys_write` loops forever on an unmapped page: it ends if and only if every byte is mapped
  (`Output.TerminatesIff`; `Output.UnmappedNeverEnds`).
* The area that the free-area search finds may lie below the address that was asked for: a request
  for 0x10000 is given 0x6000 when 0x5000 is the only mapped page (`Mmap.BelowHintExample`). It does
  if and only if some mapped page ends below that address with enough room before the next mapped
  page (`Mmap.FreeAreaBelowHint`).
* The listen table has 0x2000 entries but ports go up to 0xffff, and an index beyond the table stops
  the program. An ephemeral-port scan yields a port if and only if one is free between its cursor and
  the end of the table, it never reports that ports are used up, and once port 0x1fff has been handed
  out the next scan leaves the table (`Ports.ScanInShortTable`, `Ports.LastPortStrandsCursor`). A
  first packet stops the program if and only if its port lies beyond the table, and `NetRuns.StopsIff`
  says the same of every operation (`NetRuns.PacketBeyondTable` is one such packet). With a table
  that covers the range the scan does what its text says (`Ports.ScanCorrect`).
* An accept that finds its connection already closed takes the handle out of the queue and leaves it
  in the socket set. A run shows it (`Resets.HandleIsLost`), no later run gives the handle a holder or
  removes it (`Resets.UnheldForever`), and some live handle is held by nobody if and only if an accept
  has reported a reset (`Resets.LostIffReset`).
* The allocators that do not look at the slot number may consume the first slot of a capability
  node, and the node of a first slot may be there already. No `unwrap` of a run fails if and only if
  every operation is provided for (`Allocator.GoesOnIff`), and a slot lies in an existing node if and
  only if its node was there or a checked allocation consumed that first slot (`Allocator.LandsIff`);
  `Allocator.UncheckedFirstSlotStops` and `Allocator.OccupiedNodeStops` are runs that stop.
* With two pollers of one connecting socket CONNECTED can be stored over BUSY
  (`SocketState.TwoPollersBreakIt`), and a failed poll can clear the addresses that a bind is writing
  (`SocketState.TwoPollersClash`). Over every run the state word, its history and the writers are in
  order if and only if every poll that stores CONNECTED finds the word CONNECTING or CONNECTED and
  every poll that stores CLOSED finds it not BUSY (`SocketState.SoundIffHarmless`); with one poller at
  a time, as the comments in the code assume, that is so (`SocketState.OnePollerIsHarmless`).
* Threads, each choosing its next operation whenever it holds no lock, can block each other for good
  if and only if one of them may work on a table entry for whose port another, polling, can meet a
  first packet, or may connect through an interface that another polls (`LockOrder.SticksIffCrossing`).
  Two blocking accepts on one port and two blocking connects through one interface are such threads
  (`LockOrder.TwoAcceptsStick`, `LockOrder.TwoConnectsStick`); one thread alone is safe.
* An accept looks at its connection three times. Its `unwrap` of the endpoints fails if and only if
  another thread's poll takes them away between the second and the third lookup
  (`AcceptRace.SafeIffNoHarm`; `AcceptRace.ResetInBetween` is such a run).

The documentation of `find_free_area` says that the area starts from `start`; the model follows the
code.

## Model

| member | source | states |
|---|---|---|
| TaskSpace.Sel4Task.MapPage | crates/kernel-thread/src/task.rs:151-177 | The bounded retry always reaches its Ok branch: the index sends the address to the capability, the record of page tables keeps its entries and gains, for each missing level in order, a new capability that holds the table of that level on the walk to the address; the end of the loop is not reached |
| TaskSpace.MapPageTables | crates/kernel-thread/src/task.rs:165-172 | The new entries of the record are capabilities that did not exist before, one for each missing level, each with the table of this vspace at that level |
| TaskSpace.InstallCompletes | crates/task-helper/src/lib.rs:107-134 | Answering each FailedLookup with a table leaves a complete chain after as many tables as levels were missing, and no frame, capability or entry has changed |
| TaskSpace.MissingShrinks | crates/task-helper/src/lib.rs:121-129 | Installing the highest missing table removes exactly that level from the missing ones |
| TaskSpace.InstallTables | crates/kernel-thread/src/task.rs:165-172 | The tables after the retries are the old ones and those of the missing levels, no others |
| TaskSpace.InstallSlot | crates/kernel-thread/src/task.rs:166-171 | The i-th retry puts the i-th missing table into the i-th new slot and no older slot changes |
| TaskSpace.Sel4Task.UnmapPage | crates/kernel-thread/src/task.rs:179-188 | The kernel call succeeds; capability, leaf entry and index entry go together |
| AddressSpace.EffectOk | crates/kernel-thread/src/task.rs:151-188 | Mapping a new frame, refilling a page and unmapping one each keep index, page tables and capabilities in agreement, touch no other vspace, and change the memory as the plain map does |
| AddressSpace.EffectsOk | crates/kernel-thread/src/task.rs:151-188 | The same for every sequence of such steps |
| AddressSpace.EffectsKeepSystem | crates/kernel-thread/src/task.rs:151-188 | Steps on one task keep the whole system in order and change the memory of no other task |
| AddressSpace.FramesPrivate | crates/kernel-thread/src/task.rs:151-177 | No two addresses of any tasks share a frame |
| AddressSpace.MapZeroed | crates/kernel-thread/src/child_test.rs:97-108 | The page-fault path maps one zeroed page at the aligned address |
| Window.OpenWindow | crates/kernel-thread/src/utils.rs:68-75 | Mapping a loose frame at the free window page succeeds |
| Window.CloseWindow | crates/kernel-thread/src/utils.rs:85 | Unmapping it again restores the machine up to the contents of frames |
| Window.TempCopy | crates/kernel-thread/src/utils.rs:58-90 | Slot 0 takes a copy of the capability and deleting it restores the capabilities |
| Window.FillFrame | crates/kernel-thread/src/task.rs:302-323 | Filling a frame through the window changes only the bytes written |
| Mmap.FindFreeArea | crates/kernel-thread/src/task.rs:139-149 | The loop over the index in ascending order computes the specified area |
| Mmap.FirstFit | crates/kernel-thread/src/task.rs:139-149 | The request, raised to 0x1000, if it fits below every mapped page, and otherwise the end of the first mapped page with enough room before the next one |
| Mmap.FreeAreaIsFree | crates/kernel-thread/src/task.rs:139-149 | The area is at or above the base of user space and no page of its page-rounded cover is mapped, whatever the hint |
| Mmap.FreeFromMisses | crates/kernel-thread/src/task.rs:140-146 | From any point of the scan the area it settles on misses every key |
| Mmap.FreeAreaBelowHint | crates/kernel-thread/src/task.rs:139-149 | The area lies below the address asked for if and only if some mapped page ends below it with enough room before the next mapped page |
| Mmap.FreeFromBelow | crates/kernel-thread/src/task.rs:141-146 | Once the scan has left the hint it stops behind the first page with room |
| Mmap.BelowHintExample | crates/kernel-thread/src/task.rs:139-149 | A request for 0x10000 that is given 0x6000 |
| Mmap.SysMmap | crates/kernel-thread/src/syscall/mm/mmap.rs:59-93 | Any protection bit outside 0x7 or flag outside 0x24033 is refused without any change; otherwise every byte of the range is mapped, the index gains exactly the aligned pages that share a byte with it and were not there, their bytes are zero and all old bytes are as before; without MAP_FIXED (0x10) none of them was there |
| Mmap.MmapIndex | crates/kernel-thread/src/syscall/mm/mmap.rs:73-90 | Which pages are mapped afterwards, and that every byte of the range is among them |
| Mmap.MunmapIndex | crates/kernel-thread/src/syscall/mm/mmap.rs:95-106 | Which pages are left, that no byte of the range is, and that the others keep their contents |
| Mmap.CoverMeets | crates/kernel-thread/src/syscall/mm/mmap.rs:73-80 | The pages of the loop are exactly the aligned pages that share a byte with the range |
| Mmap.MapRange | crates/kernel-thread/src/syscall/mm/mmap.rs:79-90 | The page loop skips mapped pages and maps the others |
| Mmap.SysUnmap | crates/kernel-thread/src/syscall/mm/mmap.rs:95-109 | Afterwards no byte of the range is mapped; exactly the mapped pages that share a byte with it are gone, and the others keep capability and contents |
| Mmap.UnmapRange | crates/kernel-thread/src/syscall/mm/mmap.rs:100-106 | The page loop unmaps what is mapped and skips the rest |
| Mmap.MapEffectsMemory | crates/kernel-thread/src/syscall/mm/mmap.rs:79-90 | On plain memory: old pages untouched, every other page of the range zero |
| Mmap.UnmapEffectsMemory | crates/kernel-thread/src/syscall/mm/mmap.rs:100-106 | On plain memory: the pages of the range are gone, the others untouched |
| Mmap.MmapKeepsIndex | crates/kernel-thread/src/syscall/mm/mmap.rs:82-84 | Every old index entry keeps its capability, with MAP_FIXED too |
| Mmap.MmapIsFresh | crates/kernel-thread/src/syscall/mm/mmap.rs:72-90 | Without MAP_FIXED no page of the cover was mapped before; each of them is new and zero and no other page changes |
| Mmap.MunmapUndoesMmap | crates/kernel-thread/src/syscall/mm/mmap.rs:95-109 | Unmapping the returned address and length restores index, leaf entries and memory exactly |
| CopyLoop.ChunkInPage | crates/kernel-thread/src/utils.rs:76 | All bytes of a chunk lie in one page |
| CopyLoop.ChunkTiles | crates/kernel-thread/src/utils.rs:76-83 | A chunk that is not the last ends at a page boundary |
| CopyLoop.ReachIsPrefix | crates/kernel-thread/src/utils.rs:56-95 | The loop handles exactly the bytes before the first unmapped page |
| CopyLoop.ReachAllIff | crates/kernel-thread/src/utils.rs:91-95 | It gets through if and only if every byte is mapped |
| CopyLoop.StoreChunk | crates/kernel-thread/src/utils.rs:57-90 | Copy, map, write, unmap and delete all succeed and change only the bytes written |
| CopyLoop.LoadChunk | crates/kernel-thread/src/utils.rs:57-90 | The same for reading: the machine is as before |
| CopyLoop.WriteLoop | crates/kernel-thread/src/utils.rs:41-96 | The loop with the writing callback: full length, or EFAULT after the prefix |
| CopyLoop.WriteItemList | crates/kernel-thread/src/utils.rs:148-166 | The number written exactly when every byte is mapped, otherwise EFAULT; the machine after it in both cases |
| CopyLoop.WriteSpecOk | crates/kernel-thread/src/utils.rs:41-96 | The write loop keeps the invariant, touches no other vspace and refines a write into plain pages |
| CopyLoop.WritePagesByte | crates/kernel-thread/src/utils.rs:154-165 | Byte by byte: the mapped prefix is written, no other byte changes, no page comes or goes |
| CopyLoop.ReadLoop | crates/kernel-thread/src/utils.rs:41-96 | The loop with the reading callback fills the buffer in place with the mapped prefix |
| CopyLoop.ReadItemList | crates/kernel-thread/src/utils.rs:118-140 | The buffer's front becomes the bytes read, the machine does not change, full length exactly when every byte is mapped |
| CopyLoop.ReadPagesByte | crates/kernel-thread/src/utils.rs:118-140 | The bytes read are those of the mapped prefix, in order |
| CopyLoop.WriteThenRead | crates/kernel-thread/src/utils.rs:118-166 | Reading back a range that was written returns the bytes |
| CopyLoop.WriteChangesOnly | crates/kernel-thread/src/utils.rs:148-166 | A write to one task changes no byte of any task but those written, and keeps the system in order |
| Output.SysWrite | crates/kernel-thread/src/syscall/fs/io.rs:10-65 | ENOSYS for other descriptors, whatever the buffer; otherwise exactly the task's bytes, in order, when all are mapped; the machine as before |
| Output.PrintLoop | crates/kernel-thread/src/syscall/fs/io.rs:19-63 | The loop over pages emits the bytes and counts them, leaving the window and slot 0 free |
| Output.TerminatesIff | crates/kernel-thread/src/syscall/fs/io.rs:19-63 | The loop ends after some number of turns if and only if every byte lies in a mapped page |
| Output.StuckForever | crates/kernel-thread/src/syscall/fs/io.rs:19-63 | With an unmapped byte no number of turns ends the loop |
| Output.UnmappedNeverEnds | crates/kernel-thread/src/syscall/fs/io.rs:19-63 | A one-byte buffer for which the loop never ends |
| Output.Finishes | crates/kernel-thread/src/syscall/fs/io.rs:19-64 | With all bytes mapped it ends, with exactly those bytes as output |
| Clone.CopyPage | crates/kernel-thread/src/syscall/thread/task.rs:246-295 | One page through two windows: every kernel call succeeds and all that remains is one new frame with the source's bytes |
| Clone.CopyThroughSeat | crates/kernel-thread/src/syscall/thread/task.rs:260-293 | The source page, seen through a temporary capability, is copied over the mapped destination frame |
| Clone.CloneVspace | crates/kernel-thread/src/syscall/thread/task.rs:240-299 | The loop maps one copy for each page of the source, in ascending order |
| Clone.CloneIsDeepCopy | crates/kernel-thread/src/syscall/thread/task.rs:240-299 | Cloning into an empty task gives it equal memory, changes no other task and keeps the system in order |
| Clone.CloneFramesNew | crates/kernel-thread/src/syscall/thread/task.rs:246-248 | Every frame of the clone is newer than every frame that existed |
| Clone.CloneIsIsolated | crates/kernel-thread/src/syscall/thread/task.rs:240-299 | After a clone no byte write to either task is visible in the other |
| Elf.LoadElf | crates/kernel-thread/src/task.rs:276-336 | The loader with its own index ends and does to machine and task what the specification says, unmapping and refilling shared pages |
| Elf.AcquireFrame | crates/kernel-thread/src/task.rs:291-299 | A page loaded earlier is unmapped and taken again, otherwise a new frame; either way the frame is ready to be filled and mapped |
| Elf.LoadSpecOk | crates/kernel-thread/src/task.rs:290-334 | Loading one segment on the machine refines loading it into plain pages |
| Elf.LoadPagesByte | crates/kernel-thread/src/task.rs:285-334 | The file bytes of a segment land at their addresses and no other byte changes, also on pages shared with other segments |
| Elf.LoadPagesKeys | crates/kernel-thread/src/task.rs:290-334 | Exactly the pages of the segment are added |
| Elf.LoadElfBytes | crates/kernel-thread/src/task.rs:276-336 | After loading, every byte of the image's pages is the image's, zero where no file byte falls, and every other byte is as before |
| Image.CoarsenFootprint | crates/common/src/utils.rs:148-154 | The least aligned range around a range |
| Image.FootprintHolds | crates/common/src/utils.rs:12-28 | The footprint is aligned and holds every page of every segment |
| Image.FootprintLeast | crates/common/src/utils.rs:12-28 | Every aligned range that holds all segments contains the footprint |
| Image.SegmentFits | crates/common/src/utils.rs:77-93 | No page index leaves the vector, the address of the first byte is right, and the data runs out exactly on the last page it spans |
| Image.FillDataIsWrite | crates/common/src/utils.rs:95-118 | The data loop of a segment is a plain write at the segment's address |
| Image.FillSegmentsByte | crates/common/src/utils.rs:77-119 | After all segments each byte of the footprint is the image's |
| Image.AllocFrames | crates/common/src/utils.rs:67-75 | One zeroed frame for each page of the footprint, in consecutive slots |
| Image.CopySegment | crates/common/src/utils.rs:95-118 | The copying loop through the window fills the frames as specified, every call succeeding |
| Image.MapFrames | crates/common/src/utils.rs:122-128 | The waiting frames are mapped in order, every call succeeding without new tables |
| Image.MapImage | crates/common/src/utils.rs:57-129 | The three phases together do to machine and index what the specification says |
| Image.MapImageBytes | crates/common/src/utils.rs:57-129 | Each byte of the footprint is the image's, zero where no file byte falls; every other byte is as before; the invariant holds |
| Image.MapImageIndex | crates/common/src/utils.rs:122-128 | The index gains exactly the pages of the footprint |
| Image.LoadersAgree | crates/kernel-thread/src/task.rs:276-336 | `load_elf` and `map_image` leave the same byte at every address of every segment, for any segments with file offsets congruent to their addresses, overlapping ones included |
| Tables.MapIntermediateTables | crates/common/src/utils.rs:31-54 | The tables of the vspace afterwards are exactly the aligned spans, on every level below the root, that share a byte with the footprint; each is mapped once, every parent before its child |
| Tables.WantedIff | crates/common/src/utils.rs:31-54 | The spans of the coarsened footprint are exactly the aligned ones that share a byte with the footprint |
| Tables.TableTurn | crates/common/src/utils.rs:40-52 | When a table's turn comes its parents are there and it is not, so the kernel puts it exactly at its level |
| Tables.Tiles | crates/common/src/utils.rs:38-41 | The spans of a level tile the coarsened footprint |
| Tables.CoarseNested | crates/common/src/utils.rs:37-38 | A deeper level's coarsened footprint lies within that of every level above |
| Tables.TablesComplete | crates/common/src/utils.rs:31-54 | Every address of the footprint has a complete chain of tables |
| ChildSpace.MakeChildVspace | crates/root-task/src/task.rs:199-232 | Tables, image and IPC buffer: every kernel call succeeds, the image's bytes are in place, the IPC buffer page right after them is zero, and the index holds the footprint's pages and that page, no others |
| ChildSpace.MapIpcBuffer | crates/root-task/src/task.rs:220-230 | The IPC buffer is mapped directly, without a retry, because its tables are there |
| Stack.ParseUndoesBuild | crates/kernel-thread/src/task.rs:190-274 | An independent parser that reads upwards from the stack pointer finds argc, the arguments in order, no environment and the auxiliary vector ending in AT_NULL |
| Stack.SpAlignment | crates/kernel-thread/src/task.rs:219-273 | The stack pointer is 16-byte aligned exactly when the number of arguments is odd |
| Stack.ArgsPacked | crates/kernel-thread/src/task.rs:215-230 | Each string starts at the highest multiple of 16 that leaves room for it and a NUL below the string before |
| Stack.ZeroElsewhere | crates/kernel-thread/src/task.rs:206-269 | The words fill the space between the stack pointer and the last string, and every byte that is in no string and no word is zero |
| Stack.AuxVectorIs | crates/kernel-thread/src/task.rs:243-258 | The auxiliary vector as it stands in memory, entry by entry |
| Stack.PutArgsReads | crates/kernel-thread/src/task.rs:215-230 | Each argument keeps a NUL-terminated copy while others are written below it |
| Stack.PushAllReads | crates/kernel-thread/src/task.rs:232-241 | Words pushed downwards are read upwards in reverse order |
| StackMapping.MapStack | crates/kernel-thread/src/task.rs:190-274 | The index gains exactly the aligned addresses from start to end; below the top page every new byte is zero, every old byte is as before; the stack pointer is returned, and an empty range changes nothing |
| StackMapping.StackIndex | crates/kernel-thread/src/task.rs:196-206 | Which pages are mapped afterwards, and the bytes of the old ones and of those below the top |
| StackMapping.StackPagesIff | crates/kernel-thread/src/task.rs:196-206 | The pages of the loop are exactly the aligned addresses of the range |
| StackMapping.WriteTopPage | crates/kernel-thread/src/task.rs:206-269 | Strings and words go through the window into the top frame, which is free again afterwards |
| StackMapping.WriteStrings | crates/kernel-thread/src/task.rs:215-230 | The string loop leaves the strings, their addresses and the next stack pointer |
| StackMapping.PushWords | crates/kernel-thread/src/task.rs:232-266 | The pushes leave the words below the strings |
| StackMapping.StackMapped | crates/kernel-thread/src/task.rs:190-274 | Mapping the stack keeps the invariant and adds its pages beside the old ones |
| StackMapping.MappedStackParses | crates/kernel-thread/src/task.rs:190-274 | A program started on the mapped stack finds its arguments in its own memory |
| Runs.CallRefines | crates/kernel-thread/src/task.rs:139-336 | Each call on a task does to its memory what the plain view of the call says |
| Runs.CallOk | crates/kernel-thread/src/task.rs:139-336 | Every allowed call keeps the system in order and changes one task's plain memory, no other's |
| Runs.FaultFixes | crates/kernel-thread/src/child_test.rs:97-108 | After a page fault the page of the faulting address is there and zero, and no other byte has changed |
| Runs.RunOk | crates/kernel-thread/src/child_test.rs:97-108 | Over every run of page faults, stack mapping, ELF loading, mmap, munmap, clone and writes the machine refines the plain run |
| Runs.IndexAgrees | crates/kernel-thread/src/task.rs:151-188 | In every state of every run the index sends an address to a capability if and only if the vspace maps it to that capability's frame |
| Runs.NoSharedFrames | crates/kernel-thread/src/task.rs:151-188 | In every state of every run no two addresses of any tasks share a frame |
| Runs.TablesPrivate | crates/kernel-thread/src/task.rs:151-177 | In every state of every run the record of page tables holds capabilities of tables of the task's own vspace, each once and in one task only |
| Runs.BootOk | crates/kernel-thread/src/utils.rs:34-39 | A machine without tasks whose window pages have their tables is in order |
| Allocator.ObjectAllocator.AllocateSlot | crates/common/src/obj_allocator.rs:51-68 | A number never handed out before, split into node and slot; the node's retype succeeds, and the node is there afterwards if the node of the next slot was |
| Allocator.ObjectAllocator.AllocateAndRetype | crates/common/src/obj_allocator.rs:70-88 | Both retypes succeed: the object is in a slot never used before, in a node that exists |
| Allocator.ObjectAllocator.AllocateUnchecked | crates/common/src/obj_allocator.rs:22-47 | A number never handed out before and no node made; whether the next slot still has its node depends exactly on this number |
| Allocator.StartReady | crates/common/src/obj_allocator.rs:17-20 | A start inside a node with no node beyond it is ready |
| Allocator.NeverTwice | crates/common/src/obj_allocator.rs:22-88 | Over every run no two operations hand out the same number |
| Allocator.NodesAfter | crates/common/src/obj_allocator.rs:51-68 | Exactly which nodes exist after any part of a run |
| Allocator.GoesOnIff | crates/common/src/obj_allocator.rs:51-88 | No `unwrap` or `expect` of a run fails if and only if every operation finds a number, an empty root slot for a node it makes, and a node and an empty slot for an object |
| Allocator.NodesAreNew | crates/common/src/obj_allocator.rs:56-65 | From a ready start every node is made in an empty root slot |
| Allocator.LandsIff | crates/common/src/obj_allocator.rs:22-88 | A slot lies in an existing node if and only if the node was there or a checked allocation consumed its first slot |
| Allocator.AllLand | crates/common/src/obj_allocator.rs:22-88 | From a ready start, when no unchecked allocation consumes a multiple of 4096, nothing stops the run and every slot lies in an existing node |
| Allocator.UncheckedFirstSlotStrands | crates/common/src/obj_allocator.rs:22-47 | A run in which an unchecked allocation leaves a slot without a node |
| Allocator.UncheckedFirstSlotStops | crates/common/src/obj_allocator.rs:70-88 | Making an object in such a slot stops the program |
| Allocator.OccupiedNodeStops | crates/common/src/obj_allocator.rs:56-65 | Making a node that is there already stops the program |
| SocketState.StepKeeps | crates/net-thread/src/smoltcp_impl/tcp.rs:555-574 | Every step of every thread that is not a harmful poll keeps the protocol's invariant and clashes with nobody |
| SocketState.ExchangeSucceeds | crates/net-thread/src/smoltcp_impl/tcp.rs:559-563 | An exchange gets in exactly from CLOSED for bind, connect and listen, from CONNECTED or LISTENING for the two halves of shutdown; the word is BUSY then and untouched otherwise |
| SocketState.FinishSettles | crates/net-thread/src/smoltcp_impl/tcp.rs:555-574 | From a thread's exchange to its finish, whatever the others do in between: a closure that failed leaves the word as the exchange found it, one that succeeded leaves CLOSED, CONNECTING or LISTENING by the operation |
| SocketState.StaysInside | crates/net-thread/src/smoltcp_impl/tcp.rs:564 | Until it finishes a thread stays inside the closure it entered, and its verdict is that of its own work |
| SocketState.PollSettles | crates/net-thread/src/smoltcp_impl/tcp.rs:616-644 | A poll leaves the word in SYN-SENT, stores CONNECTED when established and CLOSED in every other TCP state |
| SocketState.WorkChanges | crates/net-thread/src/smoltcp_impl/tcp.rs:178-196 | A connect that is taken sends a SYN, a shutdown of a stream ends the connection, no other closure touches it |
| SocketState.HistoryRecords | crates/net-thread/src/smoltcp_impl/tcp.rs:542-545 | Over every run the history only grows at its end, and its end is the word whenever the word is not BUSY |
| SocketState.HarmSpoils | crates/net-thread/src/smoltcp_impl/tcp.rs:616-644 | Every harmful poll leaves a state that is not in order |
| SocketState.SoundIffHarmless | crates/net-thread/src/smoltcp_impl/tcp.rs:555-644 | For any number of threads and pollers, every state of a run is in order and no step writes the addresses beside a closure if and only if every poll that stores finds the word as stated |
| SocketState.OnePollerIsHarmless | crates/net-thread/src/smoltcp_impl/tcp.rs:215-231 | With one poller at a time every poll is harmless |
| SocketState.BusyExactly | crates/net-thread/src/smoltcp_impl/tcp.rs:555-574 | With one poller the word is BUSY if and only if some thread is inside a closure, and then only one is |
| SocketState.OneWriter | crates/net-thread/src/smoltcp_impl/tcp.rs:632-637 | With one poller a failed poll never clears the addresses while a closure may be writing them |
| SocketState.OnlyDocumentedEdges | crates/net-thread/src/smoltcp_impl/tcp.rs:19-29 | With one poller settled states follow the documented edges, with CONNECTING to CLOSED on failure |
| SocketState.TwoPollersBreakIt | crates/net-thread/src/smoltcp_impl/tcp.rs:462-464 | Two threads that both found the word CONNECTING: the second stores CONNECTED over BUSY while a shutdown is inside its closure |
| SocketState.TwoPollersClash | crates/net-thread/src/smoltcp_impl/tcp.rs:632-637 | Or it clears the addresses while a bind is inside its closure |
| LockOrder.SticksIffCrossing | crates/net-thread/src/smoltcp_impl/mod.rs:260-327 | Idle threads with any repertoire of operations can get stuck if and only if two of them cross: work on an entry against a poll that can meet a packet for its port, or a connect against a poll of its interface |
| LockOrder.StuckCrosses | crates/net-thread/src/smoltcp_impl/listen_table.rs:91-145 | In every state of every run, among threads that wait for each other two cross |
| LockOrder.Drains | crates/net-thread/src/smoltcp_impl/mod.rs:260-327 | A thread that has given back an outer lock gives back the others before it does anything else |
| LockOrder.StuckForever | crates/net-thread/src/smoltcp_impl/listen_table.rs:36-42 | Threads that wait for each other's locks do so after every further run |
| LockOrder.EntrySticks | crates/net-thread/src/smoltcp_impl/listen_table.rs:119-125 | The run in which the worker has its entry and the poller the socket set before each asks for the other's |
| LockOrder.ConnectSticks | crates/net-thread/src/smoltcp_impl/tcp.rs:186-189 | The run in which the connector has the socket set and the poller the interface before each asks for the other's |
| LockOrder.TwoAcceptsStick | crates/net-thread/src/smoltcp_impl/tcp.rs:671-687 | Two blocking accepts on one port can get stuck once a first packet can come for it |
| LockOrder.TwoConnectsStick | crates/net-thread/src/smoltcp_impl/tcp.rs:166-233 | Two blocking connects through one interface can get stuck without any packet |
| LockOrder.OneThreadIsSafe | crates/net-thread/src/smoltcp_impl/mod.rs:221-273 | One thread alone never gets stuck, whatever operations it performs |
| AcceptRace.SafeIffNoHarm | crates/net-thread/src/smoltcp_impl/listen_table.rs:91-117 | For any number of threads, no accept of a run meets missing endpoints or is bound to if and only if no poll takes a connection's endpoints away while a thread is between its second and third lookup of it |
| AcceptRace.NeverTwice | crates/net-thread/src/smoltcp_impl/listen_table.rs:94-106 | In every interleaving no connection goes to two accepts |
| AcceptRace.DoomedForever | crates/net-thread/src/smoltcp_impl/listen_table.rs:159-166 | A thread whose connection has lost its endpoints then stays where it is until its `unwrap` fails |
| AcceptRace.OneThreadIsSafe | crates/net-thread/src/smoltcp_impl/listen_table.rs:91-117 | One thread alone never fails |
| AcceptRace.ResetInBetween | crates/net-thread/src/smoltcp_impl/listen_table.rs:109-112 | A run of two threads in which the `unwrap` fails |
| SynQueue.FirstConnected | crates/net-thread/src/smoltcp_impl/listen_table.rs:94-98 | Nothing before the index is connected and the handle at the index is |
| SynQueue.SwapRemoveMultiset | crates/net-thread/src/smoltcp_impl/listen_table.rs:106 | What is left is the same multiset without the handle taken |
| SynQueue.SwapRemoveAt | crates/net-thread/src/smoltcp_impl/listen_table.rs:106 | Which handle stands where after the swap-remove |
| SynQueue.AcceptKeepsOrder | crates/net-thread/src/smoltcp_impl/listen_table.rs:91-117 | Although the queue is reordered, the connected handles keep their order and the first of them is taken |
| NetRuns.StepKeeps | crates/net-thread/src/smoltcp_impl/tcp.rs:166-341 | Every operation, arriving connection and TCP state change keeps ownership of handles and agreement of table and listeners |
| NetRuns.RunKeeps | crates/net-thread/src/smoltcp_impl/listen_table.rs:65-145 | In every reachable world: each held handle is live and held once, the live sockets are those of sockets, queues and reset accepts, queues are within LISTEN_QUEUE_SIZE, and a port has an entry if and only if exactly one socket listens on it |
| NetRuns.StopsIff | crates/net-thread/src/smoltcp_impl/listen_table.rs:61-125 | Exactly which operations index the table out of bounds: a packet or a listen with a port from 0x2000 on, and a bind, connect or listen that needs a port when none is free up to the table's end |
| NetRuns.PacketBeyondTable | crates/net-thread/src/smoltcp_impl/listen_table.rs:119-125 | A first packet for port 0x2000 stops the program in every reachable world |
| Resets.ResetLosesHandle | crates/net-thread/src/smoltcp_impl/listen_table.rs:106-111 | An accept that reports a reset leaves the handle it took live and held by nobody |
| Resets.UnheldStep | crates/net-thread/src/smoltcp_impl/mod.rs:270-273 | Every operation leaves such a handle live and unheld |
| Resets.UnheldForever | crates/net-thread/src/smoltcp_impl/mod.rs:270-273 | So does every later run |
| Resets.HeldCount | crates/net-thread/src/smoltcp_impl/tcp.rs:54-76 | There are as many held handles as sockets and queue places together |
| Resets.LostIffReset | crates/net-thread/src/smoltcp_impl/listen_table.rs:106-111 | In every reachable world some live handle is held by nobody if and only if an accept has reported a reset |
| Resets.HandleIsLost | crates/net-thread/src/smoltcp_impl/listen_table.rs:91-117 | A run from the start that loses a handle for good |
| NetRuns.StartOk | crates/net-thread/src/smoltcp_impl/listen_table.rs:50-59 | The empty table and socket set satisfy the invariant |
| NetRuns.TouchedLive | crates/net-thread/src/smoltcp_impl/mod.rs:221-273 | In every reachable world the handles an operation looks up or removes are live |
| NetRuns.RemovedOnce | crates/net-thread/src/smoltcp_impl/tcp.rs:691-699 | Dropping a listener removes its own handle and its queue's, each once |
| NetRuns.EntryEndsWithListener | crates/net-thread/src/smoltcp_impl/tcp.rs:311-341 | An entry goes away if and only if its own listener is shut down or dropped, so never by closing an accepted connection |
| NetRuns.StepFollowsEdges | crates/net-thread/src/smoltcp_impl/tcp.rs:19-29 | Across every operation the state of a socket follows the edges of the compare-and-swap protocol, and new sockets are closed or accepted |
| NetRuns.RunKeepsPorts | crates/net-thread/src/smoltcp_impl/tcp.rs:599-614 | In every reachable world a connecting, connected or listening socket has a non-zero local port |
| NetRuns.BoundedWaiting | crates/net-thread/src/smoltcp_impl/listen_table.rs:91-145 | An established connection at index j is taken within j + 1 accepts, whatever other operations and arrivals come in between |
| NetRuns.AcceptForward | crates/net-thread/src/smoltcp_impl/listen_table.rs:94-106 | An accept takes the handle or brings it one place forward |
| NetRuns.AcceptTakes | crates/net-thread/src/smoltcp_impl/listen_table.rs:91-117 | An accept on a listener would block if and only if every queued connection is in LISTEN or SYN-RECEIVED; otherwise the first that is in neither leaves the queue, and becomes a connected socket on the listener's port or is reported reset, the latter exactly in CLOSED |
| NetRuns.OthersStay | crates/net-thread/src/smoltcp_impl/listen_table.rs:119-145 | No other operation moves a waiting handle |
| NetWorld.AcceptOwned | crates/net-thread/src/smoltcp_impl/tcp.rs:296-308 | Accepting hands exactly one handle from the queue to the new socket, or counts it as reset |
| NetWorld.IncomingOwned | crates/net-thread/src/smoltcp_impl/listen_table.rs:119-145 | An arriving connection adds one live handle to one queue, within the bound |
| NetWorld.UnlistenOwned | crates/net-thread/src/smoltcp_impl/listen_table.rs:36-42 | Dropping an entry removes exactly the handles of its queue and leaves every other holder its handle |
| NetWorld.DropOwned | crates/net-thread/src/smoltcp_impl/tcp.rs:691-699 | Dropping a socket removes its handle and keeps the ownership of all others |
| NetWorld.ListenAgrees | crates/net-thread/src/smoltcp_impl/tcp.rs:277-288 | Listening adds an entry exactly for the new listener |
| NetWorld.ShutdownAgrees | crates/net-thread/src/smoltcp_impl/tcp.rs:311-341 | Shutting down removes the entry exactly for a listener |
| NetWorld.QueuedUpdate | crates/net-thread/src/smoltcp_impl/listen_table.rs:91-145 | Changing one entry changes the number of queued handles by the difference of its queue |
| NetStack.Stack.constructor | crates/net-thread/src/smoltcp_impl/listen_table.rs:50-59 | The initial layer is the empty world and satisfies the invariant |
| NetStack.Stack.RemoveAll | crates/net-thread/src/smoltcp_impl/listen_table.rs:36-42 | The drop loop removes exactly the queue's handles, each live when its turn comes |
| NetStack.Stack.Unlisten | crates/net-thread/src/smoltcp_impl/listen_table.rs:78-81 | The entry and its queue's handles go together |
| NetStack.Stack.TableListen | crates/net-thread/src/smoltcp_impl/listen_table.rs:65-76 | A free port gets an entry with an empty queue, a used one is refused |
| NetStack.Stack.FirstReady | crates/net-thread/src/smoltcp_impl/listen_table.rs:94-98 | Every handle before the index is in LISTEN or SYN-RECEIVED and the one at the index in neither; only live handles are looked up |
| NetStack.Stack.TableAccept | crates/net-thread/src/smoltcp_impl/listen_table.rs:91-117 | Would block if and only if every queued connection is in LISTEN or SYN-RECEIVED; otherwise a handle in neither state leaves its queue by swap-remove, reset exactly in CLOSED |
| NetStack.Stack.IncomingTcpPacket | crates/net-thread/src/smoltcp_impl/listen_table.rs:119-145 | For every port: stops exactly beyond the table, computes the operation of the world model, touches no other handle and keeps the invariant |
| NetStack.Stack.NewSocket | crates/net-thread/src/smoltcp_impl/tcp.rs:54-64 | A closed, unbound socket with a closed connection of its own; other sockets, the table and the invariant are kept |
| NetStack.Stack.BoundEndpoint | crates/net-thread/src/smoltcp_impl/tcp.rs:599-614 | Never port 0; the bound port, or one inside the table that no listener has |
| NetStack.Stack.Bind | crates/net-thread/src/smoltcp_impl/tcp.rs:241-271 | On success the address and port asked for, or a port no listener has; other sockets and the invariant are kept |
| NetStack.Stack.Listen | crates/net-thread/src/smoltcp_impl/tcp.rs:277-288 | On success a closed socket listens and its port, which is not 0, has an entry with an empty queue; other sockets and the invariant are kept |
| NetStack.Stack.ListenOn | crates/net-thread/src/smoltcp_impl/tcp.rs:279-285 | Stopped, refused or listening, by whether the port is beyond the table, used or free |
| NetStack.Stack.Connect | crates/net-thread/src/smoltcp_impl/tcp.rs:166-213 | On success the handshake is under way from a non-zero port, the bound one if there was one; otherwise no socket and no connection has changed; the invariant is kept |
| NetStack.Stack.PollConnect | crates/net-thread/src/smoltcp_impl/tcp.rs:616-644 | Connecting exactly while the handshake lasts, connected exactly when it succeeded, unbound when it failed; other sockets and the invariant are kept |
| NetStack.Stack.Accept | crates/net-thread/src/smoltcp_impl/tcp.rs:296-308 | One attempt to accept, looking up live handles only: a new connected socket on the listener's port whose connection is past its handshake and not closed, or no socket has changed; the invariant is kept |
| NetStack.Stack.Shutdown | crates/net-thread/src/smoltcp_impl/tcp.rs:311-341 | A connected or listening socket is closed and unbound and no other changes; the invariant is kept |
| NetStack.Stack.Drop | crates/net-thread/src/smoltcp_impl/tcp.rs:691-699 | The socket and its handle, live until then, are gone and no other socket changes; the invariant is kept |
| NetReplies.BindReplies | crates/net-thread/src/smoltcp_impl/tcp.rs:241-271 | Stopped, invalid, refused or done, each exactly when; on the last two the address asked for and the port asked for, or for port 0 the first one from the cursor on without an entry |
| NetReplies.ListenReplies | crates/net-thread/src/smoltcp_impl/tcp.rs:277-288 | Nothing for a socket that is not closed; otherwise stopped, refused or done by its port, or by whether one is left, and an entry with its address, if it has one, and an empty queue |
| NetReplies.ConnectReplies | crates/net-thread/src/smoltcp_impl/tcp.rs:166-213 | Done if and only if the socket is closed, a port is left or bound and the request is taken; then SYN-SENT, the local address and that port |
| NetReplies.PollChanges | crates/net-thread/src/smoltcp_impl/tcp.rs:616-644 | What a poll does to the socket in each TCP state |
| NetReplies.ShutdownChanges | crates/net-thread/src/smoltcp_impl/tcp.rs:311-341 | A connection in ESTABLISHED goes to FIN-WAIT-1, in CLOSE-WAIT to LAST-ACK; a listener's entry goes with the handles of its queue; nothing else changes |
| NetReplies.DropChanges | crates/net-thread/src/smoltcp_impl/tcp.rs:691-699 | The object and its handle go, with a listener its entry and the handles of its queue, nothing else |
| NetReplies.IncomingChanges | crates/net-thread/src/smoltcp_impl/listen_table.rs:119-145 | A first packet joins the end of its port's queue exactly when the port has an entry for every address or for this one and fewer than 32 wait; otherwise nothing changes |
| NetReplies.ScanGives | crates/net-thread/src/smoltcp_impl/tcp.rs:701-723 | The scan yields the first port from its cursor on that has no entry, or leaves the table exactly when there is none |
| Ports.EphemeralPorts.Get | crates/net-thread/src/smoltcp_impl/tcp.rs:701-723 | The loop computes the specified scan and moves the cursor with it |
| Ports.ScanCorrect | crates/net-thread/src/smoltcp_impl/tcp.rs:701-723 | With a table that covers the range: the cyclically first free port, the cursor just past it, and failure if and only if no port is free |
| Ports.ScanInShortTable | crates/net-thread/src/smoltcp_impl/listen_table.rs:12-63 | With the table of the code: a port if and only if one is free between cursor and table end, and never a report that ports are used up |
| Ports.LastPortStrandsCursor | crates/net-thread/src/smoltcp_impl/tcp.rs:711-720 | Once the last port of the table has been handed out the next scan leaves the table |

## Left out

- smoltcp, virtio, the DMA layer, loopback, logging, start-up, TLS and assembly: foreign code and I/O. What smoltcp decides (whether a request is taken, addresses, TCP states) is a parameter or an environment step.
- seL4 beyond the calls of `Machine.dfy`; capability rights and cache attributes: `add_rights` starts from all rights and can only set bits, so it never restricts a page.
- The object allocator and the machine are separate models: `Machine.next` numbers slots consecutively and does not run out.
- Allocator.GoesOnIff: untyped memory is unlimited, so a retype that fails because it is used up is not modelled.
- 64-bit wrap-around of addresses and lengths: addresses are unbounded naturals. The stack's words are bounded where they are encoded.
- `sys_brk`, and `sys_exec`, which clears the page index without unmapping, so that the agreement of index and page tables does not carry across it; children that share an address space (CLONE_VM) for the same reason.
- Mapping directly at an address that is already mapped (a page fault on a mapped page, loading over mapped pages, the IPC buffer of a clone's clone at 0x40000): the kernel refuses and the code stops there, so these are preconditions.
- Items wider than a byte in the copy loops, where byte counts are used as element counts; the EINVAL case of `process_item_list` can arise only for them. `align_bits` appears as rounding down to a page.
- Output.SysWrite: requires every byte to be mapped for standard output and error, because `Output.TerminatesIff` shows that it does not return otherwise.
- Runs.BootOk: starts with window pages that are not mapped. The placeholder statics behind them are part of the thread's own image, and nothing in the thread unmaps them; that the kernel accepts the first mapping over them is not modelled.
- Elf.LoadElf: requires congruent file offsets of segments with file bytes, as the Program Header section of chapter 5 of the System V gABI promises them for loadable segments; without them the code copies to another offset within the page.
- StackMapping.MapStack: requires the arguments to be non-empty and to fit the top page with the words; the code indexes the first argument and writes through one page only.
- `Sel4TaskHelper::map_stack`, a loop of the same page mapping over zeroed pages; peer addresses; `can_accept`, `send`, `recv` and the blocking loop around accept and connect, each turn of which is one operation of the model.
- NetStack.Stack.Bind: does not restore the address after a refused check, as the code does not.
- The socket's handle is always present, so the branches that create one on demand are not modelled; `bind_check` is a parameter.
- Threads interleave in `SocketState.dfy` on one socket, in `LockOrder.dfy` on the locks only and in `AcceptRace.dfy` on the lookups of accept; ownership and the listen table are for operations that do not overlap.
- AcceptRace.SafeIffNoHarm: takes from smoltcp that only a closed connection forgets its endpoints and that a connection past its handshake does not return to it. The lock of the message front end's socket list is not part of `LockOrder.dfy`.
- The effect of `allocate_variable_sized_origin` on the flat capability space it works in before the two-level one exists: it only consumes its number here.
- The network thread's message front end, message labels and their packing.
