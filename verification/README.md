# NachOS 4.0 in Dafny

A model of the parts of NachOS, a small operating system on a simulated machine, that are hardest to get right, with
proofs. `dafny verify dfyconfig.toml` checks everything.

**File system.** `Bitmap`, `FileHeader`, `OpenFile`, `Directory`, `PersistentBitmap` and `FileSystem` are classes whose
methods change a disk of 1024 sectors byte by byte. `FsView` states who owns which sector; the free map and the directory
are themselves files in sectors that the free map governs. `FsImage` reads that view off the bytes of a disk and shows
that each operation is an operation on a map from nine-character names to byte strings. `FsRuns` carries this over
whole runs, and `FsClient` shows that programs that use the classes make exactly such runs.

**Concurrency.** Simulated time, and with it preemption, advances only where interrupts are enabled, a user instruction
ends or the machine idles. Kernel code between such points is one step. Threads are program counters, a run is a sequence
of steps in any order, and theorems hold for all of them: `Semaphore` and `SemaphoreRuns`; `Lock`, the protocol
that the next two share; `SynchList` and `SynchListRuns` (a monitor with Mesa-style condition variables);
`DeviceProtocol` (a lock, a completion semaphore and an interrupt, as in SynchDisk and in the sending half of the post
office) and `SynchDisk`, which justifies the atomic disk used by the file system; `Mail`, `PostOffice` and `MailBox`, in
which mailboxes are first atomic queues and then monitors; `ProcessTable`, `ProcessSteps` and `ProcessRuns` (the meeting
of parent and child in Join and Exit, for processes that join each child exactly once before they exit); `Scheduler`.

**Simulated machine.** `LinkedList` and `Interrupt` (a sorted list of pending interrupts and the loop that fires them
while their handlers schedule more), `DiskTiming` (seek, rotation and track buffer), `Multiply`, `Translation` and
`Machine` (page tables, TLB, frames), and `UnalignedAccess`, `UnalignedPairs`, `VirtualMemory` and `Processor` (LWL, LWR,
SWL, SWR across the load delay slot and through the page table).

**Library and system calls.** `HashTable` with its iterator; `ConsoleNumbers`.

Words of the machine are natural numbers below 2^32 and bytes are integers from 0 to 255; bits are taken apart with
arithmetic (`Words`). `Sequence` holds what is shared about sequences without repetition.

Where the code departs from what one would expect, the model follows the code:

- `NetworkOutput::Send` tests `sendBusy` but never sets it; that packets are sent one at a time follows from the lock and
  the completion semaphore alone (`DeviceRuns`).
- The loader checks the number of pages against a bitmap of 256 bits although memory has 128 frames. `FramesBelowIff` says
  exactly when its frames exist; `LoaderMayOverrun` is the counterexample.
- `SysPrintNum` negates its argument, which leaves the smallest integer negative; `RoundTripIff` says that this is the only
  number that is not read back.
- `PostOfficeOutput::Send` does not know how many boxes the receiver has, so a letter to a box that does not exist stops the
  receiving machine: every such letter can (`MisaddressedLetterStopsTheMachine`), `WorkFailsIff` and `StopsIffMisaddressed`
  say exactly when, and `NoFailureIfWellAddressed` says when it cannot happen.
- `FileHeader::Allocate` does not compare the size with MaxFileSize; `OversizePassesTheTest` says exactly which calls overrun
  the header's table.
- The load delay slot makes the unaligned pairs go wrong if a load into their base, or into the register being stored, is in
  progress; `LoadPairRightIff` and `StorePairRightIff` say that they go right exactly otherwise.
- The reading of one byte from memory is sign-extended, of two bytes it is not.
- `Remove` of the process table leaves a dangling pointer in the slot; the proof shows that nobody follows it.

## Model

| member | source | states |
|---|---|---|
| `Words.BitOps` | code/lib/bitmap.cc:55-95 | setting or clearing one bit of a word changes that bit and no other, for every word and every pair of positions |
| `Words.WordsRoundTrip` | code/filesys/pbitmap.cc:62-79 | an array of 32-bit words written as bytes and read back is the same array, whatever follows it |
| `Bitmaps.Bitmap.constructor` | code/lib/bitmap.cc:20-35 | a new bitmap has every one of its bits clear |
| `Bitmaps.Bitmap.Mark` | code/lib/bitmap.cc:55-63 | sets one bit and leaves all others |
| `Bitmaps.Bitmap.Clear` | code/lib/bitmap.cc:72-80 | clears one bit and leaves all others |
| `Bitmaps.Bitmap.Test` | code/lib/bitmap.cc:89-99 | tells whether the bit is set |
| `Bitmaps.Bitmap.FindAndSet` | code/lib/bitmap.cc:110-120 | marks and returns the lowest clear bit; -1, and nothing changed, exactly when every bit is set |
| `Bitmaps.Bitmap.NumClear` | code/lib/bitmap.cc:128-139 | counts the clear bits |
| `Bitmaps.CountClearUpdate` | code/lib/bitmap.cc:128-139 | setting or clearing one bit changes the count by at most one, in the right direction |
| `FileHeaders.HeaderRoundTrip` | code/filesys/filehdr.cc:83-100 | a file header written to a sector and fetched from it is the same header |
| `FileHeaders.ContentFrame` | code/filesys/filehdr.cc:112-116 | the bytes of a file depend only on the sectors its header names |
| `FileHeaders.FirstFitStep` | code/filesys/filehdr.cc:43-58 | taking the first clear bit again and again takes clear sectors in ascending order and skips none |
| `FileHeaders.FirstFitTaken` | code/filesys/filehdr.cc:43-58 | an allocation lowers the number of free sectors by exactly the number of sectors taken |
| `FileHeaders.FileHeader.Allocate` | code/filesys/filehdr.cc:43-58 | succeeds exactly when enough sectors are clear; then takes the lowest ones, marks exactly them and makes a well-formed header; otherwise, whatever the size, the free map is unchanged |
| `FileHeaders.FileHeader.Deallocate` | code/filesys/filehdr.cc:67-74 | clears exactly the sectors of the file; its ASSERT holds whenever the caller owns them |
| `FileHeaders.FileHeader.FetchFrom` | code/filesys/filehdr.cc:83-87 | the header becomes the one stored in the sector |
| `FileHeaders.FileHeader.WriteBack` | code/filesys/filehdr.cc:96-100 | stores the header in the sector and changes no other sector |
| `FileHeaders.FileHeader.ByteToSector` | code/filesys/filehdr.cc:112-116 | gives the sector that holds the byte at an offset |
| `Disks.SynchDisk.ReadSector` | code/filesys/synchdisk.cc:57-64 | puts the sector into the buffer; the disk is unchanged |
| `Disks.SynchDisk.WriteSector` | code/filesys/synchdisk.cc:75-82 | replaces one whole sector and no other |
| `OpenFiles.OpenFile.constructor` | code/filesys/openfile.cc:28-34 | the open file caches the header stored in the sector and starts at position 0 |
| `OpenFiles.OpenFile.ReadAt` | code/filesys/openfile.cc:123-150 | for every position and length, returns exactly the clipped slice of the file and changes nothing |
| `OpenFiles.OpenFile.WriteAt` | code/filesys/openfile.cc:152-191 | for every position and length, splices exactly the clipped bytes into the file; bytes of partly written sectors and all sectors of other files stay |
| `OpenFiles.OpenFile.Read` | code/filesys/openfile.cc:81-87 | reads at the seek position and advances it by the number of bytes read |
| `OpenFiles.OpenFile.Write` | code/filesys/openfile.cc:89-95 | writes at the seek position and advances it by the number of bytes written |
| `OpenFiles.OpenFile.Seek` | code/filesys/openfile.cc:62-66 | sets the seek position |
| `OpenFiles.OpenFile.ReadSectors` | code/filesys/openfile.cc:139-144 | the buffer holds the sectors that span the request |
| `OpenFiles.OpenFile.FillBuffer` | code/filesys/openfile.cc:160-183 | after the first and last sectors have been read where needed and the new bytes put in, the buffer holds what the sectors are to hold |
| `OpenFiles.OpenFile.WriteSectors` | code/filesys/openfile.cc:185-189 | stores the buffer sector by sector, touching only the sectors of the request |
| `OpenFiles.MixedIsReady` | code/filesys/openfile.cc:160-183 | old first and last sectors overlaid with the new bytes are the new contents of those sectors |
| `OpenFiles.StoredContent` | code/filesys/openfile.cc:185-189 | storing such a buffer gives the file exactly the wanted bytes |
| `OpenFiles.StoredOnlyTouches` | code/filesys/openfile.cc:185-189 | only sectors that overlap the written range change |
| `Directories.StrNEqualIsSameKey` | code/filesys/directory.cc:89-98 | strncmp over FileNameMaxLen characters finds two names equal exactly when their first nine characters up to the terminator agree |
| `Directories.StrNCopyKey` | code/filesys/directory.cc:128-144 | the name that strncpy stores has the same key as the name given |
| `Directories.TableRoundTrip` | code/filesys/directory.cc:62-79 | a directory table written to its file and fetched back is the same table |
| `Directories.EntryRoundTrip` | code/filesys/directory.cc:62-79 | a directory entry laid out in 20 bytes is read back unchanged |
| `Directories.Directory.FetchFrom` | code/filesys/directory.cc:62-66 | the table becomes the one stored in the file |
| `Directories.Directory.WriteBack` | code/filesys/directory.cc:75-79 | the file becomes the encoded table; only the sectors of the directory file change |
| `Directories.Directory.FindIndex` | code/filesys/directory.cc:89-98 | returns the first entry in use whose name has the same key, or -1 |
| `Directories.Directory.Find` | code/filesys/directory.cc:107-115 | returns the header sector of the named file, or -1 |
| `Directories.Directory.Add` | code/filesys/directory.cc:128-144 | fails, changing nothing, exactly when the name is present or no entry is free; otherwise fills the first free entry |
| `Directories.Directory.Remove` | code/filesys/directory.cc:152-161 | fails, changing nothing, exactly when the name is absent; otherwise clears the inUse flag of its entry |
| `PersistentBitmaps.FetchFrom` | code/filesys/pbitmap.cc:38-66 | a bitmap made from a file has exactly the bits stored there |
| `PersistentBitmaps.WriteBack` | code/filesys/pbitmap.cc:75-79 | the file becomes the stored bitmap; only the sectors of its file change |
| `FsViews.CreatedConsistent` | code/filesys/filesys.cc:199-241 | creating a file keeps the ownership invariant: the free map marks exactly the sectors owned by the two header sectors, the two system files and the entries in use, each owned once |
| `FsViews.RemovedConsistent` | code/filesys/filesys.cc:303-333 | removing a file keeps the ownership invariant |
| `FsViews.CreateThenRemove` | code/filesys/filesys.cc:199-333 | creating and then removing a file restores the free map and every entry in use |
| `FsImages.CreateRefines` | code/filesys/filesys.cc:199-241 | on the bytes of the disk, a successful Create adds one file of the given length to the map from names to byte strings and changes no other file |
| `FsImages.RemoveRefines` | code/filesys/filesys.cc:303-333 | on the bytes of the disk, a successful Remove takes exactly the named file out of the map |
| `FsImages.WriteRefines` | code/filesys/openfile.cc:152-191 | on the bytes of the disk, a write to a live file splices into that file, changes no other file and keeps the ownership invariant |
| `FileSystems.FormatWrites` | code/filesys/tempCodeRunnerFile.cc:82-136 | the sectors written by formatting form a consistent, empty file system |
| `FileSystems.FileSystem.constructor` | code/filesys/tempCodeRunnerFile.cc:82-145 | formatting yields a consistent disk without files; otherwise a consistent disk is taken as it is |
| `FileSystems.FileSystem.MakeHeaders` | code/filesys/tempCodeRunnerFile.cc:87-107 | formatting takes sectors 0 to 4; the ASSERTs on the two allocations hold |
| `FileSystems.FileSystem.FlushFormat` | code/filesys/tempCodeRunnerFile.cc:109-136 | flushing headers, free map and directory makes the disk consistent and empty |
| `FileSystems.FileSystem.Open` | code/filesys/tempCodeRunnerFile.cc:235-247 | finds a file exactly when its key is in the map; the open file has exactly its bytes and starts at position 0 |
| `FileSystems.FileSystem.Create` | code/filesys/filesys.cc:199-241 | fails, leaving every byte of the disk unchanged, exactly when the name is present, the directory is full or the disk has too few free sectors; otherwise adds the file |
| `FileSystems.FileSystem.Remove` | code/filesys/filesys.cc:303-333 | fails, leaving every byte of the disk unchanged, exactly when there is no such file; otherwise removes it; its ASSERTs never fire |
| `FsRuns.StepRefines` | code/filesys/filesys.cc:199-333 | every operation keeps consistency, and does to the files and reports to the caller what the same operation on a map of at most ten names does and reports |
| `FsRuns.RunRefines` | code/filesys/filesys.cc:199-333 | over every run of Create, Remove, writes and reads from a consistent disk, every disk is consistent and every step, with its outcome, is a step of the map |
| `FsRuns.OwnedOnce` | code/filesys/filesys.cc:199-333 | on a consistent disk a sector is marked exactly when it is owned, and it has exactly one owner and one place there |
| `FsRuns.SpaceConserved` | code/filesys/filesys.cc:199-241 | free sectors and owned sectors add up to the size of the disk |
| `FsRuns.CreateFailsWhen` | code/filesys/filesys.cc:199-241 | Create succeeds exactly when the name is new, fewer than ten files exist and header and data fit into the unowned sectors |
| `FsRuns.CreateSucceedsIff` | code/filesys/filesys.cc:199-241 | for every admitted size the space always suffices: Create succeeds exactly when the name is new and fewer than ten files exist |
| `FsRuns.OversizePassesTheTest` | code/filesys/filehdr.cc:43-58 | on every consistent disk: the calls of Create that pass all its tests although their sectors overrun the header are exactly those with a new name, fewer than ten files, a size above MaxFileSize and enough unclaimed sectors; with a new name and a free entry there are such sizes |
| `FsRuns.CreateRemoveIdentity` | code/filesys/filesys.cc:199-333 | Create followed by Remove of the same name restores the free map and the map from names to files |
| `FsRuns.OpenStaysGood` | code/filesys/openfile.cc:28-34 | an open file stays good, with the header it cached, under every operation but the removal of that file |
| `FsClients.DoWrite` | code/filesys/openfile.cc:152-191 | opening a file and writing to it is the Write step on the disk, and the FileSystem stays valid |
| `FsClients.DoRead` | code/filesys/openfile.cc:123-150 | opening a file and reading from it returns the clipped slice of the bytes the map holds |
| `FsClients.Perform` | code/filesys/filesys.cc:199-333 | each operation of the FileSystem and OpenFile classes is the corresponding step |
| `FsClients.PerformAll` | code/filesys/filesys.cc:199-333 | a list of operations on a FileSystem is a run through the disks it leaves behind |
| `FsClients.FormatAndPerform` | code/filesys/tempCodeRunnerFile.cc:82-145 | formatting a disk and carrying out any list of operations reports, and leaves on the disk, what a map that is empty at first gives |
| `FsClients.WriteThenRead` | code/filesys/openfile.cc:123-191 | WriteAt followed by ReadAt at the same position returns the bytes written |
| `SemaphoreRuns.StepKeepsInv` | code/threads/synch.cc:75-118 | every P, re-test and V keeps the accounting of the value and the bound on it while threads are queued |
| `SemaphoreRuns.RunsKeepInv` | code/threads/synch.cc:75-118 | in every run the value is initial plus completed V minus completed P, never negative, and while a thread is queued at most the number of woken threads that have not re-tested it |
| `SemaphoreRuns.NoLostWakeup` | code/threads/synch.cc:75-118 | if nobody is on the way and somebody sleeps, the value is zero and every unit has been consumed |
| `Locks.StepKeepsInv` | code/threads/synch.cc:182-207 | every step of Acquire and Release keeps the lock: value, owner, lockHolder and queue agree, one thread at most is inside, and a queued thread is never forgotten |
| `SynchLists.StepLocks` | code/threads/synch.cc:248-287 | as far as the lock is concerned, every step of the monitor is a step of the lock protocol or none |
| `SynchLists.StepLock` | code/threads/synchlist.cc:51-81 | so every step of the monitor keeps the invariant of the lock |
| `SynchLists.StepSems` | code/threads/synch.cc:248-287 | every step keeps the life cycle of the private semaphores: queued, taken off, posted once, consumed, deleted |
| `SynchListRuns.StepList` | code/threads/synchlist.cc:51-81 | every step keeps first-in first-out order, and nobody is about to take from an empty list |
| `SynchListRuns.StepStrand` | code/threads/synchlist.cc:51-81 | every step keeps the bound on the list while consumers are queued |
| `SynchListRuns.StepPosted` | code/threads/synch.cc:104-118 | every step keeps the posted semaphore in existence while the signaller is still inside V |
| `SynchListRuns.StepIsQueueStep` | code/threads/synchlist.cc:51-81 | every step puts one item at the end of the list, takes the one in front, or leaves the list alone: the monitor refines an atomic queue |
| `SynchListRuns.StepKeepsInv` | code/threads/synchlist.cc:51-81 | every step of every thread keeps all five invariants together |
| `SynchListRuns.RunsKeepInv` | code/threads/synchlist.cc:51-81 | all five invariants hold after every schedule of producers and consumers |
| `SynchListRuns.RemovedIsPrefix` | code/threads/synchlist.cc:51-81 | in every schedule the items removed are a prefix of the items appended, and the list is the rest |
| `SynchListRuns.NeverTakesFromEmpty` | code/threads/synchlist.cc:69-81 | RemoveFront of the plain list is never called on an empty list |
| `SynchListRuns.MutualExclusion` | code/threads/synch.cc:182-204 | no two threads are inside the monitor, and the ASSERTs on the lock holder hold where they are evaluated |
| `SynchListRuns.OnePostEach` | code/threads/synch.cc:248-287 | each private semaphore is posted at most once, exists when it is posted and until the V on it has returned, and is deleted only after that and after exactly one post |
| `SynchListRuns.NobodyStranded` | code/threads/synchlist.cc:51-81 | outside Append, while consumers are queued the list holds no more items than there are signalled consumers yet to re-check |
| `DeviceRuns.MoveLock` | code/filesys/synchdisk.cc:57-94 | as far as the lock is concerned, every step of a thread is a step of the lock protocol or none |
| `DeviceRuns.StepKeepsInv` | code/filesys/synchdisk.cc:57-94 | every step keeps the invariant that ties the lock, the active flag, the pending interrupt and the completion semaphore together |
| `DeviceRuns.RunsKeepInv` | code/filesys/synchdisk.cc:57-94 | that invariant holds after every interleaving of calls and interrupts |
| `DeviceRuns.OneRequestAtATime` | code/machine/disk.cc:113-163 | at most one thread is between Acquire and Release; the device is idle whenever a request is made, so ASSERT(!active) never fails |
| `DeviceRuns.ReturnsAfterItsOwnInterrupt` | code/filesys/synchdisk.cc:57-94 | a call gets past the completion semaphore only after the interrupt of its own request |
| `DeviceRuns.EveryRequestIsAccountedFor` | code/filesys/synchdisk.cc:57-94 | every request made has returned, except at most the one in flight |
| `SynchDiskRuns.ReadsSeeThePrecedingWrites` | code/filesys/synchdisk.cc:57-94 | however calls interleave, the disk and every buffer read are those of a disk used by one thread at a time, in the order of the requests |
| `Mails.HeaderRoundTrip` | code/network/post.h:45-51 | a header laid out as three machine words is read back unchanged |
| `Mails.WireRoundTrip` | code/machine/network.cc:158-182 | packet header and announced payload come off the wire as they went on |
| `Mails.PayloadRoundTrip` | code/network/post.cc:300-330 | mail header and data are recovered byte for byte from the part of the buffer that was sent |
| `PostOffices.StampedArrives` | code/network/post.cc:300-330 | what a receiver reads from a packet is the message that was sent, with the sender filled in |
| `PostOffices.SendKeepsInv` | code/network/post.cc:300-330 | sending, with or without loss, keeps the invariant of the post office |
| `PostOffices.PollKeepsInv` | code/machine/network.cc:60-87 | polling the wire keeps the invariant; the ASSERT on arriving packets holds |
| `PostOffices.WorkKeepsInv` | code/network/post.cc:191-220 | every step of the postal worker keeps the invariant, also when its ASSERT stops the machine |
| `PostOffices.WorkFailsIff` | code/network/post.cc:211-213 | the ASSERTs on a fetched message fail exactly when it names a box that does not exist |
| `PostOffices.OnlyWorkFails` | code/machine/network.cc:60-87 | no other event makes an ASSERT fail |
| `PostOffices.StopsAtFirstMisaddressed` | code/network/post.cc:191-220 | over every run the messages delivered are those before the first misaddressed one off the wire, and the machine stops only at that one |
| `PostOffices.NoFailureIfWellAddressed` | code/network/post.cc:191-220 | if every message sent names an existing box, no ASSERT fails in any run |
| `PostOffices.StopsIffMisaddressed` | code/network/post.cc:191-217 | in every run: without anything more being sent, the receiving machine can come to stop exactly when the wire has kept a message that names a box it does not have |
| `PostOffices.MisaddressedLetterStopsTheMachine` | code/network/post.cc:300-330 | every letter to a box that does not exist, from any thread of any machine to any machine, leads to a run in which it stops the receiving machine |
| `PostOffices.TakeKeepsInv` | code/network/post.cc:120-139 | getting a message out of a mailbox keeps the invariant |
| `PostOffices.DaysKeepInv` | code/network/post.cc:191-330 | the invariant holds after every run of senders, polls, worker and receivers |
| `PostOffices.ReceivedAreSent` | code/network/post.cc:98-138 | the messages that Receive returns from a box are, byte for byte and in order, some of those sent to it, none twice |
| `MailBoxes.DoRefines` | code/network/post.cc:98-139 | with the SynchList monitor in place of the box, the worker inside Append and the readers inside RemoveFront: every step is a step of the office with atomic mailboxes, or none |
| `MailBoxes.RunRefines` | code/network/post.cc:98-139 | every run of a post office whose mailboxes are monitors is a run of the office with atomic mailboxes |
| `MailBoxes.ReceivedThroughSynchList` | code/network/post.cc:98-139 | in every such run, what RemoveFront has taken out of a box is an in-order selection of what was sent to it, and what the wire kept was taken out or is on its way, in order |
| `PostOffices.NothingLostAfterTheWire` | code/network/post.cc:191-330 | what the wire did not lose is received, in its mailbox, in the worker's hands, in the input buffer or on the wire, in this order |
| `PostOffices.PermitsMatchOccupancy` | code/machine/network.cc:60-103 | messageAvailable plus the permit the worker holds equals the occupancy of the input buffer; the worker never sleeps on a waiting packet nor fetches a missing one |
| `ProcessSteps.MoveKeepsInv` | code/threads/ptable.cc:45-195 | every step of Exec, Join, Exit and Remove keeps the invariant of slots, PCBs and semaphores |
| `ProcessSteps.StepKeepsInv` | code/threads/ptable.cc:45-195 | every event keeps it |
| `ProcessSteps.MeetingStep` | code/threads/pcb.cc:49-75 | a step of one parent and child leaves the meetings of all others as they are |
| `ProcessSteps.AllocKeepsInv` | code/threads/ptable.cc:71-90 | taking a free slot and making its PCB keeps the invariant |
| `ProcessSteps.LockKeepsInv` | code/threads/pcb.cc:95-99 | the new PCB is there when Exec passes its multex |
| `ProcessSteps.UnlockKeepsInv` | code/threads/pcb.cc:117-122 | the child's PCB is still there when Exec posts its multex, although the child may have run meanwhile |
| `ProcessSteps.TouchParentKeepsInv` | code/threads/pcb.cc:84-90 | the parent's PCB is there while an exiting child is inside DecNumWait |
| `ProcessSteps.RemoveKeepsInv` | code/threads/ptable.cc:190-195 | clearing the slot and deleting the PCB keeps the invariant |
| `ProcessRuns.Run` | code/threads/ptable.cc:45-195 | in every interleaving the invariant holds, no missing PCB is touched, Join never refuses and Exit never finds its id missing |
| `ProcessRuns.JoinReturnsStoredCode` | code/threads/ptable.cc:107-139 | Join returns the value that this child passed to Exit, and each child is joined at most once |
| `ProcessRuns.ClearedAfterJoin` | code/threads/ptable.cc:140-174 | a slot is cleared only after its process was joined |
| `ProcessRuns.NoTouchAfterRelease` | code/threads/ptable.cc:107-139 | no call refers to a child once it has been released; until then the slot holds that child's own PCB |
| `ProcessRuns.LiveIdsDistinct` | code/threads/ptable.cc:177-195 | processes alive at the same time have different ids, whose slots are marked |
| `ProcessRuns.TakenSlotsAreLive` | code/threads/ptable.cc:177-195 | every marked slot belongs to a process that is not gone |
| `Schedulers.StepKeepsInv` | code/threads/thread.cc:161-270 | every scheduling step keeps the agreement of status, queues and CPU |
| `Schedulers.RunsKeepInv` | code/threads/scheduler.cc:56-167 | it holds in every reachable state |
| `Schedulers.ExactlyOnePlace` | code/threads/scheduler.cc:56-167 | every live started thread is on the CPU, on the ready list or on one queue: in exactly one of them and once; no other thread is anywhere |
| `Schedulers.FinishingFindsRoom` | code/threads/scheduler.cc:104-167 | a finishing thread always finds toBeDestroyed empty, and the current thread is never destroyed |
| `Schedulers.DispatchIsFifo` | code/threads/scheduler.cc:56-85 | what was dispatched followed by what is ready is a queue that grows only at its end |
| `Schedulers.DispatchedAfterExactlyKOthers` | code/threads/scheduler.cc:56-85 | a thread with k others ahead of it is dispatched after exactly k other dispatches |
| `LinkedLists.InsertedSorted` | code/lib/list.cc:232-260 | sorted insertion keeps the order, adds exactly the item and puts it behind all its equals |
| `LinkedLists.List.constructor` | code/lib/list.cc:42-47 | a new list is empty |
| `LinkedLists.List.IsInList` | code/lib/list.cc:186-197 | tells whether the item is in the list |
| `LinkedLists.List.Append` | code/lib/list.cc:73-90 | adds the item at the end; the chain, last and numInList stay right |
| `LinkedLists.List.Prepend` | code/lib/list.cc:96-113 | adds the item at the front |
| `LinkedLists.List.RemoveFront` | code/lib/list.cc:123-142 | returns and removes the first item |
| `LinkedLists.List.Remove` | code/lib/list.cc:149-178 | removes the item and keeps the order of the rest; the item is then not in the list |
| `LinkedLists.List.Insert` | code/lib/list.cc:232-260 | refines sorted insertion on sequences |
| `Interrupts.FireOneLowersDue` | code/machine/interrupt.cc:326-333 | each round of the firing loop lowers the number of due interrupts, whatever the handler schedules |
| `Interrupts.FiresExactlyTheDue` | code/machine/interrupt.cc:326-333 | the loop fires exactly the interrupts that were due when it started, in order |
| `Interrupts.FireDueKeepsInv` | code/machine/interrupt.cc:326-333 | the loop leaves only strictly future interrupts and keeps the order of the log and the list |
| `Interrupts.ScheduledKeepsInv` | code/machine/interrupt.cc:256-266 | scheduling keeps the list ordered by time and, for equal times, by the order of scheduling |
| `Interrupts.StepKeepsInv` | code/machine/interrupt.cc:147-225 | ticks, idling and scheduling keep order, pending interrupts in the future, and the accounting of time |
| `Interrupts.RunsKeepInv` | code/machine/interrupt.cc:147-335 | these hold over every run, with totalTicks equal to idleTicks plus systemTicks plus userTicks |
| `Interrupts.FiringOrder` | code/machine/interrupt.cc:256-335 | over a whole run interrupts fire in the order of their times, ties in the order of scheduling, none early |
| `Interrupts.Interrupt.constructor` | code/machine/interrupt.cc:71-79 | starts at time 0 with interrupts off and nothing pending |
| `Interrupts.Interrupt.Schedule` | code/machine/interrupt.cc:256-266 | adds the interrupt to the sorted list |
| `Interrupts.Interrupt.CheckIfDue` | code/machine/interrupt.cc:293-335 | refines the firing loop, after skipping ahead to the first interrupt if asked; completes the load in progress exactly if something fires; collects requests to yield |
| `Interrupts.Interrupt.YieldOnReturn` | code/machine/interrupt.cc:189-193 | a handler asks for a context switch |
| `Interrupts.Interrupt.CallBack` | code/machine/interrupt.cc:327-331 | a handler schedules its requests in order and perhaps asks for a context switch |
| `Interrupts.Interrupt.FireLoop` | code/machine/interrupt.cc:327-333 | the do-while loop ends and refines the firing loop |
| `Interrupts.Interrupt.OneTick` | code/machine/interrupt.cc:147-176 | advances the clock by 10 in system mode or 1 in user mode and fires what is due; interrupts are on again, and the current thread yields exactly if a handler asked for it |
| `Interrupts.Interrupt.SetLevel` | code/machine/interrupt.cc:123-137 | time advances exactly when interrupts go from off to on |
| `Interrupts.Interrupt.Idle` | code/machine/interrupt.cc:207-226 | skips to the next interrupt and fires; halts exactly when none is pending |
| `DiskTiming.UnbufferedRequest` | code/machine/disk.cc:229-250 | an unbuffered request ends on a sector boundary at the first moment at which the sector has wholly passed under the settled head, in less than 32000 ticks |
| `DiskTiming.BufferStartsWhenSettled` | code/machine/disk.cc:258-268 | over any run bufferInit is the first sector boundary after the head came to rest, and not in the future of a free disk |
| `DiskTiming.HitOnlyIfPassed` | code/machine/disk.cc:229-250 | over any run a read is served from the track buffer if and only if the head is on its track and the sector has wholly passed since it came to rest there, before the reply is due |
| `DiskTiming.Disk.TimeToSeek` | code/machine/disk.cc:176-192 | seek time by tracks, and the time to the next sector boundary |
| `DiskTiming.Disk.ComputeLatency` | code/machine/disk.cc:229-250 | refines the latency function |
| `DiskTiming.Disk.UpdateLast` | code/machine/disk.cc:258-268 | restarts the track buffer exactly when the head moves |
| `DiskTiming.Disk.Request` | code/machine/disk.cc:113-151 | computes the latency before the head position is updated, and makes the disk active |
| `DiskTiming.Disk.CallBack` | code/machine/disk.cc:158-163 | makes the disk idle |
| `Multiply.Mult` | code/machine/mipssim.cc:771-828 | for all 32-bit operands, the most negative included, hi and lo hold the exact 64-bit product, signed or unsigned |
| `Multiply.MultiplyBits` | code/machine/mipssim.cc:793-814 | the shift-and-add loop with carry and early exit multiplies the bit patterns exactly |
| `Multiply.Complement` | code/machine/mipssim.cc:816-824 | the fix-up computes the two's complement of the double word |
| `UnalignedPairs.LoadPairDoes` | code/machine/mipssim.cc:312-418 | in every state, for every rt that is neither 0 nor the base, LWR and LWL merge the words around their effective addresses into rt, with or without an interrupt between them, and change nothing else; they fault exactly when one of the words cannot be read |
| `UnalignedPairs.LoadPairLoads` | code/machine/mipssim.cc:312-418 | for every address A, if the base is not about to change, LWR A and LWL A+3 load the four bytes at A |
| `UnalignedPairs.LoadPairRightIff` | code/machine/mipssim.cc:312-418 | the pair loads the four bytes at A whatever memory holds if and only if no load that changes the base is in progress |
| `UnalignedPairs.StorePairDoes` | code/machine/mipssim.cc:552-668 | in every state SWR and SWL store the bytes of rt around their effective addresses and change nothing else; they fault exactly when one of the words cannot be written |
| `UnalignedPairs.StoredAt` | code/machine/mipssim.cc:552-668 | what every byte of memory is after the two stores |
| `UnalignedPairs.StorePairStores` | code/machine/mipssim.cc:552-668 | for every address A, if base and rt are not about to change, SWR A and SWL A+3 store the four bytes of rt at A to A+3 and change nothing else |
| `UnalignedPairs.StorePairRightIff` | code/machine/mipssim.cc:552-668 | the pair stores the four bytes of rt at A whatever memory and rt hold if and only if no load into rt and none that changes the base is in progress |
| `UnalignedPairs.StoreThenLoad` | code/machine/mipssim.cc:312-668 | what the store pair stores at an address the load pair loads back from it |
| `UnalignedAccess.LoadLeftBytes` | code/machine/mipssim.cc:312-362 | LWL puts the bytes up to the address into the high bytes and keeps the others |
| `UnalignedAccess.LoadRightBytes` | code/machine/mipssim.cc:364-418 | LWR puts the bytes from the address on into the low bytes and keeps the others |
| `UnalignedAccess.StoreLeftWrites` | code/machine/mipssim.cc:552-609 | SWL writes the high bytes of the register up to the address and nothing else |
| `UnalignedAccess.StoreRightWrites` | code/machine/mipssim.cc:611-668 | SWR writes the low bytes of the register from the address on and nothing else |
| `Processors.Processor.DelayedLoad` | code/machine/mipssim.cc:711-718 | applies the load in progress, starts the next one and keeps register 0 zero |
| `VirtualMemory.ReadThrough` | code/machine/translate.cc:85-118 | reading a word through a page table reads it from the flat memory the program sees, and fails exactly outside the mapped words |
| `VirtualMemory.WriteThrough` | code/machine/translate.cc:135-165 | writing a word through a page table in which no frame occurs twice writes it into the flat memory the program sees and changes nothing else there |
| `Processors.Processor.ReadAligned` | code/machine/mipssim.cc:326-327 | an aligned ReadMem as the program sees it |
| `Processors.Processor.WriteAligned` | code/machine/mipssim.cc:606-607 | an aligned WriteMem as the program sees it |
| `Processors.Processor.LoadPart` | code/machine/mipssim.cc:312-418 | LWL and LWR on the register array and, through ReadMem and the page table, memory |
| `Processors.Processor.StorePart` | code/machine/mipssim.cc:552-668 | SWL and SWR on the register array and, through ReadMem, WriteMem and the page table, memory |
| `Processors.LoadUnaligned` | code/machine/mipssim.cc:312-418 | the two instructions on registers and translated memory are the load pair |
| `Processors.StoreUnaligned` | code/machine/mipssim.cc:552-668 | the two instructions on registers and translated memory are the store pair |
| `Translation.InsideOnePage` | code/machine/translate.cc:184-251 | a successful translation stays inside memory and inside one page and keeps the offset |
| `Translation.TlbAgrees` | code/machine/translate.cc:209-230 | a TLB whose valid entries agree with the page table misses, exactly when it has no entry for the page, or gives the page table's result |
| `Translation.BitsDoNotMatter` | code/machine/translate.cc:244-246 | setting use and dirty bits changes no later translation |
| `Translation.WriteThenRead` | code/machine/translate.cc:85-165 | reading back what was written gives the value, cut to its size and with one byte sign-extended |
| `Translation.WordSurvives` | code/machine/translate.cc:85-165 | a four-byte value is read back unchanged |
| `Translation.OtherAddressUnaffected` | code/machine/translate.cc:85-165 | within one address space a write changes only the addresses written |
| `Translation.OtherSpaceUnaffected` | code/machine/translate.cc:85-165 | a write through one page table is not seen through a table with other frames |
| `Translation.RunKeepsSeparate` | code/userprog/addrspace.cc:354-383 | after any run of loads no frame belongs to two pages |
| `Translation.SpacesAreIsolated` | code/userprog/addrspace.cc:354-383 | after any run of loads no address space sees another's writes |
| `Translation.FramesExist` | code/userprog/addrspace.cc:354-383 | while no more than 128 frames have been handed out, all of them lie inside memory |
| `Translation.FramesBelowIff` | code/userprog/addrspace.cc:357-375 | the frames of a load lie inside memory if and only if it needs no more pages than there are clear bits among the first 128 |
| `Translation.LoaderMayOverrun` | code/userprog/addrspace.cc:357-375 | a load of 129 pages, the first after start-up, that passes the loader's own test over a bitmap of 256 bits and whose last frame is outside memory |
| `Machines.Machine.Translate` | code/machine/translate.cc:184-251 | refines translation by page table or TLB, and sets use and dirty bits of the entry used and no other |
| `Machines.Machine.FindEntry` | code/machine/translate.cc:205-230 | indexes the page table or searches the TLB |
| `Machines.Machine.ReadMem` | code/machine/translate.cc:85-118 | refines reading; memory is unchanged |
| `Machines.Machine.WriteMem` | code/machine/translate.cc:135-165 | refines writing; on a fault memory is unchanged |
| `Machines.LoadFrames` | code/userprog/addrspace.cc:357-381 | takes the lowest clear frames, maps them in order and zeroes exactly them, or fails and changes nothing |
| `HashTables.FlatIsContents` | code/lib/hash.cc:330-360 | the buckets one after the other list every item of the map exactly once |
| `HashTables.HashTable.constructor` | code/lib/hash.cc:28-52 | a new table is empty and has four buckets |
| `HashTables.HashTable.Find` | code/lib/hash.cc:191-198 | finds the item of the key exactly when the key is in the map |
| `HashTables.HashTable.FindInBucket` | code/lib/hash.cc:166-182 | searches one bucket |
| `HashTables.HashTable.Insert` | code/lib/hash.cc:108-124 | adds the item to the map; every item stays in its hashed bucket and there are never more than three times as many items as buckets |
| `HashTables.HashTable.ReHash` | code/lib/hash.cc:134-153 | moves every item to its bucket in a table four times as large; the map is unchanged |
| `HashTables.HashTable.Remove` | code/lib/hash.cc:208-223 | returns the item of the key and takes exactly it out of the map |
| `HashTables.HashTable.FindNextFullBucket` | code/lib/hash.cc:249-259 | skips empty buckets only |
| `HashTables.HashIterator.constructor` | code/lib/hash.cc:331-340 | starts before all items |
| `HashTables.HashIterator.Next` | code/lib/hash.cc:347-360 | moves past exactly one item |
| `HashTables.HashIterator.IsDone` | code/lib/hash.h:108-109 | true exactly when no item remains |
| `HashTables.HashIterator.Item` | code/lib/hash.h:110-111 | the first of the items that remain |
| `HashTables.VisitAll` | code/lib/hash.cc:330-360 | a loop over the iterator ends and meets every item of the map exactly once |
| `ConsoleNumbers.SysReadNum` | code/userprog/ksyscall.h:38-79 | reads one line: the number it denotes in 32-bit arithmetic, 0 if it is malformed; consumes nothing after the newline |
| `ConsoleNumbers.SysPrintNum` | code/userprog/ksyscall.h:82-116 | prints the digits the divisions yield, most significant first, after a minus sign if negative |
| `ConsoleNumbers.RoundTripIff` | code/userprog/ksyscall.h:38-116 | reading back a printed number gives the number if and only if it is not the smallest integer |
| `ConsoleNumbers.PrintedIsALine` | code/userprog/ksyscall.h:82-116 | a printed number followed by a newline is a line that SysReadNum reads |

## Left out

- Host I/O, sockets, UNIX files, DEBUG and Print routines, the SWITCH assembly and stack layout: the wire is an ordered
  sequence of packets that may lose some, the disk an array of sectors, the console a sequence of characters.
- The FILESYS_STUB configuration, and `OpenFile` objects that are used after their file was removed.
- FileHeaders.FileHeader.Allocate: excludes the sizes above MaxFileSize that there is room for, because the source then
  writes beyond the header's table.
- FileSystems.FileSystem.Create: excludes exactly the calls that reach Allocate with such a size; OversizePassesTheTest
  says which these are.
- Overflow of `position + numBytes` in 32 bits in OpenFile; positions and lengths are unbounded natural numbers.
- What uninitialised memory holds: new headers and directory entries start with given or zero fields, padding bytes
  of encoded records are zero, a created file shows what its sectors held before. Byte order is little-endian.
- Condition::Broadcast and SynchList::Apply: they add nothing to the monitor's invariants.
- Programs that do not join each child exactly once before they exit, joins on stale or foreign ids, the numwait counters,
  and the value of their mutex, which every process may pass at any time.
- Interrupts.Interrupt.OneTick: says that the current thread yields, and not what happens while it does; that is an event of
  Schedulers. The scheduler model has no interrupt levels; its operations run with interrupts off.
- The List::SortedInsert and function-pointer Schedule variants, which do not maintain numInList or callOnInterrupt.
- Releasing page frames (not implemented in the source) and the loops of the loader that copy segments.
- Processors.Processor.ReadAligned: programs whose page table maps two pages to one frame, and machines with a TLB, because
  then what the program sees is not one flat memory; Translation and Machines cover both.
- Processors.Processor.WriteAligned: the same.
- Processors.Processor.LoadPart: the same.
- Processors.Processor.StorePart: the same.
- Processors.LoadUnaligned: the same.
- Processors.StoreUnaligned: the same.
- The rest of the instruction set, the timer, the alarm, exception dispatch, the semaphore table and the remaining system
  calls: one-branch members.
- UnalignedPairs.LoadPairLoads: the base is not about to change; LoadPairDoes covers every state, and LoadPairRightIff says
  that this condition is exact.
- UnalignedPairs.StorePairStores: base and register are not about to change; StorePairDoes covers every state, and
  StorePairRightIff says when the pair goes right.
- UnalignedPairs.StoreThenLoad: the same two conditions.
- Machines.LoadFrames: loads that overrun memory are excluded, because clearing their frames writes outside it;
  FramesBelowIff says which these are.
- The models of synch.cc, synchlist.cc, synchdisk.cc, ptable.cc, post.cc, network.cc and scheduler.cc are step functions
  on values rather than classes, because a step of one thread has to be a value that any schedule can compose.
