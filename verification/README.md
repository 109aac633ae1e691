# NachOS 4.0: verified models

NachOS is a teaching kernel on a simulated machine. This project models five
parts of it in Dafny and proves what they promise. `dafny verify dfyconfig.toml`
checks everything.

**The disk file system** (`Bytes`, `Bitmap`, `DiskLayout`, `OpenFile`, `Volume`,
`FsState`, `Directory`, `FileSystem`, `FsRuns`). The free map and the directory
are themselves files. The classes work on sectors and raw bytes as the source
does; `FsState` says what disk image stands for what volume, and `FsRuns` shows
that any sequence of calls from a formatted disk behaves as a map from
nine-character names to fixed-length byte strings.

**Threads and synchronization** (`Semaphore`, `Scheduler`, `Lock`, `Condition`,
`SynchList`). Each is a state machine whose steps are the stretches of code
between points where simulated time can advance, with any interleaving of steps,
plus classes whose methods are those stretches. Some machines allow a switch at
more points than the source does, so what is proved covers the source's runs.
Fields described as history record what happened; apart from naming fresh threads
and requests they decide nothing, and what callers see is stated over the steps
of the run.

**The clock and the devices** (`List`, `Interrupt`, `Disk`, `Requests`,
`Network`, `PostOffice`). Interrupt handlers are an arbitrary function of what
has fired so far. `Requests` is the lock, request, wait, release protocol that
`SynchDisk` and `PostOfficeOutput` share. The wire keeps packets in order and
may lose any of them.

**The processor** (`Words`, `Memory`, `Mips`, `Mult`, `Decoding`, `Instructions`,
`LoadStore`, `DelayedLoads`, `Unaligned`). Words are bit vectors, except in the
multiplier, which is proved over integers with every wrap-around written out;
`Words` says what the operations on words do to the numbers they stand for, and
`Instructions` and `LoadStore` say in numbers what every instruction does. The
40-element register array is split into the general registers and named special
ones.

**Two refinements** (`HashTable`, `Decimal`): the growing hash table against a
map, and the decimal printer against the parser.

`Common` holds what several parts use: options, C division, and sequences without
repetition.

Where the text of the source and its comments differ, the code is followed:

- The comment above `SysReadNum` promises 0 for invalid input; an empty line
  gives the least integer, and a lone sign gives 0.
- `SRL` and `SRLV` shift a signed integer, so they keep the sign.
- A read that takes the track-buffer shortcut may do so while its sector is
  still passing under the head. `Disks.NotAlwaysByNow` gives the reads for which
  this happens and `Disks.BufferedByNow` the exact condition.
- `BGEZAL`, `BLTZAL` and `JALR` write the link register before they read the
  register they test or jump to.

## Model

| member | source | states |
|---|---|---|
| `FsRuns.RunRefines` | NachOS-4.0/code/filesys/filesys.cc:81-286 | over every run from a formatted disk, with sizes up to the maximum and no handle used after its file is removed, the disk invariant holds, every open handle stays current, and each Create, Open, ReadAt, WriteAt and Remove does to the disk what it does to a map from names to fixed-length byte strings |
| `FsRuns.StepRefines` | NachOS-4.0/code/filesys/filesys.cc:175-286 | one call keeps the invariant and every handle, and is the map operation: it changes one file and no other, and fails exactly when the map operation fails |
| `FsRuns.SectorsAccountedFor` | NachOS-4.0/code/filesys/filehdr.cc:43-74 | in every state of every run the map stored on the disk marks exactly the sectors of the two system files and of the listed files, and no sector has two owners |
| `FsRuns.CreateThenRemove` | NachOS-4.0/code/filesys/filesys.cc:175-286 | creating a file and removing it restores the free map and the map of files |
| `FsRuns.TwoNames` | NachOS-4.0/code/filesys/filesys.cc:175-214 | names that differ within their first nine characters, before any NUL, are two files: created one after the other, both are there with their own lengths, and the second Create fails only for its own sake; a short name is its own key |
| `FsRuns.ReadAfterWrite` | NachOS-4.0/code/filesys/openfile.cc:114-183 | byte by byte, what a ReadAt after a WriteAt returns: as many bytes as asked for or left in the file, those written where the two ranges meet, and the old ones elsewhere |
| `FsRuns.CallCreate` | NachOS-4.0/code/filesys/filesys.cc:175-214 | the method on the disk takes the Create step of the runs above |
| `FsRuns.CallOpen` | NachOS-4.0/code/filesys/filesys.cc:227-240 | the method takes the Open step, and the object returned is the handle of the state |
| `FsRuns.CallRemove` | NachOS-4.0/code/filesys/filesys.cc:257-286 | the method on the disk takes the Remove step |
| `FsRuns.CallWriteAt` | NachOS-4.0/code/filesys/openfile.cc:144-183 | in every state of a run the method on an open file takes the WriteAt step |
| `FsRuns.CallReadAt` | NachOS-4.0/code/filesys/openfile.cc:115-142 | in every state of a run the method on an open file takes the ReadAt step |
| `FileSystems.FileSystem.Format` | NachOS-4.0/code/filesys/filesys.cc:81-143 | whatever the disk held, formatting leaves a disk that satisfies the invariant and lists no files |
| `FileSystems.FileSystem.Mount` | NachOS-4.0/code/filesys/filesys.cc:81-143 | mounting a disk that satisfies the invariant opens the two system files on their headers |
| `FileSystems.FileSystem.Create` | NachOS-4.0/code/filesys/filesys.cc:175-214 | succeeds exactly when the name is new and fewer than ten files exist; success adds one entry of the given length, failure leaves every sector of the disk as it was |
| `FileSystems.FileSystem.Open` | NachOS-4.0/code/filesys/filesys.cc:227-240 | gives a file exactly when the name is listed, and then one that holds the header of that entry |
| `FileSystems.FileSystem.Remove` | NachOS-4.0/code/filesys/filesys.cc:257-286 | succeeds exactly when the name is listed; success drops that entry only and frees exactly its sectors |
| `FsState.RoomAlways` | NachOS-4.0/code/filesys/filesys.cc:175-214 | ten files of the greatest size and the system files never fill the disk, so Create cannot fail for want of sectors |
| `FsState.CreateRefines` | NachOS-4.0/code/filesys/filesys.cc:175-214 | the sector writes of a successful Create keep the invariant and add one entry to the map of files |
| `FsState.RemoveRefines` | NachOS-4.0/code/filesys/filesys.cc:257-286 | the sector writes of a successful Remove keep the invariant and drop one entry from the map of files |
| `FsState.WriteRefines` | NachOS-4.0/code/filesys/openfile.cc:145-183 | a write into one file keeps the invariant and replaces that file's bytes in the map of files |
| `Volumes.AddedConsistent` | NachOS-4.0/code/filesys/filehdr.cc:43-58 | giving unmarked sectors to a new file and marking them keeps the map exact and the owners disjoint |
| `Volumes.DroppedConsistent` | NachOS-4.0/code/filesys/filehdr.cc:67-74 | clearing exactly a file's sectors with its entry keeps the map exact and the owners disjoint |
| `OpenFiles.OpenFile.ReadAt` | NachOS-4.0/code/filesys/openfile.cc:115-142 | delivers exactly the bytes of the file from the position up to the request or the end of file, and touches nothing else of the caller's buffer |
| `OpenFiles.OpenFile.WriteAt` | NachOS-4.0/code/filesys/openfile.cc:144-183 | the file afterwards is its old contents with the clipped request spliced in, whatever the alignment of the two ends and however many sectors; no sector of another file changes |
| `OpenFiles.RaggedEnds` | NachOS-4.0/code/filesys/openfile.cc:162-172 | reading only the partly written first and last sectors, and the one sector only once, is enough for the splice |
| `OpenFiles.FlushedContents` | NachOS-4.0/code/filesys/openfile.cc:175-180 | writing back whole sectors, junk past end of file included, makes the file exactly the intended bytes |
| `OpenFiles.OpenFile.Read` | NachOS-4.0/code/filesys/openfile.cc:73-79 | reads at the seek position and advances it by the bytes transferred |
| `OpenFiles.OpenFile.Write` | NachOS-4.0/code/filesys/openfile.cc:81-87 | writes at the seek position and advances it by the bytes transferred |
| `OpenFiles.FileHeader.Allocate` | NachOS-4.0/code/filesys/filehdr.cc:43-58 | fails, leaving the map alone, exactly when too few sectors are free; otherwise claims distinct unmarked sectors, lowest first, and marks exactly those |
| `OpenFiles.FileHeader.Deallocate` | NachOS-4.0/code/filesys/filehdr.cc:67-74 | clears exactly the file's data sectors |
| `OpenFiles.FileHeader.FetchFrom` | NachOS-4.0/code/filesys/filehdr.cc:83-87 | the header in memory is the one encoded in the sector |
| `OpenFiles.FileHeader.WriteBack` | NachOS-4.0/code/filesys/filehdr.cc:96-100 | the sector then decodes to the header in memory, and no other sector changes |
| `OpenFiles.FileHeader.ByteToSector` | NachOS-4.0/code/filesys/filehdr.cc:112-116 | the sector that holds a byte offset of the file |
| `DiskLayout.HeaderRoundTrip` | NachOS-4.0/code/filesys/filehdr.h:38-64 | a header written as raw memory into a sector is read back unchanged |
| `DiskLayout.TableRoundTrip` | NachOS-4.0/code/filesys/directory.cc:62-79 | a directory table written as raw memory is read back unchanged |
| `DiskLayout.HeaderLayout` | NachOS-4.0/code/filesys/filehdr.h:38-64 | where each of the 32 integers of a header is in its sector |
| `DiskLayout.TableLayout` | NachOS-4.0/code/filesys/directory.h:32-39 | where the flag, the sector and the name of each entry are in the directory file |
| `DiskLayout.StrnEqualIsSameKey` | NachOS-4.0/code/filesys/directory.cc:89-96 | two names compare equal in the directory exactly when they have the same first nine characters |
| `DiskLayout.KeyOfStrncpy` | NachOS-4.0/code/filesys/directory.cc:128-142 | the truncated copy of a name kept in an entry stands for the same file as the name |
| `DiskLayout.KeyIs` | NachOS-4.0/code/filesys/directory.h:22-24 | the key of a name is the name itself, cut at its first NUL or after nine characters |
| `DiskLayout.KeysDiffer` | NachOS-4.0/code/filesys/directory.cc:89-96 | two names have different keys exactly when they differ at one of the first nine places with no NUL before it |
| `Directories.Directory.Find` | NachOS-4.0/code/filesys/directory.cc:107-115 | the header sector of an entry in use with that name, or -1 when there is none |
| `Directories.Directory.Add` | NachOS-4.0/code/filesys/directory.cc:128-142 | fails without effect exactly when the name is listed or no entry is free; otherwise fills one free entry and leaves the others |
| `Directories.Directory.Remove` | NachOS-4.0/code/filesys/directory.cc:152-161 | fails without effect exactly when the name is not listed; otherwise frees that entry only |
| `Directories.Directory.FetchFrom` | NachOS-4.0/code/filesys/directory.cc:62-66 | the table becomes the one encoded in the directory file |
| `Directories.Directory.WriteBack` | NachOS-4.0/code/filesys/directory.cc:75-79 | the directory file then decodes to the table |
| `FileSystems.FetchMap` | NachOS-4.0/code/filesys/pbitmap.cc:38-66 | the bit map read from its file has exactly the bits of the map on the disk |
| `FileSystems.WriteMap` | NachOS-4.0/code/filesys/pbitmap.cc:75-79 | the map on the disk then has exactly the bits of the bit map in memory |
| `Bitmaps.Bitmap.Mark` | NachOS-4.0/code/lib/bitmap.cc:55-63 | adds one number to the set of marked bits |
| `Bitmaps.Bitmap.Clear` | NachOS-4.0/code/lib/bitmap.cc:72-80 | takes one number out of the set of marked bits |
| `Bitmaps.Bitmap.Test` | NachOS-4.0/code/lib/bitmap.cc:89-99 | whether a number is in the set of marked bits |
| `Bitmaps.Bitmap.FindAndSet` | NachOS-4.0/code/lib/bitmap.cc:110-120 | marks the lowest clear bit, or answers -1 exactly when all are marked |
| `Bitmaps.Bitmap.NumClear` | NachOS-4.0/code/lib/bitmap.cc:128-139 | the number of bits that are not marked |
| `Bitmaps.WordsRoundTrip` | NachOS-4.0/code/filesys/pbitmap.cc:62-79 | the words of a bit map written as raw memory are read back unchanged |
| `Semaphores.Semaphore.P` | NachOS-4.0/code/threads/synch.cc:75-92 | one test of the loop: take a unit if there is one, otherwise join the queue and sleep |
| `Semaphores.Semaphore.V` | NachOS-4.0/code/threads/synch.cc:102-117 | the longest waiter becomes ready and the value goes up by one |
| `Semaphores.TestKeepsOk` | NachOS-4.0/code/threads/synch.cc:75-92 | a test by a newcomer or by a woken waiter keeps value = initial + Vs - Ps >= 0, and value <= woken waiters while anyone sleeps |
| `Semaphores.VKeepsOk` | NachOS-4.0/code/threads/synch.cc:102-117 | V keeps the same invariant |
| `Kernels.SemaphoresSafe` | NachOS-4.0/code/threads/synch.cc:75-117 | in every interleaving no value goes negative, and while a thread sleeps beside a free unit some waiter is on the ready list or running |
| `Kernels.OnePlace` | NachOS-4.0/code/threads/scheduler.cc:56-167 | in every state of every run each thread is in exactly one place: it is on the ready list, in a given queue, running, or finished but not freed exactly when its place says so, once; a thread not yet forked, finished or deleted is on no list |
| `Kernels.CarcassSafe` | NachOS-4.0/code/threads/scheduler.cc:103-167 | the carcass slot is free when a thread finishes, the carcass is freed by the very next step, and never by itself |
| `Kernels.FirstComeFirstServed` | NachOS-4.0/code/threads/scheduler.cc:74-84 | a ready thread with k ahead of it moves up only by dequeues and is dispatched by exactly the (k+1)-th |
| `Kernels.UnitsConserved` | NachOS-4.0/code/threads/synch.cc:75-117 | over every run, counting steps: the value of a semaphore is what it was created with plus its Vs minus the Ps that returned, and a P sleeps exactly when that is zero |
| `Kernels.FirstAsleepFirstWoken` | NachOS-4.0/code/threads/synch.cc:75-117 | a sleeper with j ahead of it is made ready by exactly the (j+1)-th V and goes to the end of the ready list |
| `Kernels.NeverLost` | NachOS-4.0/code/threads/thread.cc:91-255 | from its Fork until it calls Finish itself, a thread is running, on the ready list or asleep in a queue |
| `Kernels.Lifecycle` | NachOS-4.0/code/threads/thread.cc:91-255 | a thread is unforked until a Fork names it, and finished or deleted exactly if it called Finish |
| `Kernels.GoesOn` | NachOS-4.0/code/threads/thread.cc:201-255 | in every state of every run the running thread, the switch or an idle machine with something ready can go on, and handlers can raise any semaphore |
| `Kernels.StepInv` | NachOS-4.0/code/threads/thread.cc:91-255 | every step of the kernel, from Fork to Finish, keeps the invariant that ties lists, places and semaphores together |
| `Schedulers.Scheduler.ReadyToRun` | NachOS-4.0/code/threads/scheduler.cc:56-64 | the thread goes to the end of the ready list |
| `Schedulers.Scheduler.FindNextToRun` | NachOS-4.0/code/threads/scheduler.cc:74-84 | takes the front of the ready list, or nothing exactly when it is empty |
| `Schedulers.Scheduler.Run` | NachOS-4.0/code/threads/scheduler.cc:103-150 | the next thread becomes current and a finishing one becomes the carcass; the slot must be free |
| `Schedulers.Scheduler.Yield` | NachOS-4.0/code/threads/thread.cc:201-217 | the front of the ready list runs and the caller goes to its end; with an empty list nothing changes |
| `Schedulers.Scheduler.Sleep` | NachOS-4.0/code/threads/thread.cc:239-255 | idles exactly as long as nothing is ready, and then the front of the ready list runs in place of the sleeping or finishing thread |
| `Locks.LockRuns` | NachOS-4.0/code/threads/synch.cc:181-203 | in every interleaving, also when a thread acquires a lock that it is inside, at most one thread is between the P and the V, a recorded holder is that thread, and with nobody inside the lock is free |
| `Locks.InsideIsHistory` | NachOS-4.0/code/threads/synch.cc:181-203 | the threads inside are those whose last test found the lock free and that have not called Release since |
| `Locks.OnlyOne` | NachOS-4.0/code/threads/synch.cc:181-203 | mutual exclusion follows from the lock's invariant |
| `Locks.LockIdle` | NachOS-4.0/code/threads/synch.cc:181-203 | a free lock with sleepers has a waiter on its way to it |
| `Locks.Lock.AcquireTest` | NachOS-4.0/code/threads/synch.cc:181-185 | the P of Acquire on the lock's semaphore, up to where another thread can run |
| `Locks.Lock.Release` | NachOS-4.0/code/threads/synch.cc:198-203 | by the holder only: the record is cleared and the longest waiter, if any, is made ready |
| `Conditions.Condition.Enqueue` | NachOS-4.0/code/threads/synch.cc:244-256 | Wait allocates a fresh semaphore at zero and queues it last |
| `Conditions.Condition.Signal` | NachOS-4.0/code/threads/synch.cc:273-283 | the first queued semaphore, if any, gets one unit, and the others are untouched |
| `Conditions.Condition.Broadcast` | NachOS-4.0/code/threads/synch.cc:292-297 | every queued semaphore gets exactly one unit, in order, and the queue is empty |
| `SynchLists.Delivery` | NachOS-4.0/code/threads/synchlist.cc:51-81 | in every interleaving the items given to Append, in the order in which the calls got the lock, are those returned by RemoveFront, in order, followed by those on the list; while a consumer is queued the list is no longer than the signalled consumers that have not resumed |
| `SynchLists.HistoryIsCalls` | NachOS-4.0/code/threads/synchlist.cc:51-81 | the histories of items and takers are those of the steps of the calls: each consumer that returns takes what was at the front |
| `SynchLists.AppendReturned` | NachOS-4.0/code/threads/synchlist.cc:51-60 | a call of Append that has returned has put its own item on the list, exactly once |
| `SynchLists.RemoveReturned` | NachOS-4.0/code/threads/synchlist.cc:68-81 | a call of RemoveFront that has returned took the front of the list in its last step and nothing else |
| `SynchLists.FirstWaitingFirstSignalled` | NachOS-4.0/code/threads/synch.cc:244-283 | queued consumers are signalled in the order in which they began to wait |
| `SynchLists.HistoryGrows` | NachOS-4.0/code/threads/synchlist.cc:51-81 | what has been removed and by whom never changes later |
| `SynchLists.NoMissedSignal` | NachOS-4.0/code/threads/synch.cc:244-283 | a waiter signalled between its Release and its P is not asleep and its next test succeeds |
| `SynchLists.AssertionsHold` | NachOS-4.0/code/threads/synch.cc:198-283 | no assertion of Wait, Signal or Release can fail, no deleted semaphore is signalled, an awake thread can always go on, and one outside can always call |
| `SynchLists.OnlyEmptyBlocks` | NachOS-4.0/code/threads/synchlist.cc:51-81 | all threads in the monitor can be asleep only if all are queued consumers and the list is empty |
| `SynchLists.StepOk` | NachOS-4.0/code/threads/synchlist.cc:51-81 | each stretch of Append and RemoveFront between two switch points keeps the monitor invariant |
| `Requests.OneOutstanding` | NachOS-4.0/code/filesys/synchdisk.cc:57-94 | for any number of callers at most one request is outstanding, the device's busy flag, if it sets one as the disk does, says whether one is, and the assertion that it is idle never fails |
| `Requests.ReturnsAfterItsOwn` | NachOS-4.0/code/filesys/synchdisk.cc:57-82 | when a call returns, its thread has since handed the device what the call asked for, and after that the device has interrupted for that very request |
| `Requests.NeverStuck` | NachOS-4.0/code/filesys/synchdisk.cc:57-94 | while a call is in progress some thread can step or an interrupt is pending |
| `Requests.StepOk` | NachOS-4.0/code/network/post.cc:299-343 | every step keeps the invariant, also under PostOfficeOutput, whose device tests its busy flag but never sets it |
| `Disks.UnbufferedEnds` | NachOS-4.0/code/machine/disk.cc:229-250 | a request that goes to the platter ends at the first sector boundary after the seek at which the whole target sector has gone by, after 500 to 31999 ticks |
| `Disks.SeekTime` | NachOS-4.0/code/machine/disk.cc:176-191 | the head takes 500 ticks for each track it crosses and then waits for the next sector boundary and no longer |
| `Disks.RequestEnds` | NachOS-4.0/code/machine/disk.cc:229-268 | every request, buffered or not, ends with its whole sector passed since the head came to the track, after 500 to 31999 ticks; the head is then on its track, and the buffer fills from the first boundary after the head arrived, or as before if it did not move |
| `Disks.BufferHolds` | NachOS-4.0/code/machine/disk.cc:229-250 | a read takes the track-buffer shortcut, of 500 ticks, exactly when no seek is needed and the sector goes by between the head's arrival on the track and the next boundary, hence by the end of the request |
| `Disks.BufferedByNow` | NachOS-4.0/code/machine/disk.cc:236-243 | the sector has gone by at the time of the request exactly when the shortcut test holds without rounding the time up |
| `Disks.NotAlwaysByNow` | NachOS-4.0/code/machine/disk.cc:236-243 | a family of reads that take the shortcut while the sector is still passing under the head |
| `Disks.CaughtInARun` | NachOS-4.0/code/machine/disk.cc:236-243 | such a read happens in a run from the start: sector 0, ten ticks in |
| `Disks.DiskRuns` | NachOS-4.0/code/machine/disk.cc:113-268 | over every run bufferInit is a multiple of the rotation time, and not in the future while the disk is idle, so both results above apply to every request |
| `Disks.Disk.Submit` | NachOS-4.0/code/machine/disk.cc:113-151 | with the head and buffer in order, the interrupt comes 500 to 31999 ticks later, at a time by which the whole sector has passed under the head, and the buffer is in order for the next request |
| `Disks.Disk.UpdateLast` | NachOS-4.0/code/machine/disk.cc:258-268 | the last sector changes, and the buffer's start only after a seek |
| `Interrupts.Punctual` | NachOS-4.0/code/machine/interrupt.cc:147-322 | over every run and for any handlers: pending interrupts are strictly in the future, ticks add up, what has fired followed by what is pending is in order of time and then of scheduling, each scheduled interrupt is there exactly once, and none fires early or ten ticks late |
| `Interrupts.EachScheduledOnce` | NachOS-4.0/code/machine/interrupt.cc:256-322 | so the serial numbers of the interrupts fired and pending are those given out by Schedule, each once |
| `Interrupts.EachRequestKept` | NachOS-4.0/code/machine/interrupt.cc:256-266 | every call of Schedule, by the kernel or by a handler in the firing loop, has exactly one entry, fired or pending: for the object it named, due at the time of the call plus the delay |
| `Interrupts.OnTime` | NachOS-4.0/code/machine/interrupt.cc:256-322 | so an interrupt that has gone off calls the object that was asked for, at a tick from the time asked for up to ten later, exclusive |
| `Interrupts.TimePasses` | NachOS-4.0/code/machine/interrupt.cc:123-322 | each operation takes ten ticks in system mode, one in user mode, idle time up to the next interrupt, or none; interrupts go off at the time it takes the clock to |
| `Interrupts.FiresExactlyTheDue` | NachOS-4.0/code/machine/interrupt.cc:313-321 | the loop fires exactly the entries due when it began, in order, whatever the handlers schedule; the others stay pending, and only newly scheduled ones join them |
| `Interrupts.FireFrontOk` | NachOS-4.0/code/machine/interrupt.cc:313-321 | each turn of the loop leaves one due entry fewer, which is why it ends |
| `Interrupts.FireDueOk` | NachOS-4.0/code/machine/interrupt.cc:313-321 | the loop ends with every pending entry strictly in the future |
| `Interrupts.SwitchRequested` | NachOS-4.0/code/machine/interrupt.cc:189-194 | after the loop a switch is requested exactly when one was before or some handler called by the loop asked for it |
| `Interrupts.InsertOrdered` | NachOS-4.0/code/machine/interrupt.cc:256-266 | a newly scheduled entry keeps the queue in order of time and then of scheduling |
| `Interrupts.Interrupt.Schedule` | NachOS-4.0/code/machine/interrupt.cc:256-266 | the queue gains one entry, for the object given and at the current time plus the delay, in its place in the order |
| `Interrupts.Interrupt.CheckIfDue` | NachOS-4.0/code/machine/interrupt.cc:280-322 | fires all due interrupts, after moving the clock to the next one when idle; answers whether any fired |
| `Interrupts.Interrupt.OneTick` | NachOS-4.0/code/machine/interrupt.cc:147-176 | advances the clock by the mode's tick and fires what is due; yields exactly when a switch is requested after that, and the request is then cleared |
| `Interrupts.Interrupt.SetLevel` | NachOS-4.0/code/machine/interrupt.cc:123-136 | returns the old level; enabling from disabled takes a tick |
| `Interrupts.Interrupt.Idle` | NachOS-4.0/code/machine/interrupt.cc:207-227 | runs idle time up to the next interrupt and fires it, or halts exactly when none is pending |
| `Lists.InsertedSorted` | NachOS-4.0/code/lib/list.cc:232-260 | a sorted insertion keeps the list sorted, for any comparison function |
| `Lists.InsertedOnce` | NachOS-4.0/code/lib/list.cc:232-260 | it adds exactly one item |
| `Lists.PlaceSplits` | NachOS-4.0/code/lib/list.cc:232-260 | it is stable: nothing before the new item is greater and everything after it is |
| `Lists.List.Insert` | NachOS-4.0/code/lib/list.cc:232-260 | the linked list afterwards holds its old items with the new one before the first strictly greater one |
| `Lists.List.Append` | NachOS-4.0/code/lib/list.cc:73-89 | the linked list afterwards holds its old items and then the new one |
| `Lists.List.Prepend` | NachOS-4.0/code/lib/list.cc:97-112 | the linked list afterwards holds the new item and then its old ones |
| `Lists.List.RemoveFront` | NachOS-4.0/code/lib/list.cc:123-142 | returns the first item and leaves the rest |
| `Lists.List.Remove` | NachOS-4.0/code/lib/list.cc:149-178 | the first occurrence of the item is taken out, the order of the rest is kept, and the item is no longer in the list |
| `Lists.List.IsInList` | NachOS-4.0/code/lib/list.cc:185-197 | whether the item is among those of the list |
| `PostOffices.Faithful` | NachOS-4.0/code/network/post.cc:190-329 | in every run of any number of machines the mails received from a box, restricted to one sender, are a prefix of those the sender sent there that were not lost |
| `PostOffices.ReceivedIsSubsequence` | NachOS-4.0/code/network/post.cc:190-329 | the mails that Receive returned from a box, restricted to one sender, are what a strictly increasing choice of that machine's calls of Send were given, byte for byte: addressed to that box, not lost, none twice, in order |
| `PostOffices.LogIsCalls` | NachOS-4.0/code/network/post.cc:299-329 | the log of a machine has one entry for each of its calls of Send that passes the assertions, with that call's addresses, header and bytes, and marked lost exactly if the packet was or had nowhere to go |
| `PostOffices.ReceivedIsCalls` | NachOS-4.0/code/network/post.cc:232-240 | what is recorded as received from a box is what the calls of Receive returned, each the front of the box |
| `PostOffices.AllDelivered` | NachOS-4.0/code/network/post.cc:190-240 | when nothing is under way at the receiver and a box is empty, every mail sent to it and not lost has been received |
| `PostOffices.HaltsOnlyIf` | NachOS-4.0/code/network/post.cc:190-329 | a machine stops exactly for a header that Send refuses or a box that it does not have |
| `PostOffices.MachineGoesOn` | NachOS-4.0/code/network/post.cc:190-216 | a machine that has not stopped can always poll, send and receive, and its worker can go on unless there is nothing to do |
| `PostOffices.WorkerSafe` | NachOS-4.0/code/network/post.cc:190-216 | the worker calls Receive only on a full inbox, no arrival goes unnoticed, and no packet fails the network's assertion |
| `PostOffices.StepOk` | NachOS-4.0/code/machine/network.cc:60-182 | every send, poll, delivery and receipt keeps the invariant that accounts for each mail |
| `Networks.PacketRoundTrip` | NachOS-4.0/code/network/post.cc:299-329 | a mail put on the wire behind two headers, in a padded buffer, is taken apart into the same mail |
| `Networks.PacketLayout` | NachOS-4.0/code/network/post.cc:309-318 | where the two headers and the data are on the wire |
| `Networks.PolledMail` | NachOS-4.0/code/machine/network.cc:60-86 | the packet copied into the inbox holds the mail that was on the wire |
| `Networks.NetworkInput.CallBack` | NachOS-4.0/code/machine/network.cc:60-86 | a packet is taken exactly when the inbox is empty and one is waiting |
| `Networks.NetworkInput.Receive` | NachOS-4.0/code/machine/network.cc:93-103 | the buffered packet is handed over and the inbox becomes empty |
| `Networks.Send` | NachOS-4.0/code/network/post.cc:299-329 | the bytes put on the wire are taken apart into the mail that was sent, with the sender's address filled in |
| `Networks.BuildMail` | NachOS-4.0/code/network/post.cc:309-318 | the mail header and then the data |
| `Networks.BuildPacket` | NachOS-4.0/code/machine/network.cc:158-182 | the packet header, the payload, and padding to the wire size |
| `Multiplication.Mult` | NachOS-4.0/code/machine/mipssim.cc:771-828 | for every pair of 32-bit words the two result words are the exact 64-bit product, signed or unsigned |
| `Multiplication.MultUnsigned` | NachOS-4.0/code/machine/mipssim.cc:794-813 | the shift-and-add loop, with its sign-keeping shift, carry test and early exit, computes the unsigned product |
| `Multiplication.NegateDouble` | NachOS-4.0/code/machine/mipssim.cc:815-823 | two's complement of the double word |
| `Multiplication.AddDouble` | NachOS-4.0/code/machine/mipssim.cc:799-803 | the carry test finds exactly the carry out of the low word |
| `DelayedLoads.FlushInvisible` | NachOS-4.0/code/machine/mipssim.cc:711-718 | for any instruction that neither reads nor at once writes the pending register, executing from the flushed and the unflushed state gives the same view and memory, trap or not; LWL and LWR into it are allowed |
| `DelayedLoads.FlushInvisibleToCycle` | NachOS-4.0/code/machine/interrupt.cc:309-311 | the same for a whole fetch, decode and execute cycle |
| `DelayedLoads.InterruptsInvisible` | NachOS-4.0/code/machine/interrupt.cc:309-311 | a program that respects the load delay when run without interrupts has the same view and memory with interrupts before any of its instructions |
| `DelayedLoads.ReadIsVisible` | NachOS-4.0/code/machine/mipssim.cc:711-718 | the condition is needed: reading the pending register tells the two states apart |
| `DelayedLoads.WriteIsVisible` | NachOS-4.0/code/machine/mipssim.cc:711-718 | the condition is needed: a result written to the pending register is lost to the load |
| `DelayedLoads.ExecuteInputs` | NachOS-4.0/code/machine/mipssim.cc:120-701 | what an instruction does depends only on the registers it reads |
| `Mips.Machine.Run` | NachOS-4.0/code/machine/mipssim.cc:120-701 | the registers array and memory after one turn are those of the specification of the instruction at the program counter; the turn ends in an exception exactly when the fetch or the instruction traps there |
| `LoadsAndStores.TurnFetches` | NachOS-4.0/code/machine/mipssim.cc:120-136 | each turn executes the decoded word at the program counter, lowest byte first, or raises the exception of fetching it with that address |
| `Decoding.DecodeInverts` | NachOS-4.0/code/machine/mipssim.cc:725-763 | decoding inverts an encoder that puts each field in its place, for every instruction and all its fields |
| `Decoding.CodesOnly` | NachOS-4.0/code/machine/mipssim.h:117-150 | a code that stands for an instruction is that instruction's own, and all the others are illegal |
| `Instructions.WrappingSum` | NachOS-4.0/code/machine/mipssim.cc:181-183 | ADDU gives the sum modulo 2^32, and changes nothing else but the program counters and the pending load |
| `Instructions.WrappingDifference` | NachOS-4.0/code/machine/mipssim.cc:542-544 | SUBU gives the difference modulo 2^32 |
| `Instructions.WrappingImmediate` | NachOS-4.0/code/machine/mipssim.cc:177-179 | ADDIU gives the sum with its immediate modulo 2^32 |
| `Instructions.TrappingSum` | NachOS-4.0/code/machine/mipssim.cc:157-165 | ADD gives the signed sum, or raises an overflow exception exactly when it does not fit |
| `Instructions.TrappingDifference` | NachOS-4.0/code/machine/mipssim.cc:532-540 | SUB gives the signed difference, or raises an overflow exception exactly when it does not fit |
| `Instructions.TrappingImmediate` | NachOS-4.0/code/machine/mipssim.cc:167-175 | ADDI gives the signed sum with its immediate, or raises an overflow exception exactly when it does not fit |
| `Instructions.Comparisons` | NachOS-4.0/code/machine/mipssim.cc:479-509 | SLT and SLTU give one if the signed or unsigned number is less, and otherwise zero |
| `Instructions.ComparisonsImmediate` | NachOS-4.0/code/machine/mipssim.cc:486-500 | SLTI and SLTIU, with their immediates |
| `Instructions.Logic` | NachOS-4.0/code/machine/mipssim.cc:446-452 | AND, OR, XOR and NOR, bit by bit |
| `Instructions.LogicImmediate` | NachOS-4.0/code/machine/mipssim.cc:189-191 | ANDI, ORI and XORI, bit by bit with the low half of the immediate |
| `Words.BitIs` | NachOS-4.0/code/machine/mipssim.cc:185-191 | the bits that those laws speak of are binary digits: bit k is the one of weight 2^k |
| `Instructions.ShiftsImmediate` | NachOS-4.0/code/machine/mipssim.cc:470-524 | SLL multiplies by a power of two modulo 2^32; SRA and SRL both divide the signed number and round down |
| `Instructions.ShiftsVariable` | NachOS-4.0/code/machine/mipssim.cc:474-530 | SLLV, SRAV and SRLV do the same by the low five bits of a register |
| `Instructions.Upper` | NachOS-4.0/code/machine/mipssim.cc:295-298 | LUI gives its immediate times 65536, modulo 2^32 |
| `Instructions.MovesFrom` | NachOS-4.0/code/machine/mipssim.cc:420-426 | MFHI and MFLO copy from hi and lo |
| `Instructions.MovesTo` | NachOS-4.0/code/machine/mipssim.cc:428-434 | MTHI and MTLO set hi or lo and leave the other |
| `Instructions.Multiplications` | NachOS-4.0/code/machine/mipssim.cc:436-444 | MULT and MULTU leave in hi and lo the halves of the exact product, as Multiplication.Mult computes them |
| `Instructions.Divisions` | NachOS-4.0/code/machine/mipssim.cc:227-249 | DIV and DIVU leave in lo and hi a quotient rounded towards zero and a remainder smaller than the divisor with the sign of the dividend; zeros for a zero divisor |
| `Instructions.EqualityBranches` | NachOS-4.0/code/machine/mipssim.cc:193-225 | BEQ and BNE go to the next instruction's address plus four times the immediate, or on, by whether the registers stand for the same number |
| `Instructions.SignBranches` | NachOS-4.0/code/machine/mipssim.cc:200-220 | BGEZ, BLTZ, BGTZ and BLEZ branch by the sign of the signed number |
| `Instructions.LinkBranches` | NachOS-4.0/code/machine/mipssim.cc:198-220 | BGEZAL and BLTZAL leave the return address in register 31 first, and then branch |
| `Instructions.RegisterJumps` | NachOS-4.0/code/machine/mipssim.cc:257-261 | JR and JALR go to the address in a register; JALR leaves the return address first |
| `Instructions.RegionJumps` | NachOS-4.0/code/machine/mipssim.cc:251-255 | J and JAL go to the indexed word of the 256 megabytes around the instruction after the next |
| `Instructions.Exceptions` | NachOS-4.0/code/machine/mipssim.cc:670-685 | SYSCALL and what is not an instruction raise their exceptions, with nothing finished but the pending load |
| `LoadsAndStores.LoadInstructions` | NachOS-4.0/code/machine/mipssim.cc:263-310 | LB, LBU, LH, LHU and LW make pending the number in exactly the bytes at their address, with or without sign, or raise the exception of the translation |
| `LoadsAndStores.StoreInstructions` | NachOS-4.0/code/machine/mipssim.cc:458-550 | SB, SH and SW write the low bytes of the register to exactly the bytes at their address, or raise the exception of the translation |
| `Mips.Machine.RaiseException` | NachOS-4.0/code/machine/machine.cc:100-110 | the bad address is recorded and the pending load finished before the handler runs |
| `Mips.Machine.ApplyDelayedLoad` | NachOS-4.0/code/machine/mipssim.cc:711-718 | the array afterwards has the pending load applied, the next one pending, and register 0 zero |
| `Unaligned.StorePair` | NachOS-4.0/code/machine/mipssim.cc:552-668 | SWR at a and then SWL at a+3, executed, write the register to bytes a to a+3 and change no other byte of memory, for every address, across pages |
| `Unaligned.LoadPair` | NachOS-4.0/code/machine/mipssim.cc:312-418 | LWR at a and LWL at a+3, executed in either order, leave the word at a pending for the register |
| `Unaligned.StoreThenLoad` | NachOS-4.0/code/machine/mipssim.cc:312-668 | SWR, SWL, LWR and LWL executed one after the other bring back the value that the stored register had, for every writable address |
| `Unaligned.StoredIsWord` | NachOS-4.0/code/machine/mipssim.cc:312-668 | the word at an address where four bytes were stored is the value stored |
| `Unaligned.StoreMerges` | NachOS-4.0/code/machine/mipssim.cc:552-668 | a store of either kind rewrites exactly the aligned word around its address and does not trap where it may write |
| `Memories.TranslateFaults` | NachOS-4.0/code/machine/translate.cc:184-251 | exactly when each of the four exceptions is raised, in terms of alignment and the entry of the page, and the physical address otherwise |
| `Memories.TouchedTranslates` | NachOS-4.0/code/machine/translate.cc:244-246 | setting the use and dirty bits changes no later translation |
| `Memories.TouchedBits` | NachOS-4.0/code/machine/translate.cc:244-246 | the use bit, and the dirty bit on a write, are set in the entry that translates the address and in no other |
| `Memories.WordRoundTrip` | NachOS-4.0/code/machine/translate.cc:135-167 | a word stored byte by byte is loaded back unchanged |
| `HashTables.HashTable.Insert` | NachOS-4.0/code/lib/hash.cc:108-124 | the table afterwards is the map with one more entry, with at most three items a bucket on average |
| `HashTables.HashTable.ReHash` | NachOS-4.0/code/lib/hash.cc:134-153 | four times the buckets and the same map |
| `HashTables.HashTable.Find` | NachOS-4.0/code/lib/hash.cc:191-198 | the item of the key in the map, or nothing |
| `HashTables.HashTable.Remove` | NachOS-4.0/code/lib/hash.cc:208-223 | returns the item of the key and takes the key out of the map |
| `HashTables.HashTable.FindInBucket` | NachOS-4.0/code/lib/hash.cc:166-181 | finds an item with the key in the bucket, or shows that there is none |
| `HashTables.HashTable.FindNextFullBucket` | NachOS-4.0/code/lib/hash.cc:249-259 | the first bucket with an item at or after the given one |
| `HashTables.LookupIs` | NachOS-4.0/code/lib/hash.cc:166-198 | for every hash function, an item with the key is in the bucket of the key exactly when the map has it |
| `HashTables.EachItemOnce` | NachOS-4.0/code/lib/hash.cc:331-360 | the order of iteration holds each item of the table exactly once |
| `HashTables.VisitAll` | NachOS-4.0/code/lib/hash.cc:331-360 | iterating until done visits every item of the map exactly once and nothing else |
| `HashTables.HashIterator.constructor` | NachOS-4.0/code/lib/hash.cc:331-340 | all items are still to come |
| `HashTables.HashIterator.Next` | NachOS-4.0/code/lib/hash.cc:348-360 | exactly the current item is no longer to come |
| `HashTables.HashIterator.IsDone` | NachOS-4.0/code/lib/hash.cc:331-360 | done exactly when nothing is still to come |
| `Decimals.RoundTrip` | NachOS-4.0/code/userprog/ksyscall.h:81-191 | every 32-bit number printed and followed by a newline is read back as itself |
| `Decimals.DigitsOfValue` | NachOS-4.0/code/userprog/ksyscall.h:141-191 | the printed digits are the only numeral for the number without a leading zero |
| `Decimals.SysReadNum` | NachOS-4.0/code/userprog/ksyscall.h:81-139 | a line of at most 11 characters gives its number if it is one that fits in 32 bits, 0 if it is malformed or does not fit, and the least integer if it is empty |
| `Decimals.SysPrintNum` | NachOS-4.0/code/userprog/ksyscall.h:141-191 | prints the decimal numeral, with a sign for negative numbers |
| `Decimals.SysReadString` | NachOS-4.0/code/userprog/ksyscall.h:56-65 | the buffer holds the line up to its terminator or the given length |
| `Decimals.SysPrintString` | NachOS-4.0/code/userprog/ksyscall.h:67-74 | prints up to the first NUL |
| `Decimals.TooBig` | NachOS-4.0/code/userprog/ksyscall.h:115-127 | once the overflow test fires no further digits can bring the value back, except for the least integer |

## Left out

- OpenFiles.OpenFile.ReadAt: the position is not negative and position plus length fits in an `int`, since the source does not guard that sum.
- OpenFiles.OpenFile.WriteAt: the same bounds on position and length, for the same reason.
- OpenFiles.OpenFile.Read: the same bounds, on the seek position.
- OpenFiles.OpenFile.Write: the same bounds, on the seek position.
- OpenFiles.FileHeader.Allocate: sizes are between 0 and the greatest file size; beyond it the source writes past its table of sectors.
- FileSystems.FileSystem.Create: sizes are between 0 and the greatest file size, since the source checks neither end.
- FsRuns.RunRefines: a handle is not used after its file is removed; the source leaves that to its callers.
- Decimals.SysReadNum: lines of more than 11 characters are not modelled, since the source then reads past an unterminated buffer.
- Interrupts.Interrupt.OneTick: a tick that yields stops at the switch, in system mode; the switch itself is a step of `Kernels`, and the source restores the mode when the thread next runs.
- PostOffices.Faithful: mailboxes are first-in first-out queues here; that `SynchList` makes them so is `SynchLists.Delivery`.
- Requests.OneOutstanding: the data moved by a request is not part of this machine; the source moves it when the request is issued.
- Instructions.Divisions: `DIV` of the least integer by -1 is given the wrapped quotient, where the source's division is undefined.
- Instructions.RegionJumps: the index has 26 bits, as decoding leaves it.
- Memories.TranslateFaults: a page number is compared as a non-negative integer, and the debugging output is omitted.
- Lists.List.Insert: the comparison function is passed in with each call instead of being kept in the list; freed elements are not reclaimed.
- HashTables.HashTable.Insert: each bucket is a sequence instead of a linked list, so aliasing between buckets is not modelled.
- Schedulers.Scheduler.Sleep: the threads that each idle period makes ready are given; if none ever is, the source halts inside `Idle` and the call does not return.
- The stub file system over UNIX files, and the system calls that use its descriptors: they wrap the host.
- Crash consistency and concurrent use of the file system: the source rules both out.
- `List`, `Print`, `Apply`, `SelfTest` and `SanityCheck` members: output and self-checks.
- The console, the timer, the debugger, statistics printing and command lines: input and output.
- Exceptions beyond raising them, the register save and restore of threads, and stack allocation: a thread switch is one atomic change of the current thread.
- The random choice of lost packets and the sockets below the wire: loss is arbitrary.
- Liveness beyond the absence of stuck states: fairness of the host's timing is not modelled.
- The executable loader, the file format converter and the user programs: they would add only easy members.
