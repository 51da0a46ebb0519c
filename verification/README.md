# A model of the Nachos kernel in Dafny

This project models five parts of an extended Nachos kernel and proves what they are for.

* **Storage** (`Words`, `BitMap`, `SynchDisk`, `Layout`, `FileHeader`, `OpenFile`, `Directory`, `FileSystemSpec`,
  `FileSystemPlan`, `FileSystem`, `FileSystemRun`, `FileClose`, `FileSession`). A sector bitmap packed into words,
  i-nodes with direct, single-indirect and double-indirect tables, byte-range I/O over whole sectors, and a directory;
  the bitmap and the directory are files on the disk they describe. The sectors are shown to behave as flat byte
  strings keyed by name, with disjoint sector ownership, over every sequence of operations from format on: every reply
  is the one that named byte strings would give, also through files that are opened, used and closed.
* **Threads and synchronisation** (`Collections`, `List`, `Semaphore`, `Scheduler`, `Threads`, `ThreadEvents`,
  `Forgotten`, `Mutex`, `LockRefinement`, `Buffer`, `BoundedBuffer`, `SemaphoreBuffer`, `WriteReadLock`, `SynchList`).
  The linked list and the objects built on it are classes. What several threads do together is a machine whose steps
  are the stretches of code that run with interrupts off; a thread that sleeps inside such a stretch carries the place
  where it resumes. Theorems hold for any number of threads and every interleaving. The protocols are built on a lock
  that the thread machine is shown to implement. Besides what never goes wrong, each comes with what goes right: who is
  held up, how far each stretch brings a thread, and in which order sleepers are woken.
* **Time** (`Interrupt`). The sorted list of pending interrupts, the loops that drain it while handlers add to it, and
  the tick counters. Handlers are arbitrary, given as a function from the number of the call to what the handler does.
  What a run does is defined on values, and the object is shown to do it.
* **Machine** (`Mult`, `Tlb`). The shift-and-add multiplier on wrapping words, and address translation through a
  first-in-first-out TLB with loads, stores, both byte orders, and instructions that start over after a miss.
* **Devices** (`DeviceProtocol`, `DiskTiming`, `PostOffice`, `PostSender`). The synchronous disk over an asynchronous
  one, the latency of requests with the track buffer, and mail over a network that loses packets, from the threads
  that send it to the mailboxes.

## Reading guide

Where the code turned out not to do what it is meant to do in every case, the model keeps the code and proves exactly
when it does.

* The free-space guard of `Allocate` counts data sectors only. What it grants is a usable file if and only if the map
  also has room for the index sectors (`GrantSoundIffRoomForIndex`); `Overcommit` is a call where it has not.
* `Allocate` branches on `<` and `Deallocate` on `>`. Files that end exactly where the direct or the single-indirect
  blocks end, of 7 or 39 sectors, leave one index sector marked (`AllocateThenDeallocate`, and `AlongIsReturned` for
  every number of direct entries and every table size).
* Closing a file rewrites its header, and nothing keeps an open file from being removed. The files on the disk stay
  as they are if and only if the file whose header is in that sector by then is described by what is written, and a
  file whose data is there has these bytes already (`CloseExact`). `CloseAfterRemove` runs into the first case and
  `CloseOntoData` into the second. Programs that do not use a file after its removal are safe (`FileSessions.Run`).
* `removeItemFromBuffer` returns a pointer into the buffer. In every continuation it reads the removed value if and
  only if no producer has stored another one into the slot (`PointerOverRuns`, in both buffers); `PointerGoesStale` is
  a run where one has.
* A fresh thread does not pass the code behind `SWITCH`, and `Finish` overwrites the one variable that says who is to
  be destroyed. A finished thread is forgotten if and only if another one finishes before that code is passed
  (`ForgottenStep`); it keeps its id for ever (`ForgottenForGood`), and it can happen to the main thread
  (`MainCanBeForgotten`).
* A lock may be acquired by the thread that has it, which then waits for itself. Otherwise, and only otherwise, locks
  keep what the protocols rely on (`LocksAreMutexes`).
* A track-buffer hit can be granted while the sector is still passing the head (`HitHasPassedByNow`).
* `Idle` can return with a due time slice pending, exactly when `IdleLeavesTimer` says, and the put-back in
  `CheckIfDue` rotates interrupts due at the same time (`PutBackRotatesTies`).
* From an arbitrary TLB state an instruction can meet three misses; the states the handler and the flush produce never
  lead there (`Progress`, `AtMostTwoMisses`, `RunInstruction`). The handler does not check the page number
  (`FilledExact` says when that is harmless, and `MissBeyondTable` is a case where it is not).
* `Network::Send` asserts that `sendBusy` is down, but nothing raises it. The packets are nevertheless sent one at a
  time (`SendIsSynchronous`).

Integers are unbounded in the model; 32-bit wrap-around is written out where the code relies on it (`Words`, `Mult`,
`Tlb`). A result such as `Aborted`, `false` or an exception value stands where the source stops on an ASSERT.
Sizes are those of the source: 128-byte sectors, 1024 of them, 10 directory entries, 9 header slots of which 7 are
direct under INDIRECT_MAP; the arithmetic of the layout is also proved for any number of direct entries and any table
size.

## Model

| member | source | states |
|---|---|---|
| `Words.WordBytes` | Nachos/code/filesys/filehdr.cc:210 | four little-endian bytes that spell the word |
| `Words.EncodeWords` | Nachos/code/userprog/bitmap.cc:162-166 | the bytes of an array of words; every word can be read back from them |
| `Words.EncodeInts` | Nachos/code/filesys/filehdr.cc:91 | the bytes of an index table; every sector number, negative ones included, can be read back |
| `BitMaps.WithBit` | Nachos/code/userprog/bitmap.cc:47-66 | setting or clearing one bit of a word leaves the other 31 as they were |
| `BitMaps.FreeSpec` | Nachos/code/userprog/bitmap.cc:94-103 | the free list holds exactly the clear bits, strictly ascending |
| `BitMaps.FreeMarkFirst` | Nachos/code/userprog/bitmap.cc:94-103 | taking the lowest clear bit removes the head of the free list and nothing else |
| `BitMaps.FreeDetermines` | Nachos/code/userprog/bitmap.cc:94-103 | two maps with the same free list are the same map |
| `BitMaps.CountIsFree` | Nachos/code/userprog/bitmap.cc:111-120 | counting clear bits one by one gives the length of the free list |
| `BitMaps.PacksUpdate` | Nachos/code/userprog/bitmap.cc:47-66 | changing one bit in its word is changing that bit of the map |
| `BitMaps.BitMap.constructor` | Nachos/code/userprog/bitmap.cc:20-28 | a map of the given size, all clear, in packed words |
| `BitMaps.BitMap.Mark` | Nachos/code/userprog/bitmap.cc:47-51 | sets one bit of the abstract map |
| `BitMaps.BitMap.Clear` | Nachos/code/userprog/bitmap.cc:61-65 | clears one bit of the abstract map |
| `BitMaps.BitMap.Test` | Nachos/code/userprog/bitmap.cc:75-83 | reads one bit of the abstract map |
| `BitMaps.BitMap.Find` | Nachos/code/userprog/bitmap.cc:94-103 | returns and marks the lowest clear bit: the head of the free list; -1 and no change when there is none |
| `BitMaps.BitMap.NumClear` | Nachos/code/userprog/bitmap.cc:111-120 | the length of the free list |
| `BitMaps.BitMap.Load` | Nachos/code/userprog/bitmap.cc:148-152 | after the words are overwritten the map is the one they pack |
| `SectorStore.SynchDisk.ReadSector` | Nachos/code/filesys/synchdisk.cc:72-79 | copies exactly one sector into the buffer |
| `SectorStore.SynchDisk.WriteSector` | Nachos/code/filesys/synchdisk.cc:90-97 | replaces exactly one sector |
| `FileHeaders.Encode` | Nachos/code/filesys/filehdr.cc:220-224 | a header written to its sector decodes to the same header |
| `Layouts.RankMonotone` | Nachos/code/filesys/filehdr.cc:72-121 | for every number of direct entries and every table size: a later block is taken by a later Find |
| `Layouts.RankNotIndex` | Nachos/code/filesys/filehdr.cc:72-121 | no data block is taken by a Find that supplies an index sector |
| `Layouts.EachFindIsUsed` | Nachos/code/filesys/filehdr.cc:64-196 | each Find of Allocate supplies a block, an index sector that Deallocate visits, or the one it forgets |
| `Layouts.AlongIsSound` | Nachos/code/filesys/filehdr.cc:64-124 | for every number of direct entries and every table size, a file laid out along an ascending free list has strictly rising data sectors, distinct index sectors, and no sector in both roles |
| `Layouts.AlongIsReturned` | Nachos/code/filesys/filehdr.cc:64-196 | likewise, of the free sectors Deallocate returns exactly those Allocate took, but for the index sector of a file that ends exactly where the direct or the single-indirect blocks end |
| `FileHeaders.LaidOutAlong` | Nachos/code/filesys/filehdr.cc:64-124 | under INDIRECT_MAP a header is such a layout with 7 direct entries and tables of 32 |
| `FileHeaders.LaidOutWellFormed` | Nachos/code/filesys/filehdr.cc:64-124 | a file laid out along a long enough free list has distinct data sectors, distinct index sectors, and no sector in both roles |
| `FileHeaders.ShortLayoutIsBroken` | Nachos/code/filesys/filehdr.cc:69-121 | a layout that ran out of free sectors has a block without a sector |
| `FileHeaders.GrantSoundIffRoomForIndex` | Nachos/code/filesys/filehdr.cc:64-124 | what Allocate grants is a usable file if and only if the map also had room for the index sectors |
| `FileHeaders.GuardOvercommits` | Nachos/code/filesys/filehdr.cc:69-70 | on any map with eight clear bits a file of eight sectors is granted, and the header is not usable: its last block has no sector |
| `FileHeaders.Overcommit` | Nachos/code/filesys/filehdr.cc:64-124 | such a map exists, and Allocate run on it grants the file |
| `FileHeaders.BlocksAscend` | Nachos/code/filesys/filehdr.cc:64-124 | later blocks lie in higher sectors, and all of them were clear before the call |
| `FileHeaders.ProgressStep` | Nachos/code/filesys/filehdr.cc:109-116 | writing second-level table j leaves the first-level table and the earlier second-level tables readable |
| `FileHeaders.DoubleLaidOut` | Nachos/code/filesys/filehdr.cc:104-117 | writing the top table completes the layout through all three levels |
| `FileHeaders.TakeNext` | Nachos/code/filesys/filehdr.cc:75 | the k-th of a series of Finds returns the k-th entry of the original free list |
| `FileHeaders.FillTable` | Nachos/code/filesys/filehdr.cc:74-75 | a loop of Finds fills a table with consecutive entries of the free list |
| `FileHeaders.AllocateTable` | Nachos/code/filesys/filehdr.cc:109-116 | one second-level table: its own sector, then its blocks, then the write; stops exactly when there is no sector for it |
| `FileHeaders.AllocateSecondLevel` | Nachos/code/filesys/filehdr.cc:106-116 | all second-level tables, for every size |
| `FileHeaders.FileHeader.Allocate` | Nachos/code/filesys/filehdr.cc:64-124 | both builds: refused exactly when there are fewer clear sectors than data sectors; granted or aborted exactly as size and clear sectors say; granted files are laid out along the free list; no sector that was in use is touched; a refusal changes nothing |
| `FileHeaders.AnswerIs` | Nachos/code/filesys/filehdr.cc:64-124 | the three answers as conditions on the size and the number of clear sectors: refused if and only if there are fewer than data sectors; aborted if and only if the size is negative or too large for the build, or a sector for an index table is missing |
| `FileHeaders.FileHeader.Deallocate` | Nachos/code/filesys/filehdr.cc:150-196 | for any header whatever: succeeds if and only if the sectors it visits are on the disk, marked and all different, and then clears exactly these. A negative size visits nothing; without an index a size beyond the table takes the words behind it for sector numbers; with one the loops end with the last entry |
| `FileHeaders.VisitedIsOwned` | Nachos/code/filesys/filehdr.cc:150-196 | for a size that the tables can hold the sectors visited are those of the file |
| `FileHeaders.HeaderLists` | Nachos/code/filesys/filehdr.cc:150-196 | the tables it reads list the blocks and index sectors of the header |
| `FileHeaders.TakenIsOwned` | Nachos/code/filesys/filehdr.cc:64-196 | a free sector is taken by Allocate exactly when Deallocate returns it, except for the leaked one |
| `FileHeaders.FileHeader.ByteToSector` | Nachos/code/filesys/filehdr.cc:246-273 | the sector of the block that holds the byte, through all three levels, without going out of bounds |
| `FileHeaders.FileHeader.FetchFrom` | Nachos/code/filesys/filehdr.cc:207-211 | the header becomes the one stored in the sector |
| `FileHeaders.FileHeader.WriteBack` | Nachos/code/filesys/filehdr.cc:220-224 | exactly that sector is replaced, by the header followed by the attributes |
| `FileHeaders.AllocateThenDeallocate` | Nachos/code/filesys/filehdr.cc:64-196 | the free map is restored exactly, except that a file of exactly NumDirect or NumDirect + LevelMapNum sectors leaves its one index sector marked |
| `FileHeaders.AllocatedIsMarked` | Nachos/code/filesys/filehdr.cc:150-196 | no "ought to be marked" assertion fails after an Allocate |
| `FileHeaders.AllocateAndFree` | Nachos/code/filesys/filehdr.cc:64-196 | the two operations run one after the other on a real map and disk |
| `OpenFiles.MapStable` | Nachos/code/filesys/filehdr.cc:246-273 | the block map of a file depends on its index sectors only |
| `OpenFiles.PatchReadsBack` | Nachos/code/filesys/openfile.cc:134-227 | what a write put there is read back, and all other bytes are unchanged |
| `OpenFiles.DisjointFileUntouched` | Nachos/code/filesys/openfile.cc:168-227 | a write confined to one file leaves every file with other sectors byte for byte as it was |
| `OpenFiles.WriteIsPatch` | Nachos/code/filesys/openfile.cc:221-224 | flushing the patched buffer sector by sector patches the flat byte string |
| `OpenFiles.PatchBuffer` | Nachos/code/filesys/openfile.cc:202-219 | for every alignment of first and last sector the buffer holds old bytes around the new ones |
| `OpenFiles.Copy` | Nachos/code/filesys/openfile.cc:163 | bcopy: one stretch is replaced and the rest kept |
| `OpenFiles.CountIsTransferred` | Nachos/code/filesys/openfile.cc:145-148 | the count is the smaller of the bytes asked for and the bytes left, and 0 for a request of no bytes or past the end |
| `OpenFiles.OpenFile.constructor` | Nachos/code/filesys/openfile.cc:30-38 | a file positioned at 0 with the header stored in the sector |
| `OpenFiles.OpenFile.ReadAt` | Nachos/code/filesys/openfile.cc:134-166 | returns the number of bytes between the position and the end of the file, or those asked for if they are fewer, and copies exactly these bytes of the flat contents |
| `OpenFiles.OpenFile.WriteAt` | Nachos/code/filesys/openfile.cc:168-227 | as many bytes as fit between the position and the end of the file replace those of the flat contents, and no others change; no sector outside the file is touched; a rejected request changes nothing |
| `OpenFiles.OpenFile.Read` | Nachos/code/filesys/openfile.cc:81-94 | reads at the position and moves it by the bytes read |
| `OpenFiles.OpenFile.Write` | Nachos/code/filesys/openfile.cc:96-106 | writes at the position and moves it by the bytes written |
| `OpenFiles.OpenFile.Seek` | Nachos/code/filesys/openfile.cc:62-66 | sets the position |
| `Directories.UpToZeroPadded` | Nachos/code/filesys/directory.cc:138 | a name stored with padding zeros reads back as the name |
| `Directories.KeyIsName` | Nachos/code/filesys/directory.cc:90-97 | two names are the same entry if and only if their first 77 characters agree, with zeros past the end of a name |
| `Directories.ShortNames` | Nachos/code/filesys/directory.cc:90-97 | names of at most 77 characters are the same entry only when they are equal |
| `Directories.Directory.constructor` | Nachos/code/filesys/directory.cc:37-45 | no entry is in use |
| `Directories.Directory.FindIndex` | Nachos/code/filesys/directory.cc:90-97 | the first entry in use whose stored name agrees with the one asked for in all of the first 77 characters, or -1 if and only if there is none |
| `Directories.Directory.Find` | Nachos/code/filesys/directory.cc:108-116 | the sector of that entry, or -1 |
| `Directories.Directory.Add` | Nachos/code/filesys/directory.cc:129-144 | fails if and only if the name is there or the table is full, changing nothing; otherwise one free entry becomes the new one |
| `Directories.Directory.FillEntry` | Nachos/code/filesys/directory.cc:136-140 | the 88 bytes of one entry decode to the new entry and all other entries are unchanged |
| `Directories.Directory.Remove` | Nachos/code/filesys/directory.cc:154-163 | exactly the entry found is vacated |
| `Directories.AddThenFind` | Nachos/code/filesys/directory.cc:90-144 | what was added under one name is found under another if and only if they agree in the characters compared |
| `FileSystemSpec.AddKeepsMeta` | Nachos/code/filesys/filesys.cc:217-252 | entering a file on clear sectors keeps ownership disjoint and the map exact |
| `FileSystemSpec.DropKeepsMeta` | Nachos/code/filesys/filesys.cc:350-358 | dropping a file and its sectors does too |
| `FileSystemSpec.RepresentsUnique` | Nachos/code/filesys/filesys.cc:83-148 | a consistent disk stands for one set of named files |
| `FileSystemSpec.CreateEffect` | Nachos/code/filesys/filesys.cc:217-252 | after the writes of Create the new name is there and every other file has its old bytes |
| `FileSystemSpec.RemoveEffect` | Nachos/code/filesys/filesys.cc:350-358 | after the writes of Remove the name is gone and every other file has its old bytes |
| `FileSystemSpec.WriteEffect` | Nachos/code/filesys/openfile.cc:168-227 | a write through an open file changes that name only and keeps the disk consistent |
| `FileSystems.FetchMap` | Nachos/code/userprog/bitmap.cc:148-152 | the map in memory becomes the one packed in its file |
| `FileSystems.StoreMap` | Nachos/code/userprog/bitmap.cc:161-166 | the file afterwards holds the map, and only its own sectors changed |
| `FileSystems.FetchDirectory` | Nachos/code/filesys/directory.cc:63-68 | the table becomes the contents of the file |
| `FileSystems.StoreDirectory` | Nachos/code/filesys/directory.cc:76-81 | the file becomes the table, and only its own sectors changed |
| `FileSystemPlans.PlannedFile` | Nachos/code/filesys/filesys.cc:217-230 | header and data sectors of a new file are distinct, were clear, and are exactly what the map gained |
| `FileSystemPlans.OverwrittenIs` | Nachos/code/filesys/openfile.cc:168-227 | byte by byte: the bytes offered stand from the position on up to the end of the file, and every other byte of every name is as before |
| `FileSystemPlans.ReadOutIs` | Nachos/code/filesys/openfile.cc:134-166 | a read gets, byte by byte, what is there from the position on, as many as are asked for and left |
| `FileSystems.Plan` | Nachos/code/filesys/filesys.cc:215-230 | Create up to its first write: the answer is the one readable off the disk beforehand, and nothing is written |
| `FileSystems.FileSystem.Boot` | Nachos/code/filesys/filesys.cc:142-147 | opens the two system files |
| `FileSystems.FileSystem.Create` | Nachos/code/filesys/filesys.cc:179-263 | the result is decided by the old disk; on failure the disk is unchanged; on success the name is there under the characters that are compared, the new file has the size asked for, its header in the lowest clear sector, and all others are as before; the disk stays consistent |
| `FileSystems.FileSystem.Remove` | Nachos/code/filesys/filesys.cc:315-363 | true if and only if the name was there; its sectors are free again, all other files are as before; a failure changes nothing |
| `FileSystems.FileSystem.Open` | Nachos/code/filesys/filesys.cc:275-299 | null if and only if the name is unknown; otherwise a file whose contents are those of the name |
| `FileSystems.FileSystem.WriteNamed` | Nachos/code/filesys/openfile.cc:168-227 | open and write: the bytes of that name change by the clamped range, everything else stays |
| `FileSystems.FileSystem.ReadNamed` | Nachos/code/filesys/openfile.cc:134-166 | open and read: the clamped slice of the bytes of that name |
| `FileSystems.FileSystem.Close` | Nachos/code/filesys/openfile.cc:45-52 | the header goes back to its sector and nothing else changes; the disk stands for the same files if and only if what is written is harmless, which is decided before the call |
| `FileSystemPlans.BytesAfter` | Nachos/code/filesys/openfile.cc:45-52 | the bytes of a file survive the write if and only if the header written repeats, in each block of the file that it hits, the bytes the file uses there |
| `FileSystemPlans.CloseExact` | Nachos/code/filesys/openfile.cc:45-52 | closing keeps all files if and only if, on the disk before it, every listed file whose header is in the sector is described by the header written (same sectors, same bytes), and every listed file with data in the sector has there, as far as it uses it, the bytes that are written |
| `FileSystemPlans.CloseIsSafe` | Nachos/code/filesys/openfile.cc:45-52 | it does when the sector is free or the file is still listed |
| `FileSystemPlans.StaleCloseHarms` | Nachos/code/filesys/openfile.cc:45-52 | it does not when the sector is the header of a file of another length by now |
| `FileSystemPlans.StaleCloseOverwrites` | Nachos/code/filesys/openfile.cc:45-52 | nor when the sector is a data sector of a file that has another byte there |
| `FileCloses.CreateThenRemove` | Nachos/code/filesys/filesys.cc:179-363 | Create and then Remove of a name leave the free map as it was |
| `FileCloses.CloseAfterRemove` | Nachos/code/filesys/openfile.cc:45-52 | witness: create, open, remove, create another file, close the first: the new file gets the same header sector and is destroyed |
| `FileCloses.CloseOntoData` | Nachos/code/filesys/openfile.cc:45-52 | witness for the data: create two empty files, open one, remove both, create and write another file, close the first: its header lands in the data of the new file |
| `FileSystems.Format` | Nachos/code/filesys/filesys.cc:83-141 | whatever the disk held, the result is consistent and has no files |
| `FileSystemRuns.FreeSize` | Nachos/code/filesys/filesys.cc:83-363 | the free sectors are 1024 less the ten of the system and those of the named files |
| `FileSystemRuns.AnswerIsReply` | Nachos/code/filesys/filesys.cc:179-263 | what Create answers is decided by the named files, each answer if and only if: the name is there; ten files exist; the size takes more sectors than are clear; and it succeeds if and only if none of these and the size takes fewer than nine sectors |
| `FileSystemRuns.Apply` | Nachos/code/filesys/filesys.cc:179-363 | one operation on the disk is one operation on named byte strings, with the same reply |
| `FileSystemRuns.Run` | Nachos/code/filesys/filesys.cc:83-363 | format and then any sequence of create, remove, write and read: every reply is the one named byte strings give, and after each operation the disk stands for the files that result; the bitmap file is the disjoint union of all sectors in use |
| `FileSystemRuns.WriteThenRead` | Nachos/code/filesys/openfile.cc:134-227 | over every run a read gets what the last write to that stretch put there |
| `FileSystemRuns.OtherNamesUntouched` | Nachos/code/filesys/directory.cc:90-97 | an operation under one name leaves every file alone whose name differs in a character that is compared |
| `FileSystemRuns.OtherNamesOverRuns` | Nachos/code/filesys/directory.cc:90-97 | over every run two different names of at most 77 characters are two files: what is done under the one leaves the other as it is |
| `FileSystemRuns.NameIsThere` | Nachos/code/filesys/filesys.cc:179-363 | over every run a name is there if and only if it was created under a name that agrees in the characters compared and not removed under such a name since |
| `FileSystemRuns.ExistsExactly` | Nachos/code/filesys/filesys.cc:215-216 | over every run Create finds the name taken exactly then |
| `FileSessions.ClosedCleanly` | Nachos/code/filesys/openfile.cc:45-52 | closing a file that is still listed changes neither files nor headers |
| `FileSessions.StillListed` | Nachos/code/filesys/filesys.cc:179-363 | an open file stays the file of its name through everything done to other names |
| `FileSessions.ReadThrough` | Nachos/code/filesys/openfile.cc:81-94 | a read through an open file gets the bytes of its name from its position on, which moves |
| `FileSessions.WriteThrough` | Nachos/code/filesys/openfile.cc:96-106 | a write through an open file changes the bytes of its name from its position on, which moves, and no header |
| `FileSessions.Session.DoByName` | Nachos/code/filesys/filesys.cc:179-363 | an operation by name is the one on named byte strings; Remove makes the files open under that name unusable and no others |
| `FileSessions.Session.DoOpen` | Nachos/code/filesys/filesys.cc:275-299 | a new open file at position 0 if and only if the name is there |
| `FileSessions.Session.DoClose` | Nachos/code/filesys/openfile.cc:45-52 | closing a usable file changes no file |
| `FileSessions.Run` | Nachos/code/filesys/openfile.cc:30-227 | format and then any calls by name and through open files, up to the first that uses a closed or removed file: all answers are those of named byte strings with positions, and the disk stands for what the calls add up to |
| `FileSessions.UsableUntilEnded` | Nachos/code/filesys/filesys.cc:275-363 | over every such run an open file can be used under its name until it is closed or the name is removed, and no longer |
| `FileSessions.WriteThenReadElsewhere` | Nachos/code/filesys/openfile.cc:81-106 | over every such run, what is written through one open file is read through any other of the same name |
| `Lists.InsertedSorted` | Nachos/code/threads/list.cc:181-207 | sorted insertion keeps a list sorted and puts the element behind all with its key |
| `Lists.InsertedElements` | Nachos/code/threads/list.cc:181-207 | sorted insertion adds exactly one element |
| `Lists.List.constructor` | Nachos/code/threads/list.cc:42-46 | the empty list |
| `Lists.List.IsEmpty` | Nachos/code/threads/list.cc:157-164 | true if and only if the sequence is empty |
| `Lists.List.Append` | Nachos/code/threads/list.cc:77-91 | the linked nodes hold the old sequence and the item at its end |
| `Lists.List.Prepend` | Nachos/code/threads/list.cc:104-118 | the linked nodes hold the item and the old sequence |
| `Lists.List.SortedInsert` | Nachos/code/threads/list.cc:181-207 | the item is linked in before the first larger key, in any list; first, last and the count stay consistent |
| `Lists.List.SortedRemove` | Nachos/code/threads/list.cc:222-243 | takes the head with its key; null if and only if the list is empty |
| `Lists.List.Remove` | Nachos/code/threads/list.cc:247-274 | takes out the first occurrence; false if and only if there is none, and then nothing changes |
| `Semaphores.AttemptOk` | Nachos/code/threads/synch.cc:64-78 | a pass of the loop in P loses no wake-up |
| `Semaphores.VOk` | Nachos/code/threads/synch.cc:87-98 | V loses no wake-up |
| `Semaphores.SemaphoreRuns` | Nachos/code/threads/synch.cc:64-98 | in every interleaving of passes and Vs: the value is not negative, sleepers remain only while all units belong to woken threads, and value plus passes equals initial value plus Vs |
| `Semaphores.SemaphoresAreFair` | Nachos/code/threads/synch.cc:64-98 | in every interleaving threads are woken in the order in which they joined the queue, each once: who was queued and who joined are those woken followed by those still queued |
| `Semaphores.Semaphore.constructor` | Nachos/code/threads/synch.cc:36-41 | the given value and an empty queue |
| `Semaphores.Semaphore.PassP` | Nachos/code/threads/synch.cc:69-73 | one pass of the loop on the linked queue |
| `Semaphores.Semaphore.Vee` | Nachos/code/threads/synch.cc:87-98 | pops the longest waiter and increments the value |
| `Schedulers.FairInsert` | Nachos/code/threads/scheduler.cc:53-62 | becoming ready keeps the list ordered by key and, among equals, by arrival |
| `Schedulers.Scheduler.ReadyToRun` | Nachos/code/threads/scheduler.cc:53-62 | the thread joins behind everybody with its priority who became ready earlier |
| `Schedulers.Scheduler.FindNextToRun` | Nachos/code/threads/scheduler.cc:82-86 | takes the thread with the least key that became ready first |
| `ThreadMachine.FirstFree` | Nachos/code/threads/thread.cc:44-53 | the lowest free thread id |
| `ThreadMachine.CreatedKeeps` | Nachos/code/threads/thread.cc:37-58 | a new thread gets an id of its own and is on no list |
| `ThreadMachine.ForkedKeeps` | Nachos/code/threads/thread.cc:146-160 | Fork keeps the invariant of the machine |
| `ThreadMachine.YieldedKeeps` | Nachos/code/threads/thread.cc:233-249 | Yield keeps it |
| `ThreadMachine.DispatchedKeeps` | Nachos/code/threads/thread.cc:280-285 | Sleep finding a thread and switching to it keeps it |
| `ThreadMachine.BuriedKeeps` | Nachos/code/threads/scheduler.cc:136-142 | destroying the finished thread keeps it |
| `ThreadMachine.FinishedKeeps` | Nachos/code/threads/thread.cc:203-213 | Finish keeps it |
| `ThreadMachine.PassedKeeps` | Nachos/code/threads/synch.cc:64-127 | a pass of P, and Acquire behind it, keeps it |
| `ThreadMachine.UppedKeeps` | Nachos/code/threads/synch.cc:87-98 | V, by a thread or a handler, keeps it |
| `ThreadMachine.ReleasedKeeps` | Nachos/code/threads/synch.cc:131-139 | Release keeps it |
| `ThreadMachine.WaitingKeeps` | Nachos/code/threads/synch.cc:150-171 | Wait up to the sleep keeps it |
| `ThreadMachine.SignalledKeeps` | Nachos/code/threads/synch.cc:181-197 | Signal keeps it |
| `ThreadMachine.Emptied` | Nachos/code/threads/synch.cc:202-218 | Broadcast leaves nobody waiting and keeps it |
| `ThreadMachine.Next` | Nachos/code/threads/thread.cc:146-286 | every event that can happen keeps the invariant of the machine, and only the destructor removes threads; what each event does is stated in ThreadEvents |
| `ThreadMachine.BootInv` | Nachos/code/threads/thread.cc:37-58 | it holds at start-up |
| `ThreadMachine.ReachableInv` | Nachos/code/threads/synch.cc:64-218 | so it holds in every reachable state |
| `ThreadMachine.ReadyIffListedOnce` | Nachos/code/threads/scheduler.cc:53-86 | a thread is READY exactly when it is on the ready list, and then it is there once |
| `ThreadMachine.WaiterIsBlocked` | Nachos/code/threads/synch.cc:64-218 | a queued waiter is BLOCKED, in one queue only, and not on the ready list |
| `ThreadMachine.BlockedIsQueued` | Nachos/code/threads/thread.cc:270-286 | a BLOCKED thread is in a queue unless it has finished |
| `ThreadMachine.IdsDistinct` | Nachos/code/threads/thread.cc:37-113 | ids are distinct and the table finds each thread by its id |
| `ThreadMachine.NoLostWakeUp` | Nachos/code/threads/synch.cc:64-98 | while somebody sleeps on a semaphore its value is at most the number of threads woken and not yet re-checked |
| `ThreadMachine.LockExcludes` | Nachos/code/threads/synch.cc:118-139 | at most one thread is between Acquire and Release, it is the holder, and the semaphore is 0 exactly then |
| `ThreadMachine.DestroyedIsOffAllLists` | Nachos/code/threads/scheduler.cc:136-142 | a thread that is destroyed had finished and is not current, ready or waiting |
| `ThreadMachine.NextIsLeast` | Nachos/code/threads/thread.cc:233-286 | the processor goes to a READY thread of least priority number, and Yield never returns it to the yielder |
| `ThreadEvents.CreateDoes` | Nachos/code/threads/thread.cc:37-58 | a new thread takes the lowest free id and is on no list; nothing else changes |
| `ThreadEvents.ForkDoes` | Nachos/code/threads/thread.cc:146-160 | the thread becomes READY, behind all whose priority number is not larger; nothing else changes |
| `ThreadEvents.PDoes` | Nachos/code/threads/synch.cc:64-78 | takes a unit when there is one; otherwise the thread is BLOCKED at the end of the queue; no other thread changes |
| `ThreadEvents.AcquireDoes` | Nachos/code/threads/synch.cc:118-127 | the same on the semaphore of the lock, and who gets through is the holder |
| `ThreadEvents.UpDoes` | Nachos/code/threads/synch.cc:87-98 | the value goes up by one, and the thread that has waited longest, and only that one, leaves the queue and becomes READY |
| `ThreadEvents.ReleaseDoes` | Nachos/code/threads/synch.cc:131-139 | the lock has no holder, and its semaphore is raised |
| `ThreadEvents.WaitDoes` | Nachos/code/threads/synch.cc:150-171 | the lock is released and the thread sleeps at the end of the queue of the condition |
| `ThreadEvents.SignalDoes` | Nachos/code/threads/synch.cc:181-197 | the thread that has waited longest, and only that one, leaves the queue and becomes READY; with nobody waiting nothing changes |
| `ThreadEvents.BroadcastDoes` | Nachos/code/threads/synch.cc:202-218 | all waiting threads leave the queue and become READY, and nobody else changes |
| `ThreadEvents.YieldDoes` | Nachos/code/threads/thread.cc:233-249 | nothing when nobody is ready; otherwise the head of the ready list gets the processor and the thread joins the list |
| `ThreadEvents.DispatchDoes` | Nachos/code/threads/thread.cc:280-285 | the head of the ready list gets the processor and is off the list |
| `ThreadEvents.FinishDoes` | Nachos/code/threads/thread.cc:203-213 | the thread sleeps for good and is the one to be destroyed |
| `ThreadEvents.ResumeDoes` | Nachos/code/threads/scheduler.cc:129-153 | a thread that has the processor again goes on in its code, looks at the semaphore again, or takes the lock back |
| `ThreadEvents.ProcessorGoesOn` | Nachos/code/threads/thread.cc:270-286 | the processor is held up if and only if the current thread sleeps and nobody is ready; a V on a semaphore with waiters then gets it going with the one that has waited longest |
| `ThreadEvents.ConditionsAreFair` | Nachos/code/threads/synch.cc:150-218 | in every run threads leave a condition in the order in which they came to wait, each once and only by Signal and Broadcast: who waited and who came are those taken off followed by those still waiting |
| `ForgottenThreads.ForgottenStep` | Nachos/code/threads/thread.cc:203-213 | Finish forgets a thread if and only if another one is still waiting for its destruction, and then that one; no other event forgets or recovers anybody |
| `ForgottenThreads.ForgottenCount` | Nachos/code/threads/thread.cc:203-213 | the forgotten threads of a run are as many as the Finishes made while another thread was waiting for its destruction |
| `ForgottenThreads.ForgottenForGood` | Nachos/code/threads/scheduler.cc:136-142 | a forgotten thread stays in the table, with its id, in every continuation |
| `ForgottenThreads.ForgottenCostIds` | Nachos/code/threads/thread.cc:44-53 | each costs an id: once 128 threads are forgotten or alive none can be created |
| `ForgottenThreads.FreshThreadForgets` | Nachos/code/threads/scheduler.cc:136-142 | it happens whenever a thread finishes and the next to run is a fresh one that finishes without giving up the processor |
| `ForgottenThreads.MainCanBeForgotten` | Nachos/code/threads/thread.cc:203-213 | witness: the main thread, from start-up on |
| `LockRefinement.LockStep` | Nachos/code/threads/synch.cc:118-139 | each event of the machine is, for each lock, a pass of Acquire, a Release or nothing, as Mutexes defines them |
| `LockRefinement.LocksAreMutexes` | Nachos/code/threads/synch.cc:118-139 | in every run from start-up a lock satisfies the invariant of Mutexes throughout if and only if no thread acquires it while it has it |
| `LockRefinement.AcquiredTwice` | Nachos/code/threads/synch.cc:118-127 | a thread that does so waits for itself |
| `Mutexes.HolderAlone` | Nachos/code/threads/synch.cc:118-139 | a lock has at most one holder and is free exactly when it has none |
| `Mutexes.AcquiredOk` | Nachos/code/threads/synch.cc:118-127 | a pass of Acquire keeps that |
| `Mutexes.ReleasedOk` | Nachos/code/threads/synch.cc:131-139 | Release keeps that and leaves no holder |
| `BoundedBuffer.AcquireKeeps` | Nachos/code/threads/synch.cc:274-275 | entering, or coming back from Wait, keeps the invariant of the buffer |
| `BoundedBuffer.WaitKeeps` | Nachos/code/threads/synch.cc:276-279 | going to sleep on a full or empty buffer keeps it |
| `BoundedBuffer.ChangeKeeps` | Nachos/code/threads/synch.cc:281 | storing or removing keeps it, within the array |
| `BoundedBuffer.NotifyKeeps` | Nachos/code/threads/synch.cc:282 | signalling keeps it |
| `BoundedBuffer.StepKeeps` | Nachos/code/threads/synch.cc:273-296 | every step of every thread keeps it |
| `BoundedBuffer.BufferSafe` | Nachos/code/threads/synch.cc:273-296 | in every run: 0 <= count <= BUFFER_SIZE; stored values are removed values plus contents; one thread past Acquire; while the lock is free a sleeping consumer means count is at most the consumers signalled and not re-checked, and likewise for producers |
| `BoundedBuffer.NeverStuck` | Nachos/code/threads/synch.cc:150-197 | while somebody sleeps for an item or a slot that is there, some thread can move |
| `BoundedBuffer.StretchAdvances` | Nachos/code/threads/synch.cc:273-296 | every stretch of a thread brings it nearer to the return of its call, unless the lock is taken or the buffer is full or empty; it moves no other thread but the one it wakes |
| `BoundedBuffer.HeldUpInQueues` | Nachos/code/threads/synch.cc:273-296 | a thread inside a call cannot move if and only if it is in the queue of a condition or of the lock |
| `BoundedBuffer.CallEnters` | Nachos/code/threads/synch.cc:274 | a call goes on at once if and only if nobody has the lock |
| `BoundedBuffer.SleepersAreWokenInOrder` | Nachos/code/threads/synch.cc:150-197 | in every run producers, and consumers, are woken in the order in which they went to sleep, and none is forgotten |
| `Buffers.ChangedOk` | Nachos/code/threads/synch.cc:229-260 | a store or removal that fits keeps the count within the array and stored values equal to removed values plus contents |
| `Buffers.SlotHolds` | Nachos/code/threads/synch.cc:229-260 | over any sequence of operations a slot holds what was stored into it last |
| `BoundedBuffer.PointerOverRuns` | Nachos/code/threads/synch.cc:287-296 | in every continuation the returned pointer reads the removed value if and only if no producer has stored into its slot since, or the last that did stored the same value |
| `BoundedBuffer.PointerGoesStale` | Nachos/code/threads/synch.cc:273-296 | witness: a run in which the slot is overwritten before the consumer reads |
| `SemaphoreBuffer.ChangeInBounds` | Nachos/code/threads/synch.cc:240-249 | a thread past both semaphores finds the slot or item it was promised |
| `SemaphoreBuffer.StepKeeps` | Nachos/code/threads/synch.cc:240-260 | every step keeps slots and items in balance with the two counting semaphores |
| `SemaphoreBuffer.SemaphoreBufferSafe` | Nachos/code/threads/synch.cc:229-260 | in every run the array is never overrun, stored values are removed values plus contents, and the semaphores never promise more than there is |
| `SemaphoreBuffer.StretchAdvances` | Nachos/code/threads/synch.cc:240-260 | every stretch of a thread brings it nearer to the return of its call, unless the mutex is taken or all slots, or items, are promised to others |
| `SemaphoreBuffer.HeldUpInQueues` | Nachos/code/threads/synch.cc:240-260 | a thread inside a call cannot move if and only if it is in the queue of a semaphore |
| `SemaphoreBuffer.CallEnters` | Nachos/code/threads/synch.cc:241 | a call gets through the first P if and only if a slot, or an item, is promised to nobody |
| `SemaphoreBuffer.PointerOverRuns` | Nachos/code/threads/synch.cc:252-260 | the same for the pointer returned by this buffer |
| `SemaphoreBuffer.PointerGoesStale` | Nachos/code/threads/synch.cc:240-260 | witness: a run in which the slot is overwritten before the consumer reads |
| `WriteReadLocks.CountKeeps` | Nachos/code/threads/synch.cc:326-337 | counting a reader in, the first one taking the lock or going to sleep with the mutex, keeps the invariant |
| `WriteReadLocks.UncountKeeps` | Nachos/code/threads/synch.cc:341-351 | counting a reader out keeps it |
| `WriteReadLocks.EnterWriterKeeps` | Nachos/code/threads/synch.cc:355-360 | a writer taking the lock keeps it |
| `WriteReadLocks.StepKeeps` | Nachos/code/threads/synch.cc:325-368 | every step keeps it |
| `WriteReadLocks.ReadersWriters` | Nachos/code/threads/synch.cc:316-368 | in every run: at most one writer, never with a reader; readers counts the active readers whenever the mutex is free; a first reader asleep with the mutex means nobody reads |
| `WriteReadLocks.NeverStuck` | Nachos/code/threads/synch.cc:316-368 | in every run some thread inside can move if and only if there is one inside: the mutex and the lock never block each other |
| `WriteReadLocks.StretchAdvances` | Nachos/code/threads/synch.cc:325-368 | every stretch brings a reader or writer nearer to having given the lock back, unless the mutex, or the lock, is taken; it moves no other thread |
| `WriteReadLocks.HeldUpInQueues` | Nachos/code/threads/synch.cc:325-368 | a thread inside cannot move if and only if it is in the queue of the mutex or of the lock |
| `WriteReadLocks.CallEnters` | Nachos/code/threads/synch.cc:325-360 | a writer is in at once if and only if there are neither writers nor readers; a reader has the mutex at once if and only if nobody has it |
| `WriteReadLocks.CountingReaders` | Nachos/code/threads/synch.cc:328-350 | the first reader goes in at once if and only if no writer is in, later ones always; exactly the last to leave raises the lock |
| `SynchLists.StepKeeps` | Nachos/code/threads/synchlist.cc:53-82 | every step of Append and Remove keeps the invariant |
| `SynchLists.FirstInFirstOut` | Nachos/code/threads/synchlist.cc:53-82 | in every run items come out in the order they went in, each once; nobody sleeps next to an item no woken thread is coming for |
| `SynchLists.NeverStuck` | Nachos/code/threads/synchlist.cc:53-82 | in every run nobody inside can move if and only if all inside sleep for an item, and then there is none |
| `SynchLists.StretchAdvances` | Nachos/code/threads/synchlist.cc:53-82 | every stretch of a thread brings it nearer to the return of its call, unless the lock is taken or the list is empty; it moves no other thread but the one it wakes |
| `SynchLists.HeldUpInQueues` | Nachos/code/threads/synchlist.cc:53-82 | a thread inside a call cannot move if and only if it is in the queue of listEmpty or of the lock |
| `SynchLists.CallEnters` | Nachos/code/threads/synchlist.cc:55-75 | a call goes on at once if and only if nobody has the lock |
| `SynchLists.SleepersAreWokenInOrder` | Nachos/code/threads/synchlist.cc:53-82 | in every run sleepers are woken in the order in which they went to sleep, and none is forgotten |
| `DeviceProtocol.IssueKeeps` | Nachos/code/machine/disk.cc:115-154 | the disk is idle when a request is issued |
| `DeviceProtocol.StepKeeps` | Nachos/code/filesys/synchdisk.cc:72-109 | every step, and an interrupt at any time, keeps the invariant and trips no assertion |
| `DeviceProtocol.RequestsAreAtomic` | Nachos/code/filesys/synchdisk.cc:72-109 | in every run: "only one request at a time" holds; a call returns only after the interrupt of its own request; while the lock is free the disk is idle and the semaphore 0 |
| `DeviceProtocol.SleeperHasInterrupt` | Nachos/code/filesys/synchdisk.cc:77 | a thread asleep in the semaphore has its interrupt still to come |
| `DeviceProtocol.StretchAdvances` | Nachos/code/filesys/synchdisk.cc:72-97 | every stretch of a thread brings it nearer to the return of its call, unless the lock is taken; it passes the semaphore if and only if the interrupt has come, so a woken thread does not sleep again |
| `DeviceProtocol.HeldUpInQueues` | Nachos/code/filesys/synchdisk.cc:72-97 | a thread inside a call cannot move if and only if it is in the queue of the lock or of the semaphore |
| `DeviceProtocol.CallEnters` | Nachos/code/filesys/synchdisk.cc:75 | a call has the lock at once if and only if nobody has it |
| `DeviceProtocol.NoRequestForgotten` | Nachos/code/filesys/synchdisk.cc:72-109 | in every run the requests issued are exactly those returned and those in the hands of a thread, and none is both |
| `PostOffices.PolledKeeps` | Nachos/code/machine/network.cc:60-87 | the slot is filled only when it is empty |
| `PostOffices.ReceivedKeeps` | Nachos/code/network/post.cc:230-231 | the worker never reads an empty slot |
| `PostOffices.DeliveredKeeps` | Nachos/code/network/post.cc:240-244 | the packet goes to its own mailbox, which exists |
| `PostOffices.TransmittedKeeps` | Nachos/code/machine/network.cc:116-126 | a packet joins the socket of its addressee or is lost; the accounts of all mailboxes stay right |
| `PostOffices.Step` | Nachos/code/network/post.cc:221-345 | every event keeps the account of all mailboxes |
| `PostOffices.Delivery` | Nachos/code/network/post.cc:221-345 | in every run, for every mailbox: taken, waiting and travelling packets together are exactly the packets sent to it and not lost, in order |
| `PostOffices.AllDelivered` | Nachos/code/network/post.cc:221-248 | everything on its way to a machine reaches its mailboxes by stretches of the network and the worker alone, each of which brings it nearer |
| `PostOffices.TakesEmptyTheBox` | Nachos/code/network/post.cc:308-317 | calls of Receive hand out what is in the mailbox, in order, until it is empty |
| `PostOffices.EveryMessageArrives` | Nachos/code/network/post.cc:221-345 | at any point of any run, without anything more being sent, the network, the worker and the receivers can go on so that a mailbox has handed out exactly the packets sent to it and not lost, in order |
| `PostOffices.InOrderPerSender` | Nachos/code/network/post.cc:221-345 | the messages of each sender are taken from a mailbox in the order sent |
| `PostSenders.SentKeeps` | Nachos/code/machine/network.cc:110-114 | when a thread calls network->Send nothing of its machine is under way, the packet bears the address of the machine, and it gets the next number |
| `PostSenders.NetStep` | Nachos/code/network/post.cc:261-345 | every step of every sender, an interrupt at any time, and every other event keeps the invariant and is a run of the packets |
| `PostSenders.NetRefines` | Nachos/code/network/post.cc:261-291 | every run with the sending protocol is, for the packets, a run in which they are just sent |
| `PostSenders.SendIsSynchronous` | Nachos/code/network/post.cc:282-287 | in every run: one packet at a time; a call of Send returns only after its own packet has left and its interrupt has come; while nobody sends every packet has had its interrupt |
| `PostSenders.SentAsAsked` | Nachos/code/network/post.cc:261-291 | in every run the packet that has left when a call of Send returns is the one it was called with, under the address of the machine |
| `PostSenders.SendersInOrder` | Nachos/code/network/post.cc:221-345 | what is taken from a mailbox is the beginning of what was sent to it, and comes from each machine in the order in which its threads reached the network |
| `Interrupts.ScheduledKeeps` | Nachos/code/machine/interrupt.cc:268-279 | what handlers schedule is not due yet and keeps the list sorted |
| `Interrupts.PutBackRotatesTies` | Nachos/code/machine/interrupt.cc:313-316 | putting the head back leaves the list as it was if and only if no other entry is due at the same time |
| `Interrupts.CheckedGood` | Nachos/code/machine/interrupt.cc:294-340 | CheckIfDue keeps time right, and fires one due interrupt fewer each time |
| `Interrupts.DrainedNothingDue` | Nachos/code/machine/interrupt.cc:169-170 | the loop of a machine that is not idle leaves nothing due |
| `Interrupts.TickedNothingDue` | Nachos/code/machine/interrupt.cc:150-179 | after a tick nothing is due, and the clock has advanced by the tick of the mode and no more |
| `Interrupts.TickYields` | Nachos/code/machine/interrupt.cc:172-178 | a tick ends in a yield if and only if one was asked for already or a handler that ran in this tick asks for one |
| `Interrupts.DrainedLeaves` | Nachos/code/machine/interrupt.cc:215-217 | the loop of an idle machine leaves something due if and only if all pending interrupts are due, the time slice is the last, and the handlers of the others schedule nothing |
| `Interrupts.IdleLeavesTimer` | Nachos/code/machine/interrupt.cc:210-236 | Idle halts if and only if nothing or only the time slice is pending; otherwise it returns with something due if and only if two or more interrupts were pending, all due by the time of the first, the last of them the time slice, and the handlers of the others schedule nothing |
| `Interrupts.IdleLeavesTimerWitness` | Nachos/code/machine/interrupt.cc:319-323 | witness: a device interrupt and the time slice at the same tick |
| `Interrupts.TimeIsKept` | Nachos/code/machine/interrupt.cc:114-340 | over every run interrupts occur in nondecreasing due time and never early, what is pending is due no earlier than what has occurred, and totalTicks = idleTicks + systemTicks + userTicks |
| `Interrupts.NoRequestIsLost` | Nachos/code/machine/interrupt.cc:268-340 | over every run what has occurred and what is pending is exactly one interrupt for every call of Schedule, by a device or by a handler, due as long after the clock of the call as was asked for |
| `Interrupts.LevelTicks` | Nachos/code/machine/interrupt.cc:114-128 | enabling interrupts that were off takes one tick of the mode, after which nothing is due; nothing else that SetLevel does lets time pass |
| `Interrupts.IdleAdvances` | Nachos/code/machine/interrupt.cc:210-236 | Idle moves the clock to the first pending interrupt and no further, and counts that as idle time |
| `Interrupts.CommandTakes` | Nachos/code/machine/interrupt.cc:114-236 | what each command adds to user, system and idle time; sleeping halts the machine or runs a handler, and leaves no yield asked for |
| `Interrupts.ClockCounts` | Nachos/code/machine/interrupt.cc:114-340 | over every run user time is one tick for each instruction, system time ten for each time interrupts were enabled, the rest is idle time; a context switch asked for is never left over |
| `Interrupts.Interrupt.constructor` | Nachos/code/machine/interrupt.cc:59-66 | interrupts off, nothing pending |
| `Interrupts.Interrupt.Schedule` | Nachos/code/machine/interrupt.cc:268-279 | the interrupt is added to those pending, due fromNow after the clock, behind all that are due no later; nothing else changes |
| `Interrupts.Interrupt.CheckIfDue` | Nachos/code/machine/interrupt.cc:294-340 | computes Checked: fires exactly when there is a due interrupt, or the clock may be advanced to it, and it is not the lone time slice of an idle machine |
| `Interrupts.Interrupt.RunHandler` | Nachos/code/machine/interrupt.cc:335 | an arbitrary handler that schedules in the future and may ask for a yield |
| `Interrupts.Interrupt.Drain` | Nachos/code/machine/interrupt.cc:169-170 | the loop ends and computes Drained |
| `Interrupts.Interrupt.OneTick` | Nachos/code/machine/interrupt.cc:150-179 | computes Ticked, and returns Yields |
| `Interrupts.Interrupt.Idle` | Nachos/code/machine/interrupt.cc:210-236 | computes Idled |
| `Interrupts.Interrupt.SetLevel` | Nachos/code/machine/interrupt.cc:114-128 | computes Leveled: time passes exactly when interrupts are turned on |
| `Interrupts.Run` | Nachos/code/machine/interrupt.cc:114-340 | the object, driven by any commands and any handlers, ends in the state that the run of the specification ends in, of which TimeIsKept speaks |
| `Multiplier.AddDouble` | Nachos/code/machine/mipssim.cc:669-672 | the double-word addition with carry is exact |
| `Multiplier.ShiftDouble` | Nachos/code/machine/mipssim.cc:676-680 | the double-word shift is exact |
| `Multiplier.NegateDouble` | Nachos/code/machine/mipssim.cc:687-691 | the double-word complement is exact |
| `Multiplier.MultiplyUnsigned` | Nachos/code/machine/mipssim.cc:663-682 | the loop, with its early exit and sign-extending shift, gives the unsigned product |
| `Multiplier.Mult` | Nachos/code/machine/mipssim.cc:639-696 | hi and lo are the exact 64-bit product, signed or unsigned, for all operands |
| `Multiplier.ProductUnique` | Nachos/code/machine/mipssim.cc:639-696 | no other two words are the product |
| `Tlbs.FilledIsQueue` | Nachos/code/userprog/exception.cc:246-265 | the TLB is a first-in-first-out queue of pages |
| `Tlbs.FilledOk` | Nachos/code/userprog/exception.cc:234-265 | loading a missing page keeps valid entries in front, distinct, and equal to the page table |
| `Tlbs.FilledExact` | Nachos/code/userprog/exception.cc:234-265 | whatever is loaded, the TLB goes on agreeing with the page table if and only if the entry is not valid, or copies the page table and is not there already |
| `Tlbs.WordToHost` | Nachos/code/machine/translate.cc:44-56 | the word spelled by the bytes in memory, low byte first, on either host |
| `Tlbs.ShortToHost` | Nachos/code/machine/translate.cc:58-68 | likewise for two bytes |
| `Tlbs.LittleEndian` | Nachos/code/machine/translate.cc:157-172 | stores put the low byte first on either host |
| `Tlbs.LoadAfterStore` | Nachos/code/machine/translate.cc:106-172 | a load gives back what the store put there, as far as the size holds it |
| `Tlbs.LoadElsewhere` | Nachos/code/machine/translate.cc:106-172 | and is not affected by a store beside it |
| `Tlbs.AlignedStaysInPage` | Nachos/code/machine/translate.cc:206-209 | aligned accesses never cross a page or leave memory |
| `Tlbs.TableAnswerIs` | Nachos/code/machine/translate.cc:206-269 | each exception if and only if: the address is not a multiple of the size; a write to a read-only page; a frame that memory does not have; in this order |
| `Tlbs.ByteKeepsItsPlace` | Nachos/code/machine/translate.cc:218-274 | the physical address lies in the frame of the page, at the offset of the virtual address in its page |
| `Tlbs.StoreElsewhere` | Nachos/code/machine/translate.cc:90-277 | with distinct frames, a store to one virtual address is not seen by a load from others |
| `Tlbs.WhatFits` | Nachos/code/machine/translate.cc:106-172 | exactly these values come back as they were: bytes from -128 to 127, halfwords from 0 to 65535, all words |
| `Tlbs.Machine.Translate` | Nachos/code/machine/translate.cc:193-277 | a hit gives exactly the address or exception the page table would give; a miss is a page fault; the entry used is marked, and as dirty by a write; nothing else in the TLB changes |
| `Tlbs.Machine.LoadEntry` | Nachos/code/userprog/exception.cc:246-265 | the slot loops compute the queue |
| `Tlbs.Machine.TLBMissHandler` | Nachos/code/userprog/exception.cc:234-242 | after it a valid page is present; for a page number beyond the page table, which is not checked, the TLB stays right if and only if what lies there is harmless |
| `Tlbs.MissBeyondTable` | Nachos/code/userprog/exception.cc:234-265 | witness: a program with one page reads beyond it, and the TLB then maps a page it does not have |
| `Tlbs.Machine.constructor` | Nachos/code/machine/machine.cc:67-77 | a machine with an empty TLB, memory full of zeros and the given page table |
| `Tlbs.Machine.SwitchSpace` | Nachos/code/userprog/addrspace.cc:356-389 | the flush empties the TLB, so it agrees with the next page table |
| `Tlbs.Machine.ReadMem` | Nachos/code/machine/translate.cc:90-127 | loads from the address the page table gives, and marks the entry used |
| `Tlbs.Machine.WriteMem` | Nachos/code/machine/translate.cc:142-175 | stores to the address the page table gives and nowhere else, and marks the entry used and dirty; memory is unchanged on an exception |
| `Tlbs.StoreThenLoad` | Nachos/code/machine/translate.cc:90-175 | a load after a store sees the value, through misses and an eviction in between |
| `Tlbs.Progress` | Nachos/code/machine/mipssim.cc:93-109 | from any TLB of two or more slots an instruction with one code and one data page meets at most two misses if and only if the state is not the one where both are missing and only the first slot is free; three always suffice |
| `Tlbs.ThreeMisses` | Nachos/code/machine/translate.cc:244-256 | witness of the third miss |
| `Tlbs.AtMostTwoMisses` | Nachos/code/userprog/exception.cc:246-265 | a TLB that agrees with its page table never needs more than two |
| `Tlbs.Try` | Nachos/code/machine/mipssim.cc:93-109 | one attempt at an instruction completes it or loads one page and changes no memory |
| `Tlbs.RunInstruction` | Nachos/code/machine/mipssim.cc:93-109 | fetch and load or store, restarted after every miss: at most two misses, and the access is done once, as the page table says |
| `Tlbs.BuildTable` | Nachos/code/userprog/addrspace.cc:100-122 | entry v of a new page table describes page v |
| `DiskTiming.ModuloDiff` | Nachos/code/machine/disk.cc:202-209 | the rotation that brings the head to the sector |
| `DiskTiming.LatencyBounds` | Nachos/code/machine/disk.cc:232-253 | latency is between one sector time and longest seek + rounding + one turn |
| `DiskTiming.SeekPerTrack` | Nachos/code/machine/disk.cc:178-193 | a seek takes one seek time for every track on the way, in either direction, and none on the same track |
| `DiskTiming.TransferStartsAtOnce` | Nachos/code/machine/disk.cc:249-252 | without a hit the transfer starts the first time after the seek that the head is at the sector |
| `DiskTiming.HitExactly` | Nachos/code/machine/disk.cc:241-247 | a read hits if and only if the head is on the track and the whole sector has passed it since bufferInit by the next sector boundary; it then takes one sector time |
| `DiskTiming.BufferSinceSeek` | Nachos/code/machine/disk.cc:255-271 | over every sequence of requests the track buffer dates from the end of the last seek to another track |
| `DiskTiming.TransferStartsOnSector` | Nachos/code/machine/disk.cc:249-252 | without a hit the transfer starts with the head at the target sector |
| `DiskTiming.HitHasPassed` | Nachos/code/machine/disk.cc:241-247 | a hit means the head is on the track and the whole sector has passed it since bufferInit by the next sector boundary |
| `DiskTiming.HitHasPassedByNow` | Nachos/code/machine/disk.cc:241-247 | by the time of the request itself, if and only if it is not the sector still under the head |
| `DiskTiming.HitBeforePassed` | Nachos/code/machine/disk.cc:241-247 | witness of the exception |
| `DiskTiming.Disk.constructor` | Nachos/code/machine/disk.cc:43-67 | head at sector 0, buffer from time 0, idle |
| `DiskTiming.Disk.ComputeLatency` | Nachos/code/machine/disk.cc:232-253 | computes the latency specified |
| `DiskTiming.Disk.Request` | Nachos/code/machine/disk.cc:115-154 | moves the head, restarts the buffer on a seek, and keeps bufferInit a sector boundary not after the interrupt |
| `DiskTiming.Disk.HandleInterrupt` | Nachos/code/machine/disk.cc:161-166 | the disk is idle and bufferInit is not in the future |
| `DiskTiming.TimelineWellTimed` | Nachos/code/machine/disk.cc:115-271 | every request of any sequence is timed within the bounds, starts on its sector or has passed since bufferInit, with bufferInit a sector boundary not after totalTicks when issued |
| `DiskTiming.TimelineLinks` | Nachos/code/machine/disk.cc:115-166 | each request meets the head, the buffer and the clock that the one before left |
| `DiskTiming.ServeAll` | Nachos/code/machine/disk.cc:115-271 | the device, given any sequence of requests, produces that timeline |

## Left out

- MULTI_LEVEL_DIR, pathParser and RemoveDir: string handling of paths.
- ExpandFileSize: its indirect cases are empty in the source and it is never called.
- PageFaultHandler, NaivePageReplacement and the inverted page table: unfinished in the source.
- TLBAlgoLRU: nothing updates its counters, so it has no meaning to prove.
- The rest of the MIPS simulator: only Mult and the restart after a miss are modelled.
- exec and fork system calls: they replace the page table without the flush.
- SynchDisk::PlusReader, BeginWriter and their partners: their lock objects are never created.
- Thread::Send and Receive, Print, List, DEBUG output, statistics other than ticks.
- File types and time stamps: 84 opaque bytes of the header.
- FileSystems.FileSystem.Close: numVisitors, which is counted and never read, is not modelled. Closing the two system files, which the source never does, is excluded.
- FileHeaders.FileHeader.Deallocate: what lies behind the table in memory is a parameter.
- FileSessions.Run: positions are not negative, and a call on a closed or removed file ends the run; what such a Close does is CloseExact.
- USE_PREEMPTIVE: the build without it is modelled.
- Lock::Lock: holderThread starts as null here; the source leaves it unset.
- OpenFile.ReadAt and WriteAt: position + numBytes does not wrap around.
- OpenFile.Read and Write: the Yield between the transfer and the move of the position is not a step of its own.
- FileSystem.Flush: writes the directory before the map, as Create does; Remove and the constructor write the map first. The two writes touch different sectors.
- FileSystem.Create: the new header object is made before the first Find rather than after it.
- ThreadMachine: threads, semaphores, conditions and locks are values in one machine state, not objects updated in place; List, Semaphore and Scheduler are the classes. The stretch between Sleep and the switch is a step of its own, so the machine allows a few more interleavings than the source.
- LockRefinement: conditions, whose queues the protocols model themselves, are not part of the link.
- ThreadMachine.Boot: semaphores, locks and conditions all exist from the start; they are not created or deleted in a run.
- BoundedBuffer, SemaphoreBuffer, WriteReadLocks, SynchLists, DeviceProtocol: values stepped by events. WriteReadLock runs with interrupts off throughout; the machine also allows other threads in between.
- PostOffices: mailboxes are first-in-first-out lists whose Append and Remove are single steps, as SynchLists shows them to be. All post offices have the same number of boxes. The headers are fields, not bytes, and the limits on message lengths are not modelled.
- PostSenders: Network::Send and the arrival of the packet in the socket of the addressee are one step.
- Interrupts.Interrupt: pending is the sequence that List holds, not the list object; the context switch after a tick is a result.
- Tlbs.Machine.ReadMem: a char is taken to be signed, so a one-byte load extends the sign.
- Tlbs.Machine.TLBMissHandler: what lies beyond the page table in memory is a parameter.
- Tlbs.RunInstruction: the fetched word is not decoded; the pages of the instruction and of its operand are valid ones.
- DiskTiming: the data transfer itself is in SectorStore and DeviceProtocol.
