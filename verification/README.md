# hotwired: a verified model

hotwired is a threaded file and chat server for the Hotline protocol. This project models its
self-contained stateful modules in Dafny and proves what they are relied on for. To check it:
`dafny verify dfyconfig.toml`.

- **Transfer manager.** `TransferSpec` gives each critical section of TransferManager.c as a step on
  an abstract state (queue, sequester list, table, counters, monitor thread, free ids, log of
  messages). `TransferInvariant`, `TransferSteps` and `TransferRuns` prove the invariant over all
  runs, `TransferOrder` and `TransferFifo` prove limits, deadlines and the order of service over all
  runs. `TransferBehaviour` proves the documented cases and the outcome of each call,
  `TransferStarts` that each transfer is started once, `TransferRequests` that it is started as it was
  asked for. `TransferAsWritten` and `TransferWrittenRuns` compare the code with its intent;
  `TransferMisled` says what the calls the code gets wrong do, and `TransferWitnesses` runs into them. `TransferManager.Manager` is the object with the C code's fields and loops; it sits on
  `Idm.IdManager` (the interval list of IDM.c) and `HashTable.Table` (the chained table), and its
  runs are proved to be the abstract runs.
- **Id allocator, hash tables.** `Idm`, `Chains`, `HashTable`, `Primes`, `StringHash`. Collection.c and
  HashTable.c are the same code over two key types, so the table is generic in its key.
- **Reader/writer lock.** `Rcl`: any number of threads, each mutex or condition operation one step;
  `RclRuns`: whole calls.
- **Wire format.** `Bytes`, `Socket`, `WireFormat`, `Transaction`, `ObjectPath`.
- **Accounts.** `CString`, `Permissions`, `AccountFile`, `AccountLoading`, `AccountParser`, `AccountManager`,
  `UserList`.
- **Poll table and hand-off.** `PollRound` (the table as a list cut at the cursor), `Multiplexer` (the
  array in place), `HandOff` (main loop and helper threads as a state machine), `HandOffRuns` (whole
  hand-offs).

## Where the code and its documentation part

The code is followed in the objects, and the exact condition under which it does what is meant is a
theorem.

- TransferManager.c:517 and :615 search for the entry itself where its predecessor is wanted, and the
  renumbering loop at TransferManager.c:600-604 never advances. The steps of `TransferSpec.Register` and
  `TransferSpec.Remove` are the ones the comments at TransferManager.c:20-93 describe;
  `RegisterAsWritten` and `RemoveAsWritten` are the code. `RegisterExact`, `RemoveExact` and
  `EveryWrittenRun` say exactly where the two agree, and `TransferWitnesses` reaches each exception.
  `tfm_remove` has no branch for a registered transfer that is still on a list; cancelling the first in
  the queue then starts it and destroys it (`RemoveFrontStarts`).
- `idm_return` drops an id on one family of calls (`IdManager.Return`, `DroppedIff`). It follows that an
  id can be lost for good; `Conservation` accounts for those.
- `multiplexer_remove` lowers the count of ready entries also for an entry that was already delivered
  (`RemoveCountExact`). Since the main loop removes every control connection it is handed, a round
  hands over half of them (`DrainHalf`). `retfds` is unsigned, so the test for a failed `poll` is never
  true, and an interrupted call opens an empty round.
- The table of bucket counts has 21803 out of place; it is never selected. The shrink test at
  Collection.c:137 rebuilds when there are more nodes than buckets.
- A length byte of 128 or more in a path object is a negative number (`int8_t`). Pass 1 of
  `transaction_object_path` may let it through, and pass 2 then copies a negative number of bytes
  (`ObjectPath.ObjectPath` says exactly when, `UnboundedWitness` shows one).
- A failed handshake closes its descriptor twice, in `cm_remove` and again in the handler
  (`CloseAgainExact`).

## Assumptions

- A waiter on a condition variable wakes only when signalled (RCL.c:67 and the monitor thread).
- The monitor's clock does not go back. The intended runs hold no cancel of a registered transfer that
  is still on a list (`TransferSteps.CancelRace`): the registered head before the monitor wakes, and a
  registered download that is still queued, the first in the queue included.
- No connection is kicked while a helper has it.
- `char` is signed, `int` and `unsigned` have 32 bits, and `strcasecmp` folds ASCII.
- A `poll` interrupted by a signal leaves all `revents` zero.

## Model

| member | source | states |
|---|---|---|
| TransferRuns.EveryRun | TransferManager.c:20-649 | In every state any run of critical sections reaches: `active_downloads` and `active_uploads` count the live transfers that hold a slot; `queue_size` is the queue length and the k-th waiting download has position k; downloads wait only while `max_downloads` is set and reached; every live transfer sits under its own id, disjoint from the free ids, so the unchecked insertions never meet a duplicate; one monitor thread exists exactly while something is sequestered; no two uploads in the table match case-insensitively |
| TransferRuns.RunKeepsInv | TransferManager.c:195-649 | Any run from a consistent state ends in a consistent state |
| TransferRuns.StepKeeps | TransferManager.c:195-649 | Each critical section, in any order and by any thread, keeps the whole invariant |
| TransferRuns.BootInv | TransferManager.c:302-330 | The static initialisers with the fresh id manager and table are consistent |
| TransferSteps.InitKeeps | TransferManager.c:302-330 | Reconfiguring, with queued downloads filling the slots a raised limit gives, keeps the invariant |
| TransferSteps.FillSlotsKeeps | TransferManager.c:326-327 | The loop that fills raised slots ends with a justified queue |
| TransferSteps.AddDownloadKeeps | TransferManager.c:332-386 | A new download, refused, queued or sequestered, keeps the invariant |
| TransferSteps.AddUploadKeeps | TransferManager.c:409-449 | A new upload keeps the invariant, upload exclusivity included |
| TransferSteps.RegisterKeeps | TransferManager.c:481-550 | Registering, as the comments intend it, keeps the invariant whatever the id and address |
| TransferSteps.RemoveKeeps | TransferManager.c:552-649 | Removing, as the comments intend it, keeps the invariant for running, sequestered and queued transfers alike, unless the transfer is registered and still on a list |
| TransferSteps.TimeoutKeeps | TransferManager.c:240-281 | The timeout outcome of the monitor wait: the head is dropped, its slot goes to the queue, all counters and lists still agree |
| TransferSteps.WakeKeeps | TransferManager.c:240-281 | The signalled outcome of the monitor wait keeps the invariant |
| TransferInvariant.PromoteKeeps | TransferManager.c:195-238 | `monitor_add_from_queue` moves exactly the first waiting download into a slot, one place up for everybody else, and keeps lists, table and ids in agreement |
| TransferInvariant.ReleaseSlotKeeps | TransferManager.c:253-257 | Passing a freed slot on keeps the counters equal to the slots held |
| TransferInvariant.DestroyKeeps | TransferManager.c:141-152 | Destroying a transfer that has left every list keeps lists, table, records and ids in agreement |
| TransferBehaviour.NewDownloadSequestered | TransferManager.c:54-57 | With a free slot a new download gets a fresh id and goes directly to the end of the sequester list with its deadline, taking one slot |
| TransferBehaviour.NewDownloadQueued | TransferManager.c:59-62 | With every slot taken it waits last in the queue under the next position, or is refused when queueing is off |
| TransferBehaviour.HeadRegisters | TransferManager.c:64-67 | Registration of the head followed by the wake-up: it leaves the list, keeps its slot and starts on its thread, and nothing else is sent |
| TransferBehaviour.HeadTimesOut | TransferManager.c:69-72 | The head that times out is purged, its id returned and, with nobody queued, its slot given up; the rest of the list moves on and nothing else is sent |
| TransferBehaviour.BehindHeadRegisters | TransferManager.c:74-77 | As intended, a sequestered transfer behind the head leaves the list and starts, the others keeping their order |
| TransferBehaviour.QueuedRegisters | TransferManager.c:79-82 | A queued download that registers is recorded and nothing else changes |
| TransferBehaviour.SlotToUnregistered | TransferManager.c:84-87 | When a running download ends and the first in the queue is not registered, that one moves to the sequester list, the others one place up, and the slot stays taken |
| TransferBehaviour.SlotToRegistered | TransferManager.c:89-92 | When it is registered, this step starts it, and it leaves the queue without being sequestered |
| TransferBehaviour.WaitingCancelled | TransferManager.c:566-604 | As intended, a cancelled waiting download is gone, those behind it are one place further on, those before it and every slot stay |
| TransferBehaviour.CancelTells | TransferManager.c:566-604 | As intended, a cancelled waiting download makes exactly those behind it be told their new places, in order |
| TransferBehaviour.PromotionTells | TransferManager.c:203-207 | When a slot comes to the queue everyone on it is told its new place, in order, the first that it has none any more, and nobody else is told anything |
| TransferBehaviour.RegisterOutcome | TransferManager.c:481-550 | As intended a registration returns 0, and attaches exactly the given descriptor and thread, if and only if the id is known, its user has a control connection, the data connection has the address of that one, and no thread is registered; otherwise it returns -1 and changes nothing, as coded too |
| TransferBehaviour.RunningRemoved | TransferManager.c:638-649 | A running transfer that is removed loses record and id, its descriptor is closed last, and with nobody waiting exactly its slot is free again |
| TransferBehaviour.UnknownRemoved | TransferManager.c:552-563 | Removing an id that is not in the table changes nothing, as intended and as coded |
| TransferBehaviour.InitSettings | TransferManager.c:302-330 | Queueing is set as configured, and each limit becomes the configured one or, if that is missing, stays |
| TransferRequests.StartsAsAsked | TransferManager.c:141-184 | Over every run from the start: each start message carries the kind, file name, mode and offset of the add call that took its id, and goes to the thread that registered it from the address of its user |
| TransferRequests.StepMatches | TransferManager.c:332-550 | Each step keeps every live record equal, field by field, to what its add call and its registration said |
| TransferRequests.DownloadRecord | TransferManager.c:332-386 | A download is refused with -1 exactly when no id is free or every slot is taken with queueing off; otherwise its record has the least free id and the user, file name, mode and offset of the call, unregistered, and nothing is sent |
| TransferRequests.UploadRecord | TransferManager.c:409-449 | An upload is refused with -2 exactly when the table has an upload of that name in either case, else with -1 exactly when no id or slot is free; otherwise its record is what was asked for, last on the sequester list with 30 seconds to register |
| TransferRequests.FoldedAlike | TransferManager.c:393-407 | The comparison of file names ignores the case of letters and nothing else |
| TransferBehaviour.StepSpares | TransferManager.c:195-649 | No step ends or changes a transfer it is not about, but for its place in the queue and its deadline, and none restarts it: it is started at most once, when a slot comes to it in the queue or the monitor thread is woken for it |
| TransferStarts.StartedOnce | TransferManager.c:164-184 | Over every run: a live transfer that is registered and on neither list has been started exactly once since its id was taken, and one that waits or is sequestered has not |
| TransferStarts.StepStarts | TransferManager.c:195-649 | Each step sends start messages exactly for the transfers it sets running, one each, to the thread they are registered with |
| TransferBehaviour.OnlyMonitorTakesHead | TransferManager.c:240-281 | Only the monitor thread, on a timeout or a wake-up, takes the head off the sequester list |
| TransferOrder.LimitsExact | TransferManager.c:302-649 | A step leaves the active counts within the limits if and only if it is not a reconfiguration that puts a limit below what is already active |
| TransferOrder.RunWithinLimits | TransferManager.c:302-649 | Over every run that never cuts a limit below its use, neither count exceeds its maximum |
| TransferOrder.StepOrdered | TransferManager.c:222-300 | With a clock that does not go back, each step keeps the deadlines in list order non-decreasing |
| TransferOrder.RunOrdered | TransferManager.c:222-300 | The same over every run |
| TransferOrder.HeadExpiresFirst | TransferManager.c:240-281 | In every reachable state, while the head of the sequester list is in time nobody on the list is late, so waiting on the head alone is enough |
| TransferFifo.StepFifo | TransferManager.c:195-649 | Each step serves from the front, lets in at the end, or drops a cancelled entry |
| TransferFifo.RunFifo | TransferManager.c:195-649 | Over every run, with an arrival told by its id and the call that let it in: the downloads given a slot, followed by those still waiting, form a subsequence of those that waited at first and of the arrivals |
| TransferFifo.ServedInArrivalOrder | TransferManager.c:195-649 | From the start of the server: along the downloads given a slot, and then along the queue, the numbers of the calls that let them in strictly increase; each is an arrival, by a call of its own to `tfm_add_download` |
| TransferAsWritten.RegisterExact | TransferManager.c:481-550 | `tfm_register` as coded (search at line 517) agrees with its intent, and keeps the invariant, if and only if the call is not an admitted registration of a sequestered transfer behind the head |
| TransferAsWritten.RemoveExact | TransferManager.c:552-649 | `tfm_remove` as coded (search at line 615, loop at 600-604) returns, leaves a consistent state and starts only what it sets running, if and only if the call is not a cancel of a queued download in company, of a sequestered transfer behind the head, or of a registered transfer that is still on a list; elsewhere it does what is intended |
| TransferMisled.RegisterMisled | TransferManager.c:516-537 | What the coded search does to a transfer behind the head: the last on the list is attached, refused and left there; any other is started and left there, and the one after it is taken off, still known but neither running nor waiting |
| TransferMisled.RemoveMisled | TransferManager.c:615-629 | The same for a cancel: the transfer is destroyed and its entry stays; the slot of the last on the list is never given back, that of any other is passed on, and the one after it is taken off |
| TransferWrittenRuns.StepExact | TransferManager.c:195-649 | A critical section as coded returns, leaves a consistent state and starts exactly what it sets running if and only if it is not one of the misled calls; off them it does what is intended |
| TransferWrittenRuns.WrittenRunExact | TransferManager.c:195-649 | In a run of the code as written every call returns, every state is consistent and every start rightful if and only if no call in it is misled, and then it is a run of the intended machine |
| TransferWrittenRuns.EveryWrittenRun | TransferManager.c:302-649 | The same from the start of the server, which carries every result about intended runs over to the code |
| TransferWitnesses.RegisterWitness | TransferManager.c:516-537 | Reached from the start: three downloads, the second registers first, and the code unlinks the third |
| TransferWitnesses.RemoveBehindHeadWitness | TransferManager.c:615-629 | Reached from the start: the second of three sequestered downloads is cancelled; it is destroyed, stays on the list, and the third is unlinked |
| TransferWitnesses.RemoveStuckWitness | TransferManager.c:600-604 | Reached from the start: cancelling the first of two waiting downloads never returns |
| TransferWitnesses.RemoveFrontWitness | TransferManager.c:638-646 | Reached from the start: cancelling the only waiting download after its data connection came starts it and destroys it |
| TransferWitnesses.RemoveHeadWitness | TransferManager.c:638-646 | Reached from the start: cancelling a registered head before the monitor wakes destroys it and leaves it on the list |
| TransferManager.Manager.constructor | TransferManager.c:302-330 | The object starts in the abstract initial state |
| TransferManager.Manager.Destroy | TransferManager.c:141-152 | The abstract destroy, with the id returned to the real id manager |
| TransferManager.Manager.Activate | TransferManager.c:164-184 | Exactly one start message for the registered transfer is logged |
| TransferManager.Manager.AddFromQueue | TransferManager.c:195-238 | The loop over the queue and the relinking compute exactly the abstract promotion, or fail on an empty queue |
| TransferManager.Manager.AdvanceQueue | TransferManager.c:203-214 | The renumbering loop moves every waiting download up one place and notifies each |
| TransferManager.Manager.Append | TransferManager.c:283-300 | `monitor_add` puts the transfer last on the sequester list with its deadline and starts the monitor when the list was empty |
| TransferManager.Manager.ReleaseSlot | TransferManager.c:639-643 | A freed download slot goes to the first waiting download or is given up; an upload slot is given up |
| TransferManager.Manager.Configure | TransferManager.c:302-330 | The abstract reconfiguration |
| TransferManager.Manager.FillSlotsLoop | TransferManager.c:326-327 | The loop computes the abstract filling of raised slots |
| TransferManager.Manager.AddDownload | TransferManager.c:332-386 | Return value and whole new state are those of the abstract operation, over the real allocator and hash table |
| TransferManager.Manager.FindConflict | TransferManager.c:393-407 | The iteration of the hash table finds a conflicting upload if and only if there is one |
| TransferManager.Manager.AddUpload | TransferManager.c:409-449 | Return value and whole new state are those of the abstract operation |
| TransferManager.Manager.Register | TransferManager.c:481-550 | Return value and whole new state are those of the operation as coded, misled search included |
| TransferManager.Manager.FindStop | TransferManager.c:517-519 | Where the coded search stops: on the entry itself or on the last one |
| TransferManager.Manager.Remove | TransferManager.c:552-649 | It reports being stuck exactly when the coded loop never ends, and otherwise reaches the state of the operation as coded |
| TransferManager.Manager.Timeout | TransferManager.c:240-281 | The abstract timeout |
| TransferManager.Manager.Wake | TransferManager.c:240-281 | The abstract wake-up |
| TransferManager.Manager.Perform | TransferManager.c:302-649 | Any possible call, misled ones included, takes the object to the state the code as written gives; that state is consistent and every start in it rightful if and only if the call is not misled |
| TransferManager.Manager.Drive | TransferManager.c:302-649 | The composed result: a whole run of the object in which no call is misled, over the interval list of IDM.c and the chained table of Collection.c, ends in the state of the abstract run |
| Idm.IdManager.constructor | IDM.c:10-19 | The free ids are `base..base+size`, both included |
| Idm.IdManager.Get | IDM.c:33-49 | It fails exactly when nothing is free, and otherwise takes exactly the least free id |
| Idm.IdManager.Return | IDM.c:52-126 | Every branch keeps the list sorted, disjoint and non-adjacent, and the set of free ids gains exactly the given id, unless the id follows the first interval and the second starts beyond the next id; then nothing changes |
| Idm.IdManager.Merge | IDM.c:52-126 | Merging two touching intervals changes the list but not the set |
| Idm.DroppedIff | IDM.c:52-126 | The dropped family, a statement about sets, is the guard a caller can read off the list: the id follows the first interval and the second starts beyond the next id |
| Idm.DroppedWitness | IDM.c:52-126 | A run from the start of the allocator that loses id 2: four ids are taken, 1 and 2 are given back |
| Idm.CanonicalUnique | IDM.c:33-126 | A set of free ids has only one list: the representation is determined |
| Idm.Conservation | IDM.c:33-126 | Over every run of takes and returns, free, handed-out and lost ids partition the original range: no id is handed out twice and none is made up |
| Primes.NextPrime | Collection.c:92-100 | The loop ends on a table entry that is at least the argument, the least such entry apart from 21803, which is never returned |
| Primes.SortedButOne | Collection.c:52-56 | The table is strictly increasing apart from entry 24 |
| HashTable.Table.constructor | Collection.c:58-71 | The empty map in 19 buckets |
| HashTable.Table.Rebuild | Collection.c:102-127 | Rebuilding at any table entry keeps the map and the size |
| HashTable.Table.DrainBucket | Collection.c:114-121 | The inner loop empties one chain into the new buckets and loses and duplicates nothing |
| HashTable.Table.Grow | Collection.c:129-133 | The map is kept; above three nodes a bucket the new bucket count is the least larger table entry, otherwise nothing changes |
| HashTable.Table.Shrink | Collection.c:135-139 | The map is kept; with more nodes than buckets the new bucket count is the least table entry of at least half, otherwise nothing changes |
| HashTable.Table.Insert | Collection.c:141-168 | A duplicate key changes nothing and is reported; a new key is added; the load bound 3n+1 survives |
| HashTable.Table.Remove | Collection.c:170-203 | Returns the value the map had, or none, and the map loses exactly that key |
| HashTable.Table.Lookup | Collection.c:205-229 | Returns the value of the map although it reorders its chain |
| HashTable.Table.MoveToFront | Collection.c:210-219 | Moving a node to the front keeps every node in the bucket of its key |
| HashTable.Table.Iterate | Collection.c:231-242 | Until it stops, the callback sees every entry of the map once |
| HashTable.Table.Run | HashTable.c:116-244 | For every sequence of insertions, removals, lookups and rebuilds the answers and the contents are those of a finite map; insert-only runs keep n_nodes <= 3*n_buckets + 1 |
| Chains.FlatListsMap | Collection.c:231-242 | The bucket-by-bucket listing shows each entry of the map once and nothing else |
| Chains.VisitSearch | TransferManager.c:393-407 | A search callback that stops at its first hit reports a hit if and only if some listed entry matches |
| Chains.MoveOne | HashTable.c:125-136 | Moving one node between the two bucket arrays keeps each entry in exactly one of them |
| StringHash.Compute | HashTable.c:103-114 | The wrapping loop over signed characters is the key read as a number in base 31, modulo 2^32 |
| StringHash.NumberConcat | HashTable.c:103-114 | The number of a concatenation from the numbers of its parts |
| StringHash.NumberOfOne | HashTable.c:103-114 | A single character counts as a signed number; with the law of concatenation this fixes the number of every key |
| Rcl.MutualExclusion | RCL.c:41-81 | In every interleaving of any number of threads `rc` counts the readers inside, and a writer that has completed its lock excludes every reader and every other writer |
| Rcl.StepKeeps | RCL.c:41-81 | Each mutex or condition operation keeps the invariant: owners, count, quiet writer and no lost wakeup |
| Rcl.SomeoneCanMove | RCL.c:41-81 | No deadlock: while any thread is inside or waiting, some thread that is not idle can step |
| Rcl.NoNewReader | RCL.h:14-21 | Once a writer holds the entry lock no new reader gets in and the count does not rise |
| Rcl.TotalFalls | RCL.c:50-69 | While a writer is pending, every step of a thread that is not idle lowers one measure |
| Rcl.WriterProceeds | RCL.c:50-69 | While a writer stays pending, the moves of busy threads are bounded by one measure, and there is always such a move to make |
| Rcl.WriterWrites | RCL.c:50-69 | So it writes: every run with more busy moves than the measure has a point where the pending writer holds the lock |
| Rcl.TotalBounded | RCL.c:50-69 | The bound: five moves a thread |
| RclRuns.ReaderEnters | RCL.c:41-48 | With both mutexes free, a thread that takes the read lock undisturbed ends inside, counted, with both mutexes free again, whoever else is inside |
| RclRuns.ReaderLeaves | RCL.c:50-56 | With other readers left inside, one that leaves changes only the count |
| RclRuns.LastReaderLeaves | RCL.c:50-56 | The last reader to leave wakes the waiting writer, if there is one, and frees `rc_lock` |
| RclRuns.WriterEnters | RCL.c:58-75 | With both mutexes free, a thread that takes the write lock undisturbed holds both and writes if nobody reads; otherwise it waits for the signal and keeps the entry lock |
| RclRuns.WriterLeaves | RCL.c:77-81 | A writer that leaves frees both mutexes |
| RclRuns.ManyReaders | RCL.c:41-48 | From the start, any number of threads can be reading at the same time |
| Socket.Socket.ReadAll | socketops.c:47-61 | However the stream is split, exactly n bytes are taken when the stream has them, and it fails otherwise |
| Socket.Socket.Recv | socketops.c:13-28 | An arbitrary non-empty piece of the stream |
| WireFormat.RoundTrip | Transaction.c:52-170 | A written transaction is read back, leaving exactly the bytes behind it, if and only if it has at most 64 objects of together at most 262144 bytes; otherwise it is refused |
| WireFormat.StreamRoundTrip | Transaction.c:52-170 | The concatenated output of any list of transactions within the limits is read back in order and consumed exactly |
| WireFormat.StreamExact | Transaction.c:52-170 | A stream is read back if and only if every transaction in it is within the limits |
| WireFormat.EncodeDecodeObjects | Transaction.c:113-155 | Soundness: accepted objects, written again, are a prefix of the body they came from |
| WireFormat.DecodeEncodeObjects | Transaction.c:113-155 | Written objects are parsed back whatever follows them |
| WireFormat.WrittenHeader | Transaction.c:530-567 | On the wire: class, id, task number, error, then twice the number of bytes behind the two length fields, and the number of objects |
| WireFormat.WrittenObject | Transaction.c:440-470 | Each object stands behind those before it as its id, its length and its data |
| WireFormat.Accepted | Transaction.c:52-170 | An accepted transaction has the fields of its header and at most 64 objects; exactly the announced bytes, at most 262144, are taken from the stream, or none if no object or no byte is announced |
| WireFormat.RefusedExact | Transaction.c:52-170 | A transaction is refused if and only if the stream is shorter than a header, a count or a length is over its limit, the body is cut short, or it does not start with the announced number of objects |
| Bytes.BigEndian | Transaction.c:472-490 | Integers of two and four bytes have their high byte first, read and written |
| Transaction.Read | Transaction.c:52-170 | The reader with its bounds checks computes the specification function on every stream, malformed ones included, and consumes what that says |
| Transaction.ParseObjects | Transaction.c:113-155 | The cursor loop over the body computes the recursive parser |
| Transaction.ReadMany | Transaction.c:52-170 | Reading n transactions from one socket, up to the first refused |
| Transaction.TransactionOut.Create | Transaction.c:390-409 | An empty request |
| Transaction.TransactionOut.Reply | Transaction.c:411-427 | An empty reply to the given task |
| Transaction.TransactionOut.AddObject | Transaction.c:440-470 | Appends exactly the object, unless max_objects is reached; vectors, count and length field stay in agreement |
| Transaction.TransactionOut.AddInt16 | Transaction.c:472-480 | Appends the big-endian two bytes |
| Transaction.TransactionOut.AddInt32 | Transaction.c:482-490 | Appends the big-endian four bytes |
| Transaction.TransactionOut.AddMaskedString | Transaction.c:497-510 | Appends the masked string, its length cut to 16 bits |
| Transaction.TransactionOut.Write | Transaction.c:530-567 | The gathered vectors are the encoding of the transaction built, and both length fields count the bytes behind them |
| Transaction.IntegerObjects | Transaction.c:220-248 | Integers added to a transaction read back in either width that holds them |
| Transaction.ShortIntegers | Transaction.c:220-248 | An object too short for the width asked for is read in the widest it has, and an empty one is 0 |
| Transaction.MaskTwice | Transaction.c:497-510 | Masking is its own inverse |
| Transaction.MaskFlips | Transaction.c:497-510 | Every bit of every byte is flipped |
| Transaction.Exchange | Transaction.c:52-170 | Building, writing and reading compose: what arrives is what was built if and only if it is within the limits |
| Transaction.WriteAll | Transaction.c:530-567 | The bytes are the encodings of the built transactions, each with the task number of its turn |
| Transaction.ExchangeAll | Transaction.c:52-170 | For a stream of built transactions, written one after the other: all of them arrive in order, consuming exactly their bytes, if every one is within the limits, and the reading fails otherwise |
| ObjectPath.ObjectPath | Transaction.c:272-331 | Null, the joined path or unbounded, on every input, negative lengths included; where it gives a path, pass 2 stays in bounds and fills exactly the bytes pass 1 counted |
| ObjectPath.CheckEntries | Transaction.c:291-311 | Up to the first negative length, pass 1 accepts exactly what the recursive scan accepts, counts exactly the bytes of the path, and says where it stopped |
| ObjectPath.CheckOn | Transaction.c:291-311 | Behind a negative length, pass 1 refuses exactly the paths the backward scan refuses |
| ObjectPath.BuildPath | Transaction.c:315-324 | On data pass 1 accepted, pass 2 writes the joined entries and the terminator and nothing else |
| ObjectPath.UnboundedWitness | Transaction.c:315-318 | One entry with a length byte of 255 gets through pass 1, and pass 2 copies a negative number of bytes |
| ObjectPath.AcceptedPath | Transaction.c:272-331 | Cutting an accepted path at its slashes gives back its entries, as many as announced; none is `..` or has a slash |
| ObjectPath.JoinAppend | Transaction.c:315-324 | Every entry of a path is followed by one slash |
| ObjectPath.EmptyPaths | Transaction.c:280-292 | Without a count, or with the count 0, there is no path; a count that is negative as a signed number gives the empty path |
| ObjectPath.PathRoundTrip | Transaction.c:272-331 | A path of 1 to 32767 entries of at most 127 bytes is accepted if and only if no entry is `..` or has a slash, and then reads as its entries |
| Permissions.HexRoundTrip | Permissions.c:10-30 | Printing and reading gives all permission bits back |
| Permissions.TextRoundTrip | Permissions.c:50-63 | Reading and printing gives a text back if and only if it is sixteen upper-case hexadecimal digits |
| Permissions.Print | Permissions.c:50-63 | The loop fills the buffer with the hexadecimal form and the terminator |
| Permissions.Parse | Permissions.c:10-30 | The loop with its calls of `strtol` computes the byte pairs; no text, or text of any other length than sixteen, gives eight zero bytes |
| Permissions.FromAsciiExact | Permissions.c:10-30 | Sixteen characters give their eight pairs, any other number eight zero bytes |
| Permissions.PairOfDigits | Permissions.c:24-28 | Two digits of either case stand for one byte, the high four bits first |
| Permissions.PairOffDigits | Permissions.c:24-28 | Off the digits: a digit and anything else is the digit, a blank, plus or minus sign may stand before a digit, and everything else is 0 |
| Permissions.ToAsciiDigits | Permissions.c:50-63 | Each byte is printed as the two digits of `hexbuf` for its high and low four bits |
| Permissions.FallbackIsSuperuser | Permissions.c:80-88 | The text of the fallback account decodes to exactly the permissions of a superuser |
| AccountManager.FallbackFields | AccountManager.c:141-147 | The fallback account is named admin, has no password and holds exactly the permissions of a superuser |
| AccountFile.FileRoundTrip | AccountManager.c:273-304 | Any list of storable accounts with distinct names, written and read again, gives the same accounts in the same order with the same permissions, an empty password being none |
| AccountFile.ListExact | AccountManager.c:273-304 | A whole list comes back if and only if its names are distinct and every account is storable; none is rescued by what another line contains |
| AccountFile.StoredExact | AccountManager.c:60-93 | The same for one account written alone: no field holds a separator and the line fits one read of `fgets` (255 bytes, the newline not counted unless the real name is empty) |
| AccountFile.ParseJoined | AccountManager.c:60-93 | A line joined from its fields is parsed into them |
| AccountFile.ParsedClean | AccountManager.c:60-93 | Whatever a file holds, an account read from it has no separator in its fields |
| AccountLoading.ParsedExact | AccountManager.c:60-93 | A line has an account if and only if it has three colons and does not start with one; its fields are what stands between them, no password when that is empty, and no permissions at all unless sixteen characters say which |
| AccountLoading.LoadedFields | AccountManager.c:108-148 | So an account loaded from any file stands in one of its pieces, field by field, and has no permissions if its third field is not sixteen characters long |
| AccountLoading.PiecesExact | AccountManager.c:130-131 | The pieces of a file are the file, cut behind every newline and every 255th byte without one, and nowhere else |
| AccountLoading.LoadedOrder | AccountManager.c:130-131 | Loading keeps, in the order of the file, the first account of every name, and no other |
| AccountLoading.LineBytes | AccountManager.c:273-282 | A stored account is its name, its password, sixteen upper-case digits and its real name, with colons between them and a newline behind |
| AccountParser.ProcessLine | AccountManager.c:60-93 | The parser that overwrites separators in its buffer computes the parse of the line, on every buffer |
| AccountParser.CutAtColon | AccountManager.c:69-82 | `strchr` and the overwritten colon leave the two strings around it, and nothing before the pointer changes |
| AccountManager.AccountManager.constructor | AccountManager.c:24-26 | No accounts |
| AccountManager.AccountManager.Add | AccountManager.c:156-188 | A taken name is refused with -1 and changes nothing; otherwise list and index gain the account, last in the list, tail pointer included |
| AccountManager.AccountManager.Delete | AccountManager.c:201-243 | List and index lose exactly the account of that name, the order of the others and the tail pointer are right, and an unknown name changes nothing |
| AccountManager.AccountManager.Lookup | AccountManager.c:267-270 | Finds an account if and only if the list has one of that name |
| AccountManager.AccountManager.Commit | AccountManager.c:285-304 | The walk along the list writes the file of the accounts in order |
| AccountManager.AccountManager.Fgets | AccountManager.c:130-131 | One call reads up to 255 bytes and no further than a newline |
| AccountManager.AccountManager.Init | AccountManager.c:108-148 | The loop over the file leaves exactly the accounts the file stands for, in order, or the fallback account |
| AccountManager.AccountManager.CommitAndInit | AccountManager.c:108-304 | Committing and re-initialising rebuilds the same ordered list; only the empty list comes back as the fallback account |
| AccountManager.AccountManager.BuildUserlist | AccountManager.c:339-353 | The reply holds one entry for each account in list order, up to the 16-bit size of the table |
| AccountManager.WithoutNameExact | AccountManager.c:201-243 | What a deletion leaves: everything if nobody has the name, otherwise everything but the one account of that name, in the same order |
| AccountManager.AgreeDrop | AccountManager.c:201-243 | Taking place k out of the list and its name out of the index keeps the two in step |
| UserList.UserlistComplete | AccountManager.c:339-353 | Every slot is filled, and no account is dropped if and only if there are fewer than 65536 |
| UserList.EntryReads | AccountManager.c:306-337 | An entry of at most 65535 bytes is a message object (101) and itself a well-formed list of four objects: nickname (102), masked user name (105), placeholder password (106), permissions (110) |
| UserList.EntryCut | AccountManager.c:306-337 | A longer entry is cut to as many bytes as its length has in 16 bits |
| UserList.Fill | AccountManager.c:306-334 | The offsets of the buffer arithmetic fit: the buffer holds the parts one behind the other |
| UserList.AddEntry | AccountManager.c:306-337 | Appends the entry unless the reply is full |
| Multiplexer.PollTable.constructor | Multiplexer.poll.c:29-48 | The empty table |
| Multiplexer.PollTable.Add | Multiplexer.poll.c:56-93 | The entry is last and unscanned, waits for input (1) or for output (4) as asked, and has nothing pending, whether or not the array had to be doubled |
| Multiplexer.PollTable.Remove | Multiplexer.poll.c:95-135 | The entry is gone, the cursor still stands between the same entries, the count is lowered as coded, and halving loses nothing; a table is never left over four times as large as its contents unless it has its first size |
| Multiplexer.PollTable.Resize | Multiplexer.poll.c:70-74 | Contents and cursor survive, and count <= size |
| Multiplexer.PollTable.Poll | Multiplexer.poll.c:137-187 | The call opens a round when none is open, and delivers and moves the cursor as the scan of the list says |
| PollRound.RoundDelivers | Multiplexer.poll.c:137-187 | Over one round, under any interleaving of adds and removes: what is delivered followed by what is still to be scanned is a subsequence of the entries ready when the round began, so only ready entries are delivered, each at most once and in table order |
| PollRound.DeliveredReported | Multiplexer.poll.c:137-187 | So whatever is added and removed meanwhile, a delivered descriptor was in the table when the round began and `poll` reported events for it then |
| PollRound.StartReports | Multiplexer.poll.c:141-149 | A round starts with exactly the events `poll` reported, entry by entry, and with the number of entries that have any; an interrupted call leaves none |
| PollRound.ScanTakesFirst | Multiplexer.poll.c:151-181 | A call delivers the first ready entry behind the cursor |
| PollRound.RemoveCountExact | Multiplexer.poll.c:117-118 | A removal keeps the count of ready entries right if and only if it does not hit an entry this round already delivered |
| PollRound.CountedCloses | Multiplexer.poll.c:151-187 | While the count is right, a round closes only when nothing ready is left |
| PollRound.CutShortWitness | Multiplexer.poll.c:117-118 | Two ready entries, the first delivered and removed: the round closes without the second |
| PollRound.DrainHalf | connection_handler.c:114-142 | So of n ready control connections, each removed when delivered, one round hands over exactly the first half, rounded up |
| HandOff.SingleOwner | connection_handler.c:74-142 | Over every run in which no second close of a failed handshake hits a reused number: each open control descriptor is in exactly one of the poll table, the main loop and a helper; it is in the table at most once; and two helpers never have the same connection |
| HandOff.StepKeeps | helper_thread.c:32-167 | Every step of the main loop and of the helpers keeps that, and loses no descriptor, unless it is a second close that hits a reused number |
| HandOff.RunKeepsInv | connection_handler.c:74-142 | The same over every such run |
| HandOff.TakeKeeps | connection_handler.c:139-140 | The main loop takes a delivered descriptor out of the table before it hands it on |
| HandOff.PutBackKeeps | helper_thread.c:113-131 | A helper that puts a descriptor back holds it no longer |
| HandOff.CloseAgainExact | helper_thread.c:55-61 | The second close of a failed handshake keeps ownership right if and only if the number has not been given to a new connection in between |
| HandOff.CloseAgainWitness | helper_thread.c:55-61 | Reached from the start: a number is accepted again between the two closes, and the second takes the new connection away from the main loop |
| HandOffRuns.WatchedForInput | Multiplexer.poll.c:56-93 | Over every run, `poll` is asked for input on every descriptor in the table and for nothing else |
| HandOffRuns.Dispatched | connection_handler.c:114-142 | The first ready descriptor decides: the control port leads to a connection, the data port to a data connection, any other to a transaction |
| HandOffRuns.Transacted | connection_handler.c:139-141 | A whole successful transaction: the descriptor leaves the table, exactly one helper gets it, and it is back behind the others, waiting for input, with the helper in the pool |
| HandOffRuns.Disconnected | helper_thread.c:113-141 | A failed one: the descriptor leaves the table and is closed |
| HandOffRuns.Connected | connection_handler.c:74-90 | A new connection with a good handshake is open and last in the table, waiting for input |
| HandOffRuns.Rejected | helper_thread.c:32-62 | One with a failed handshake, undisturbed, leaves everything as it was |
| HandOffRuns.DataHandled | connection_handler.c:92-107 | A data connection never enters the table |

## Left out

- TransferManager.Manager.Remove: transfers are records in a map indexed by id rather than separately
  allocated objects, so use of a freed record shows as an id that is no longer in the map; the
  endless loop of TransferManager.c:600-604 is reported in an out-parameter. The two linked lists are
  sequences of ids, so the pointers `q_tail` and `seq_tail` are not fields of the object.
- TransferRuns.EveryRun: the runs are those of the intended `tfm_register` and `tfm_remove`; for the
  code as written it holds on the runs without misled calls, by `EveryWrittenRun`.
- Idm.IdManager.Return: ids are unbounded naturals; the range used is 1 to 4097.
- HashTable.Table.Grow: the load test in floating point is an integer comparison; node counts stay
  below the largest `int`.
- HashTable.Table.Lookup: one atomic call; lookups under a shared read lock are not interleaved.
- ObjectPath.ObjectPath: what the C code does after a negative entry length that pass 1 lets through,
  or once it reads in front of the object, is the one outcome "unbounded".
- Socket.Socket.ReadAll: timeouts and errors of `recv` appear as the end of the stream.
- AccountManager.AccountManager.Commit: real names are not null, as `fprintf` requires; opening,
  writing and closing the file are the returned bytes.
- AccountManager.AccountManager.Delete: accounts in the list are compared by value, which is the pointer
  comparison of the source because names are distinct.
- HandOff.SingleOwner: kicks are not steps, and data connections carry no control descriptor; the
  mailbox of a helper holds one message, as the pool hands a thread out to one caller at a time.
- Multiplexer.PollTable.Poll: the lock around the table and the signal that interrupts `poll` are not
  part of this object; the event out-parameter, which the main loop does not ask for, is not computed.
- Rcl.WriterProceeds: fairness of the scheduler is not assumed; the result bounds the moves of busy
  threads.
- `tfm_purge_uid` removes by user id from a table keyed by transfer id and is not one of the steps.
- `tfm_position`, `tfm_owner`, and the bit tests of Permissions.c: simple lookups.
- The other multiplexers, Config.c, Stack.c, MQueue.c, ThreadManager.c, HThread.c: a mailbox and a pool
  appear in `HandOff` as far as the hand-off needs them.
- Files, listeners, trackers, logging, chat and file commands: input and output around the core.
- Memory freeing and allocation failure, host byte order, debugging output.
