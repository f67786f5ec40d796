# HypeR I/O control plane: a verified model

The repository lends guest memory to vhost devices inside an I/O appliance and takes it back.
A userspace service drives the loan; a memory driver, a bridge driver and the host keep the
books. Its promises are about order and about failure: whatever system call fails, at whatever
moment, a grant is proven quiescent to the host only when nothing can still touch it.

This project models that control plane in Dafny and proves those promises over every run,
every interleaving and every pattern of failures. A system call that may fail is a
nondeterministic choice (`*`) at the place where the source makes the call.

| module | what it models |
|---|---|
| `Granules` | the shared, reference-counted registry of 2 MiB mappings, as interleaved steps of any number of callers and retirement callbacks |
| `GuestMemory` | the memory driver: sort, in-place dedup, acquire with rollback, and the device object through open, mmap, release, probe and removal |
| `Layout` | the extent and aperture checks, and the walk that flattens extents into a page table |
| `Rings` | placement of virtqueue parts (sizes and alignments of section 2.7 of VIRTIO 1.2) |
| `Notification` | BIND, UNBIND and the interrupt handler of the notification device |
| `Driver` | the backend's assumptions about the memory driver, shown of `GuestMemory` |
| `Backend` | endpoints, memory and token of one service, beside the Linux and host state they act on |
| `Session` | the session protocol: bindings, epochs, transactions, replay |
| `Conversation` | what every reply means for the backend, and what holds of whole conversations |
| `Service` | the service loop: the protocol on top of the backend |
| `Mailbox` | the mailbox wait loop against a delayed one-shot interrupt and removal |
| `Policy`, `Targets`, `Blocks` | block ranges and their arithmetic, staged publication with rollback, the disk table and the bindings |
| `Newc` | the newc archive writer and reader of the assembler, and the overlay merge |

## How the main results are stated

* **Granules, Mailbox.** `Exec(Init(...), steps)` is any interleaving at all. A step that would
  follow a NULL or freed pointer, drop a reference that is not held, queue a work item twice or
  touch a removed device sets `fault`; `NoFault` and `NoAccessAfterRemoval` say that none does.
  The region claim of `request_mem_region` is exclusive, and a mailbox device raises its
  interrupt whenever an armed status bit is set; the handler then runs arbitrarily late.
* **Backend.** `Linux` is what is really open, mapped, attached and admitted; the other fields
  are what the service believes. `Valid` ties the two together and holds the host's ledger: each
  token is admitted once, retired at most once, and every retirement carries a snapshot of what
  was in use at that moment, which must be nothing. Every method keeps `Valid` under any outcome
  of its system calls. A log of the calls that take things down says which were issued and in
  which order, so that retries can be compared. The host's token goes from Created to Admitted to Retired, as lines 300
  to 315 of the repository's own README.md describe.
* **Service.** `Serve` takes any sequence of records and returns a `Talk`: the inputs of a run of
  the pure protocol in `Session` with the state of the backend between the turns. All lemmas about
  runs in `Session` hold of it, and `TurnOk` holds of each turn: an executed record has the effect
  its reply says (`Effect`), any other has none.

## Where the code does not do what a reader might expect

* `assemble` produces archives that do not read back: from an overlay with a file named
  `TRAILER!!!`, and from a merge of more than 16384 members (`TrailerIsAssembledAndLost`,
  `CrowdIsAssembledAndLost`). `ReadsBackIff` and `AssembleArchive` give the exact condition.
* The range conflict test is exact for ranges inside a disk (`ConflictIffShared`). Against a
  range that wraps it is not (`ExactIffNoWrap` says exactly when); `bind_range` validates first.
* A wait may return success although removal has begun: the bridge can die between the two tests
  (`ReadyMayBeDying`). It was alive at the first (`TestedAlive`), and the device is still there.
* A failed discovery may have extended the disk table. The IDs handed out before stay as they
  were (`ScanGrows`).

## Model

| member | source | states |
|---|---|---|
| `Granules.StepKeepsInv` | modules/guest-memory/granules.c:24-126 | every step of every caller and callback keeps the registry invariant |
| `Granules.ReachableInv` | modules/guest-memory/granules.c:24-126 | the invariant holds after every interleaving of any number of callers |
| `Granules.NoFault` | modules/guest-memory/granules.c:37-126 | no run reads or frees a freed granule, follows an entry set to NULL, drops a missing reference or queues work twice |
| `Granules.UsersAreReferences` | modules/guest-memory/granules.c:44-47 | the `users` of a registered granule is the number of references still held, and at least one |
| `Granules.HeldIsRegistered` | modules/guest-memory/granules.c:96-108 | an entry still held is registered and mapped, whatever other callers put |
| `Granules.GetReturnsWhatWasAsked` | modules/guest-memory/granules.c:37-85 | in every run a get of index x adds the registered granule of x, or leaves the array only if x was not registered; with a free region and no refusal it does add one; one that was registered is the one it gets |
| `Granules.LastHolder` | modules/guest-memory/granules.c:103-107 | who sees `users` reach zero is the only holder left |
| `Granules.UnregisteredHasNoRefs` | modules/guest-memory/granules.c:99-108 | a detached granule has no reference anywhere |
| `Granules.OneMappingPerIndex` | modules/guest-memory/granules.c:60-75 | two live mappings or claims never cover the same 2 MiB index |
| `Granules.BusyUntilReleased` | modules/guest-memory/granules.c:60-64 | while a detached granule holds its region, a get of that index fails and changes nothing but its own allocation |
| `Granules.PutReturnsAfterRetirement` | modules/guest-memory/granules.c:113-125 | when put returns, everything it detached is unmapped, unclaimed and freed, and its array is all NULL |
| `Granules.AtMostOneBatch` | modules/guest-memory/granules.c:91-93 | a caller never has more than 32 retirements outstanding |
| `Granules.NothingLeaks` | modules/guest-memory/granules.c:77-84 | once every caller has returned everything, heap, registry, claims and queue are empty |
| `Granules.StepUsesWork` | modules/guest-memory/granules.c:37-126 | every effective step of a caller or a callback lowers a measure of the work that is left |
| `Granules.SchedulesAreBounded` | modules/guest-memory/granules.c:91-125 | so every schedule of effective steps is at most that long |
| `Granules.EveryCallReturns` | modules/guest-memory/granules.c:87-126 | and where a schedule can go no further, every get and put has returned |
| `GuestMemory.SortSorts` | modules/guest-memory/memory.c:196 | the sorted indices are in order and a permutation of the indices |
| `GuestMemory.Sort` | modules/guest-memory/memory.c:196 | the array is sorted in place and keeps its multiset |
| `GuestMemory.DistinctOfSorted` | modules/guest-memory/memory.c:197-198 | the distinct part of a sorted sequence is strictly increasing and has the same members |
| `GuestMemory.Dedup` | modules/guest-memory/memory.c:197-198 | the in-place pass, which reads the previous entry while it writes the front, leaves exactly the distinct values |
| `GuestMemory.Collect` | modules/guest-memory/memory.c:191-195 | it succeeds exactly when every page passes the aperture test; then frame i is that of page address i (frame * 4096 is the address) and index i the 2 MiB around it |
| `GuestMemory.Acquire` | modules/guest-memory/memory.c:201-204 | one reference for each index of the acquired prefix, whose length says where it stopped |
| `GuestMemory.CollectedIsBacked` | modules/guest-memory/memory.c:191-198 | frames of the pages and distinct indices of the pages fit: the indices are the granules behind the frames |
| `GuestMemory.PageTable` | modules/guest-memory/memory.c:191-198 | frame i shows page address i, and the granules are exactly those that contain a page, if all pages are inside the aperture |
| `GuestMemory.BuildGrant` | modules/guest-memory/memory.c:191-216 | success holds one reference for each granule that contains a page, with frames that show the requested addresses; failure gives the acquired prefix back |
| `GuestMemory.Memory.Prepare` | modules/guest-memory/memory.c:165-216 | success publishes frames that show the requested addresses in order, with one reference per granule that contains a page; any error changes nothing |
| `GuestMemory.GrantShapeIff` | modules/guest-memory/memory.c:173-181 | which requests a dynamic device takes up, in numbers |
| `GuestMemory.Memory.Unprepare` | modules/guest-memory/memory.c:57-63 | exactly the held granule references are dropped |
| `GuestMemory.Memory.ViewsAreHeld` | modules/guest-memory/memory.c:126-163 | while a VMA exists, each of its pages is in bounds, shows the requested address of its place, and is held |
| `GuestMemory.Memory.Open` | modules/guest-memory/memory.c:77-98 | a dynamic device has one opener |
| `GuestMemory.Memory.Mmap` | modules/guest-memory/memory.c:126-163 | EINVAL and ENODEV exactly under their conditions; a new VMA shows the requested addresses of its slice in order; a failure adds none |
| `GuestMemory.Memory.VmaOpen` | modules/guest-memory/memory.c:113-117 | a duplicated VMA is counted |
| `GuestMemory.Memory.VmaClose` | modules/guest-memory/memory.c:118-122 | a closed VMA is uncounted and the others stay |
| `GuestMemory.Memory.IoctlRelease` | modules/guest-memory/memory.c:229-231 | refused while a VMA exists, otherwise every granule goes back |
| `GuestMemory.Memory.Release` | modules/guest-memory/memory.c:100-111 | the last close returns the grant, and destroys the object only after removal and the last file |
| `GuestMemory.Memory.Destroy` | modules/guest-memory/memory.c:64-75 | a static device drops exactly the page references it took |
| `GuestMemory.Memory.RetainPages` | modules/guest-memory/memory.c:302-317 | a probe holds one reference for each page up to where it stopped |
| `GuestMemory.Memory.Retain` | modules/guest-memory/memory.c:302-345 | a probe that fails midway drops what it took, once |
| `GuestMemory.Memory.Remove` | modules/guest-memory/memory.c:347-356 | open files and their VMAs keep table and granules past removal |
| `Layout.ApertureHoldsGranule` | include/hyper_io_layout.h:18-24 | the page test holds exactly when the whole 2 MiB granule lies in the aperture |
| `Layout.ReadExtents` | service/memory.c:62-85 | it succeeds exactly when the extents tile the grant, and the table is their flattening |
| `Layout.FillExtent` | service/memory.c:80-81 | an extent's slots get its pages, no other slot changes |
| `Layout.WalkStops` | include/hyper_io_layout.h:12-17 | an extent the check refuses cannot be part of any tiling |
| `Layout.FlattenSize` | service/memory.c:80-87 | the flattening has one page for each 4 KiB covered |
| `Layout.OffsetFindsAlias` | service/memory.c:72-83 | each offset of each extent finds its alias in the table, with no wrap |
| `Rings.Place` | service/vhost.c:116-143 | it accepts exactly the queue sets that conform to section 2.7 of VIRTIO 1.2 inside the grant, and gives vhost their three addresses moved to the mapping |
| `Rings.PlaceQueue` | service/vhost.c:118-143 | a queue is accepted exactly when its parts fit and meet no earlier part |
| `Rings.PlacePart` | service/vhost.c:82-91 | a part is accepted exactly when it is aligned, in the region and free |
| `Rings.Free` | service/vhost.c:138-141 | the overlap search finds an overlap if and only if there is one |
| `Rings.SkipAbsent` | service/vhost.c:126-128 | the zero entries a skipped queue leaves neither cause nor hide an overlap |
| `Rings.RingsAreDisjoint` | service/vhost.c:132-142 | no guest byte is in two ring parts of an accepted queue set |
| `Rings.RingsFitTheGrant` | service/vhost.c:85-89 | each part lies in the grant, aligned as guest and as user address, without wrap |
| `Rings.AcceptsConforming` | service/vhost.c:116-143 | acceptance, said of the single ring fields: every descriptor, flag, index, entry and event word of every queue in the grant, aligned, and no byte in two of them; and conversely |
| `Notification.EventfdsValid` | include/hyper_io.h:99-115 | the loop accepts exactly: required queues paired, optional ones paired or absent, the rest absent |
| `Notification.Bridge.Bind` | modules/io-bridge/hyper_io_bridge.c:236-298 | success binds every queue and enables the interrupt once; any failure leaves references, wait entries and interrupt depth as they were |
| `Notification.Bridge.FillSlot` | modules/io-bridge/hyper_io_bridge.c:253-292 | however far one queue gets, what is held is what its slot says |
| `Notification.Bridge.ClearSlot` | modules/io-bridge/hyper_io_bridge.c:105-124 | each reference is dropped once, the wait entry before its context, with the handler excluded |
| `Notification.Bridge.Unbind` | modules/io-bridge/hyper_io_bridge.c:95-127 | nothing is held afterwards and the interrupt is masked exactly once |
| `Notification.Bridge.Interrupt` | modules/io-bridge/hyper_io_bridge.c:312-319 | the handler signals exactly the pending queues whose kick context is held |
| `Backend.AdmitKeepsLedger` | modules/io-bridge/hyper_io_bridge.c:161-168 | admitting a fresh token keeps the ledger, with that token outstanding |
| `Backend.RetireKeepsLedger` | modules/io-bridge/hyper_io_bridge.c:211-231 | a safe retirement of the outstanding token keeps the ledger, with none outstanding |
| `Backend.Backend.IdleMeansNothingLeft` | service/hyper-io-service.c:107-112 | idle means nothing open, mapped or held, and the admitted tokens are the retired ones |
| `Backend.Backend.NothingLeftMeansIdle` | service/hyper-io-service.c:107-112 | and the converse: with nothing left and no token outstanding the service is idle |
| `Backend.Backend.EndpointClose` | service/vhost.c:42-62 | closed and unbound with no eventfd left, or only the binding and its eventfds remain |
| `Backend.Backend.QuiesceDisk` | service/vhost.c:63-73 | drained and closed, or non-idle; it logs exactly the calls that were unfinished, and leaves the network alone |
| `Backend.Backend.QuiesceNetwork` | service/network.c:15-35 | the same for the network, with the TAP closed last and logged; the disk is untouched |
| `Backend.Backend.QuiesceAll` | service/vhost.c:74-81 | both drains are in the call log whatever the first answers, each from where it stood, and success means both are closed |
| `Backend.BothDrainsTried` | service/vhost.c:74-81 | every open endpoint has a call in the log of a release, whatever the other answers |
| `Backend.IssuedIsUnfinished` | service/memory.c:14-38 | a release issues only calls whose work is unfinished, and the answer says whether it is then |
| `Backend.FinishedByCall` | service/memory.c:14-38 | and what it finishes it finishes by a successful call in the log |
| `Backend.RetriesRepeatNothing` | service/memory.c:14-38 | over any number of retries no call that succeeded is issued again |
| `Backend.ReleaseInOrder` | service/memory.c:14-38 | both drains, unmap, RELEASE, close and proof are issued in this order, each at most once |
| `Backend.Backend.IoctlQuiescent` | modules/io-bridge/hyper_io_bridge.c:211-231 | one write to the register, refused while bound |
| `Backend.Backend.RetireMapping` | service/memory.c:18-28 | unmapped, granules returned and file closed in that order; a failure keeps the file |
| `Backend.Backend.ProveQuiescence` | service/memory.c:29-35 | the token is written once, with nothing in use, and forgotten only on success |
| `Backend.Backend.RetireGrant` | service/memory.c:18-35 | unmap, RELEASE, close and proof, each only after the one before, with its exact log |
| `Backend.Backend.ReleaseMemory` | service/memory.c:14-38 | OK leaves the backend idle and the token retired; a failed drain keeps mapping, file and token; the log is exactly the unfinished calls as far as it got |
| `Backend.Backend.IoctlAdmit` | modules/io-bridge/hyper_io_bridge.c:146-186 | a fresh token is admitted, or nothing changes, or it is admitted and retired at once |
| `Backend.Backend.AdmitGrant` | service/memory.c:57-88 | the page table of an admitted token is the flattening of its extents, or the token is left to release |
| `Backend.Backend.OpenAndMap` | service/memory.c:91-121 | mapped with the request's base, length and pages, or not mapped |
| `Backend.Backend.PrepareMemory` | service/memory.c:39-126 | each status with the state it leaves: BUSY and INVALID keep the service's state, BACKEND_FAILURE is idle, QUIESCENCE_FAILED keeps the token |
| `Backend.Backend.RequestOkIff` | service/memory.c:53-64 | which requests are taken up, in numbers: whole pages below 2^64, the bounds of block owner and grant |
| `Backend.Backend.RollBack` | service/memory.c:122-125 | a failed preparation ends idle, or keeps the token |
| `Backend.Backend.SetUp` | service/vhost.c:144-206 | all queues in use have eventfds and the endpoint is bound, or it is not bound |
| `Backend.Backend.ConfigureVhost` | service/vhost.c:92-207 | BUSY and INVALID exactly under their conditions and without effect; OK binds exactly the queues in use |
| `Backend.Backend.ActivateDisk` | service/vhost.c:208-236 | BUSY and INVALID exactly under their conditions and without effect; otherwise attached to exactly the requested queues, closed, or reported as not quiescent |
| `Backend.Backend.AttachDisk` | service/vhost.c:229-235 | attached, or closed, or reported as not quiescent |
| `Backend.Backend.AttachQueues` | service/network.c:153-162 | one attached queue already counts as attached |
| `Backend.Backend.ActivateNetwork` | service/network.c:130-166 | BUSY and INVALID exactly under their conditions and without effect; otherwise attached with its TAP, closed without TAP, or reported as not quiescent |
| `Backend.Backend.AttachNetwork` | service/network.c:151-165 | attached with its TAP, or closed without, or reported as not quiescent |
| `Backend.Backend.NetworkFeaturesIff` | service/network.c:136-138 | which feature bits are accepted |
| `Driver.SafeMeansReturned` | modules/guest-memory/memory.c:217-239 | when the backend proves quiescence the device has no file, VMA or page table and no reference on the shared granules |
| `Driver.OpenFile` | modules/guest-memory/memory.c:77-98 | open changes the backend's facts as the backend assumes |
| `Driver.Prepare` | modules/guest-memory/memory.c:165-216 | so does PREPARE: granules held exactly on success, for exactly the page table of the request |
| `Driver.Map` | modules/guest-memory/memory.c:126-163 | so does mmap |
| `Driver.Unmap` | modules/guest-memory/memory.c:118-122 | so does the close of the last VMA |
| `Driver.Release` | modules/guest-memory/memory.c:229-231 | so does RELEASE: refused while mapped, otherwise the shared references are those of others |
| `Driver.CloseFile` | modules/guest-memory/memory.c:100-111 | so does the last close |
| `Driver.Retire` | service/memory.c:18-28 | unmap, RELEASE and close on the driver: the shared references are as before the grant |
| `Session.RejectionChangesNothing` | service/hyper-io-service.c:250-262 | a rejected record leaves session and cache as they were |
| `Session.RepeatIsReplayedInRun` | service/hyper-io-service.c:246-268 | in every run a repeat of the last executed message, after any records that were not executed, gets the identical reply and changes nothing |
| `Session.OnlyRepeatsAreReplayed` | service/hyper-io-service.c:246-249 | and whatever is replayed is such a repeat |
| `Session.CacheIsLast` | service/hyper-io-service.c:262-268 | the cached reply is that of the last executed turn |
| `Session.ExecutedIff` | service/hyper-io-service.c:236-268 | in every run a record is executed if and only if it is a HELLO that opens a newer binding from an idle backend, or continues the current binding with a larger transaction and no older epoch |
| `Session.EpochsOfRun` | service/hyper-io-service.c:262-263 | the epoch of a device is the largest executed for it in the current binding |
| `Session.RetiredIff` | service/hyper-io-service.c:119-124 | in every run the session is retired exactly when a release of its binding has succeeded |
| `Session.AnswerOf` | service/hyper-io-service.c:250-261 | an executed record is answered with the backend's status, or INVALID after a release, in a record of the right length |
| `Session.StepAdvances` | service/hyper-io-service.c:236-270 | only an executed record moves (binding, transaction), and only upward |
| `Session.RunAppend` | service/hyper-io-service.c:202-281 | one more turn extends the run by one state |
| `Session.RunKeepsCache` | service/hyper-io-service.c:242-268 | the cache always holds the last executed message of this binding |
| `Session.ExecutedPairsIncrease` | service/hyper-io-service.c:236-270 | executed (binding, transaction) pairs increase strictly over the whole run |
| `Session.PairNeverDecreases` | service/hyper-io-service.c:236-270 | (binding, last transaction) never goes back |
| `Session.EpochsNeverDecrease` | include/hyper_io_session.h:12-30 | a device's epoch never decreases within a binding |
| `Session.OtherEpochStays` | service/hyper-io-service.c:262-263 | a record for one device leaves the other's epoch |
| `Session.NewBindingNeedsIdle` | include/hyper_io_session.h:18-27 | a new binding has a larger generation, comes by HELLO, and from an idle backend when managed |
| `Session.RetiredSessionOnlyReleases` | service/hyper-io-service.c:113-128 | after a successful release only RELEASE is answered OK until a new binding |
| `Session.RetiredUntilNewBinding` | include/hyper_io_session.h:31-38 | a retired session stays retired within its binding |
| `Conversation.HistoryGrows` | service/hyper-io-service.c:202-281 | a turn that keeps its promise extends a conversation that keeps it |
| `Conversation.BooksGrow` | service/hyper-io-service.c:202-281 | admissions and retirements are only ever added |
| `Conversation.SwitchFindsNothing` | service/hyper-io-service.c:236-245 | between turns of two bindings lies one that starts with nothing mapped, open or unretired |
| `Conversation.EarlierTokensAreRetired` | service/hyper-io-service.c:236-258 | every token admitted under one binding is retired before a later binding begins |
| `Conversation.RetiredOnce` | service/memory.c:29-35 | a retired token is never admitted or retired again in the conversation |
| `Conversation.OnlyActivationOpens` | service/hyper-io-service.c:158-196 | no turn but an executed activation of its own device opens an endpoint |
| `Conversation.ClosedUntilActivated` | service/hyper-io-service.c:172-196 | a closed endpoint stays closed through the conversation until its next activation |
| `Conversation.TouchesItsDevice` | service/hyper-io-service.c:222-227 | the device whose epoch a request carries is the one whose endpoint it may change |
| `Service.Service.AdmitRecord` | include/hyper_io_session.h:12-30 | the session and the verdict are those of the protocol function |
| `Service.Service.Perform` | service/hyper-io-service.c:127-200 | a request touches only its own device or the memory, refusals are exact, and each status says what was done, call by call for drains |
| `Service.Service.Drain` | service/hyper-io-service.c:172-196 | exactly the unfinished calls of the drain are issued; OK exactly when the device is closed then, else QUIESCENCE_FAILED; the other device and the memory stay |
| `Service.Service.Prepare` | service/hyper-io-service.c:151-157 | BUSY exactly when something is prepared, INVALID for what cannot be taken up or admitted; OK means mapped, with the token admitted last, outstanding and backed by a tiling; failures leave nothing or keep the token |
| `Service.Service.Activate` | service/hyper-io-service.c:158-164 | BUSY and INVALID exactly under their conditions; OK means the disk serves exactly the requested queues; a failure leaves it closed or says it is not |
| `Service.Service.ActivateNet` | service/hyper-io-service.c:165-171 | the same for the network and its TAP |
| `Service.Service.ReleaseRecord` | service/hyper-io-service.c:119-124 | exactly the unfinished calls are issued as far as it gets; OK leaves nothing; a failure keeps the token and, with an endpoint open, the mapping |
| `Service.Service.DispatchRecord` | service/hyper-io-service.c:113-201 | every status of every request means what it says of the Linux state; a session that may not prepare gets INVALID and no effect |
| `Service.Service.Handle` | service/hyper-io-service.c:202-281 | one turn is one protocol step; an executed record has the effect its reply says, any other none |
| `Service.Service.Turn` | service/hyper-io-service.c:202-281 | the effect of each reply, only on the request's own device; a release answered OK, replayed or not, means every admitted token is retired; a new binding starts from nothing left |
| `Service.Service.Serve` | service/hyper-io-service.c:202-281 | any sequence of records is a protocol run whose every turn keeps the host's books and has the effect its reply says, with endpoints open only while memory is mapped |
| `Service.Service.Conclude` | service/hyper-io-service.c:379-386 | the process exits only with nothing left |
| `Mailbox.StepKeepsInv` | modules/io-bridge/hyper_io_bridge.c:303-383 | every step of waiter, handler, device and removal keeps the wait invariant |
| `Mailbox.ExecKeepsInv` | modules/io-bridge/hyper_io_bridge.c:303-383 | so does every interleaving |
| `Mailbox.NoAccessAfterRemoval` | modules/io-bridge/hyper_io_bridge.c:561-580 | the device is not touched after removal let go of it |
| `Mailbox.NoLostWakeup` | include/hyper_io.h:125-132 | a sleeping waiter is armed with nothing to report, or a step that wakes it is pending |
| `Mailbox.StepApproachesReturn` | modules/io-bridge/hyper_io_bridge.c:355-383 | with something to report, every driver step brings the return nearer |
| `Mailbox.SomeStepIsOpen` | modules/io-bridge/hyper_io_bridge.c:355-383 | and some driver step is always open |
| `Mailbox.EveryScheduleReturns` | modules/io-bridge/hyper_io_bridge.c:355-383 | so every schedule of effective steps returns within a bound |
| `Mailbox.CallReturnsWhatItFound` | modules/io-bridge/hyper_io_bridge.c:355-383 | in every run a call returns 0 exactly when it read its flag without CLOSED, EPIPE exactly on CLOSED, ENODEV only when dead, EINTR exactly after a signal |
| `Mailbox.TestsDecide` | modules/io-bridge/hyper_io_bridge.c:361-367 | and what each test finds does end the call |
| `Mailbox.SignalledBySignal` | modules/io-bridge/hyper_io_bridge.c:373-381 | an interrupted waiter was hit by a signal in its sleep |
| `Mailbox.TestedAlive` | modules/io-bridge/hyper_io_bridge.c:361-363 | a status is read only after the bridge was found alive |
| `Mailbox.ReadyMayBeDying` | modules/io-bridge/hyper_io_bridge.c:361-367 | though it may die between the two |
| `Mailbox.DelayedHandlerForcesRearm` | modules/io-bridge/hyper_io_bridge.c:368-378 | a late handler that masks a new arm makes the waiter arm again |
| `Policy.ConflictIffShared` | include/hyper_block_policy.h:26-33 | on valid ranges the test is exactly: a common sector and a writer |
| `Policy.MeetIffShared` | include/hyper_block_policy.h:31-33 | each starting before the other ends is the same as a common sector |
| `Policy.ExactIffNoWrap` | include/hyper_block_policy.h:26-33 | the test is exact against all ranges that do not wrap if and only if the tested range does not wrap |
| `Policy.EndFits` | include/hyper_block_policy.h:15-25 | a valid range ends inside the disk and does not wrap |
| `Policy.RangeValidIff` | include/hyper_block_policy.h:15-25 | a range is valid exactly when it is a nonempty run of sectors that ends inside a disk of sound geometry, writable only if the disk is |
| `Policy.ReadValidIff` | include/hyper_block_policy.h:34-44 | a valid read is a run of whole sectors inside disk and mapping |
| `Policy.TableIsExact` | service/block-target.c:48-53 | the change to 512-byte units overflows nowhere and exposes exactly the range's bytes, inside the disk |
| `Targets.Build` | service/block-target.c:87-127 | the link comes only after every stage; a failure says how far it got |
| `Targets.Undo` | service/block-target.c:128-145 | rollback takes away only what this call made, and all of it if its steps succeed |
| `Targets.TargetCreate` | service/block-target.c:87-145 | published exactly on success; failure keeps what was there, and after a clean rollback nothing else |
| `Targets.MapperCreate` | service/block-target.c:34-71 | an active device with the given table, or no device node; an existing device is left alone |
| `Targets.Publish` | service/block-target.c:158-188 | success means all objects with exactly this table; failure never publishes |
| `Blocks.ScanGrows` | service/block.c:37-112 | however discovery ends, known disks keep their places and device numbers stay distinct |
| `Blocks.ScanFinds` | service/block.c:81-106 | a discovery that succeeds has a place for every disk it saw |
| `Blocks.ScanSucceedsIff` | service/block.c:37-112 | discovery succeeds exactly when every device can be inspected, is sound, contradicts neither the table nor another, and there are at most 128 |
| `Blocks.WalkVisitsEachOnce` | service/block.c:205-233 | following the cursor from zero names each disk once, in order, and ends |
| `Blocks.PublishedBytesAreExclusive` | service/block.c:181-187 | two published targets share a byte of a device only if both are read-only |
| `Blocks.PublishedBytesAreOnDisk` | service/block.c:171-187 | a published target exposes only bytes of a known disk, writable only if the disk is |
| `Blocks.GrowingKeepsState` | service/block.c:101-106 | a growing table keeps every binding valid and every target exact |
| `Blocks.FailingKeepsState` | service/block.c:184-185 | a failed publication with leftovers keeps the state |
| `Blocks.BindingKeepsState` | service/block.c:181-187 | recording a published, unconflicting range keeps the state |
| `Blocks.BlockOwner.Discover` | service/block.c:37-112 | the loops compute the scan, and the table only grows |
| `Blocks.BlockOwner.Enumerate` | service/block.c:205-233 | each status under its condition; only cursor zero may extend the table |
| `Blocks.BlockOwner.BindRange` | service/block.c:156-188 | INVALID and BUSY exactly under their conditions; a binding never changes once set, and is published exactly when recorded |
| `Blocks.BlockOwner.Taken` | service/block.c:181-183 | the search finds a conflict if and only if there is one |
| `Blocks.BlockOwner.PublishRange` | service/block.c:184-187 | publish first, then record; other clients are untouched |
| `Blocks.BlockOwner.Read` | service/block.c:234-266 | the destination gets exactly the disk's bytes, a failure only a prefix of them, nothing else is written |
| `Blocks.BlockOwner.Copy` | service/block.c:255-264 | short reads continue and interrupted ones repeat until the length is reached |
| `Newc.ParseNewc` | scripts/assemble-io-vm.py:57-100 | the loop computes the recursive parser, errors included |
| `Newc.ParsedIsWellFormed` | scripts/assemble-io-vm.py:57-110 | whatever the parser returns is well formed |
| `Newc.CanonicalIff` | scripts/assemble-io-vm.py:35-44 | canonical names are components, none empty, "." or "..", joined by slashes |
| `Newc.AddsIff` | scripts/assemble-io-vm.py:87-99 | which members the parser adds, by type, links and payload |
| `Newc.ReadsMemberIff` | scripts/assemble-io-vm.py:61-81 | which headers the parser reads |
| `Newc.EndsIff` | scripts/assemble-io-vm.py:82-86 | where it ends well |
| `Newc.SortNames` | scripts/assemble-io-vm.py:142 | all names, by depth and then by name |
| `Newc.OrderingIsUnique` | scripts/assemble-io-vm.py:142 | there is only one such order |
| `Newc.AppendMember` | scripts/assemble-io-vm.py:144-158 | the member's record is appended exactly when fields and budget allow |
| `Newc.AppendsRecord` | scripts/assemble-io-vm.py:151-158 | the predicted size is the size of what is appended |
| `Newc.EncodeNewc` | scripts/assemble-io-vm.py:139-159 | success exactly for a closed tree whose fields and total size fit; the result is the archive |
| `Newc.HexRoundTrip` | scripts/assemble-io-vm.py:154 | hexadecimal digits read back as the number |
| `Newc.FieldsRoundTrip` | scripts/assemble-io-vm.py:65 | so does a header's list of fields |
| `Newc.MemberRoundTrip` | scripts/assemble-io-vm.py:61-81 | a record anywhere in an archive reads back as its member |
| `Newc.RoundTrip` | scripts/assemble-io-vm.py:57-159 | parsing the archive of a well-formed map gives back the map |
| `Newc.ReadsBackIff` | scripts/assemble-io-vm.py:57-159 | an archive reads back exactly when the map was well formed |
| `Newc.TrailerNameIsLost` | scripts/assemble-io-vm.py:82-86 | a member with the trailer's name never reads back |
| `Newc.AncestorsFirst` | scripts/assemble-io-vm.py:142 | every member comes after all its ancestor directories |
| `Newc.LexLessIff` | scripts/assemble-io-vm.py:142 | names of one depth are in dictionary order |
| `Newc.DepthIsComponents` | scripts/assemble-io-vm.py:142 | depth counts the slashes |
| `Newc.HeaderLayout` | scripts/assemble-io-vm.py:147-154 | magic and the thirteen header fields of a record, each in its place |
| `Newc.HexDigitAt` | scripts/assemble-io-vm.py:154 | the most significant digit first |
| `Newc.Overlay` | scripts/assemble-io-vm.py:196-201 | the merge, refused exactly when a path changes between directory and other |
| `Newc.MergeKeepsTree` | scripts/assemble-io-vm.py:103-110 | a merge of closed trees is closed |
| `Newc.MergeIsWellFormedIff` | scripts/assemble-io-vm.py:97-98 | a merge is well formed exactly when its size and the overlay's entries are |
| `Newc.AssembleArchive` | scripts/assemble-io-vm.py:194-207 | each error under its condition, exactly when there is no archive; the limit kept, and the exact condition for reading back |
| `Newc.Assembled` | scripts/assemble-io-vm.py:196-207 | with a launcher, narrow fields and room, an archive is made, and reads back exactly when the merge is readable |
| `Newc.TrailerIsAssembledAndLost` | scripts/assemble-io-vm.py:82-86 | an overlay with a file named like the trailer is assembled and does not read back |
| `Newc.CrowdIsAssembledAndLost` | scripts/assemble-io-vm.py:97-98 | so is a merge of 16385 members from a base of 16384 |

## Left out

- Linux itself: `memunmap_pages`, RCU, eventfd, vhost, device mapper and LIO appear only as outcomes and as contracts (an exclusive region claim, a drain that is complete when it succeeds).
- Physical DMA, caches and stage-2 translation.
- The kernel and guest-agent patches, the build, fetch and publish tools, gzip and hashing.
- Client and network configuration files, the supervisor, argument parsing and shell scripts: shallow checks that would only add easy members.
- The granule registry and the mailbox driver are step systems on values, so that steps can interleave; the updates in place inside one step are not modelled as such.
- The memory driver sees the registry as one table of references (`GuestMemory.GranuleTable`); that concurrent callers cannot disturb it is the subject of `Granules`. The backend sees the memory driver as four facts of `Linux`; `Driver` shows its calls change them as assumed, but the backend does not hold the device object.
- `Mailbox` counts interrupt generations without bound; the 64-bit counter's wrap-around is not modelled. The data registers of the mailbox are left out.
- Several services of one host: the ledger is that of one route, and the host admits a token at most once.
- The standalone startup of the service, which maps a fixed region before its first request; the model starts managed or on standby.
- Control records are typed values (`Session.Message`); magic, version, length, flags and byte order are taken as checked. The payload of a reply beyond status and length is left out, except for enumeration.
- `Service.Service.Perform` gives block requests any status; what they do is in `Blocks`, whose state is no part of the backend's.
- A service loop that a signal or a closed control device ends early: it stops between two turns of `Service.Service.Serve`, or after a turn whose reply is lost.
- The vring ioctls take the addresses of `Rings.Place`, but vhost's registers are no part of the model.
- TAP offloads, diagnostics, names of operations and the INFO ioctl.
- A second life of the block owner: its process ends only with the appliance, so published targets never meet an empty binding table.
- `Blocks.BlockOwner.Read` takes the disk's content as fixed during one request, and a pread after the given outcomes as failing.
- Names in archives are bytes: UTF-8 decoding is left out, and header fields are eight hexadecimal digits, without the other spellings Python's `int` accepts.
- Distinct aliases: the code checks coverage of frontend offsets only, so the page table is not claimed to be injective.
