# Wari: models and proofs of the kernel's core and its protocol edges

Wari is a small capability kernel that runs WebAssembly tenants and drivers. This project models the
parts of it whose correctness spans many functions, and proves what their documentation and tests
promise, for every input, state and interleaving:

- **Sv39 mapping** (`Words`, `Bitmaps`, `PageAllocator`, `PageTable`, `TableTree`, `KernelMap`, `KernelVm`):
  the bitmap allocator, the page-table walk, and the mapper that grows a three-level tree in flat memory.
- **Capabilities** (`CapTypes`, `CapState`, `CapGenerations`, `CapRuns`, `CapRefcounts`, `CapChains`, `CapEffects`, `CapSaturation`, `CapKernel`,
  `RingDrain`, `RingDispatch`): derivation, anti-reuse generations, transitive revocation, refcounts, registered handles, the submission ring.
- **IPC** (`Pools`, `IpcState`, `IpcInvariants`, `IpcRuns`, `IpcEffects`, `IpcKernel`): send, call, receive and reply over bounded queues.
- **HTTP** (`Text`, `Output`, `Http`, `HttpRestart`, `HttpPrint`, `HttpErrors`, `HttpParser`, `HttpRespond`, `HttpFraming`), sections 3 and 3.3.3 of RFC 7230.
- **JSON-RPC** (`Json`, `JsonPrint`, `JsonConform`, `JsonObjects`, `JsonParser`), RFC 8259 and JSON-RPC 2.0.
- **Driver manifests** (`Bytes`, `Leb128`, `WasmSections`, `Manifest`, `ManifestViews`, `ManifestBuilder`), sections 5.2.2, 5.5.2 and 5.5.3
  of the WebAssembly Core Specification.
- **VirtIO receive ring** (`RxModel`, `RxRings`), section 2.7 of VirtIO 1.2.
- **Audit stream** (`AuditLog`, `AuditRing`).
- `Wrappers`, `KernelAbi` and `Sequences` are shared.

Code that changes state is a class or a method with loops, and each such method is proved equal to a
function of its inputs or of the state before the call. Properties of runs are lemmas about those functions.

## How the model reads the code

- A word of 64 bits is a natural number below 2^64. Fields are read by division and remainder, and an OR of
  disjoint fields is their sum. Table memory is a function from addresses to words.
- Text bytes are characters, and a byte string is a `string`. Every theorem over text is for all strings.
- The HTTP, JSON and section walkers are stated on what is left of the input; the methods beside them move an
  index as the code does, and are proved equal to them.
- What a call does is stated twice: as a function, which the method beside it is proved equal to, and by lemmas about
  that function in terms of the fields before and after, or of the bytes read (`IpcEffects`, `CapEffects`, `BootMapMeans`,
  `HttpPrint`, `RequestIff`).
- I/O outcomes are parameters: whether a guest memory access succeeds, what the capability check of an IPC call
  answers, what the host's DMA, notification and socket-driver calls answer, what a drained operation returns.
- `usize` is 32 bits where the HTTP server runs. A declared length that overflows it and one above the body cap are
  refused alike, so the parser does not depend on the width.

Where code and documentation differ the model follows the code:

- The page-number mask of an entry and of `satp` keeps 56 bits, where the comments speak of 44:
  `ReservedBitsClearIff` and `SatpNamesRootIff` say exactly when that is harmless.
- `map_range` is the identity exactly for ranges that end by 2^39 (`IdentityIffBelowLimit`).
- The CSpace documentation asks mint to refuse a slot whose generation has saturated; neither mint, copy nor socket
  creation does. A fill is safe exactly when the generation had not saturated (`FillIsSafeIff`). `BootRunAdopts` is a run
  from boot in which the first hello tenant hangs its endpoint cap below its network cap. `ClearLeavesLinkIff` and
  `CloseRevivesLinkIff` say when an emptied slot still has, or gets back, a live child.
- Derivation promises the same object and no new right. Socket creation breaks that, and of all calls it alone does
  (`CallKeepsLinksIff`); `BootRunWidens` is a run from boot to a readable socket below a write-only network cap.
  Along any live chain the only change of object is from a network interface to a socket (`ChainKeepsObject`).
- A receive that takes a sender and cannot write its buffer leaves that sender blocked on no queue, for good
  (`StepKeepsBlockedIff`, `StrandedStays`), and its message is the only kind that is lost (`NothingIsLostIff`).
- The submission ring checks no layout. Every entry reached is answered as submitted exactly when the completions start at
  most 24 bytes past the entries, or beyond the last entry reached (`FaithfulIff`).
- HTTP errors are documented as final. They are, except for an acceptable line of exactly the cap that was cut after its
  CR (`ErrorIsFinalIff`, `CutAtCapExists`).
- The JSON skipper accepts more than RFC 8259: any value as a key, a comma before a closing bracket, any run of bytes as
  a scalar, any escape. `SkipIff` gives its language exactly, and `ConformsIff` says which of its texts conform.
- The least `i64` prints but does not parse back (`I64RoundTrip`).
- A response's content type is written unchecked, so its headers delimit its body for exactly the content types of
  `ResponseDelimitsBody`.
- A manifest with 65536 or more entries is built with a truncated count (`PayloadRoundTripIff`).

## Model

| member | source | states |
|---|---|---|
| PageAllocator.BitmapAllocator.constructor | wari-mem/src/page_alloc.rs:98-115 | a new allocator has no page in use |
| PageAllocator.BitmapAllocator.Alloc | wari-mem/src/page_alloc.rs:118-139 | takes the least free page and changes nothing else; fails exactly when all pages are taken |
| PageAllocator.BitmapAllocator.Free | wari-mem/src/page_alloc.rs:142-165 | frees exactly the named page; unaligned, foreign and free addresses are refused unchanged |
| PageAllocator.BitmapAllocator.PageOf | wari-mem/src/page_alloc.rs:142-155 | exactly which addresses are refused as unaligned or out of range; otherwise the page at that address |
| PageAllocator.BitmapAllocator.MarkAllocated | wari-mem/src/page_alloc.rs:208-230 | reserves exactly the named page; unaligned, foreign and used addresses are refused unchanged |
| PageAllocator.BitmapAllocator.IsAllocated | wari-mem/src/page_alloc.rs:168-179 | true exactly for addresses of pages in use |
| PageAllocator.BitmapAllocator.AllocatedCount | wari-mem/src/page_alloc.rs:188-194 | the popcount sum is the number of pages in use |
| PageAllocator.BitmapAllocator.FreeCount | wari-mem/src/page_alloc.rs:182-185 | allocated plus free is the pool |
| PageTable.EntryRoundTrip | wari-mem/src/page_table.rs:195-237 | a leaf or branch entry gives back its page and flags, and fits 64 bits |
| PageTable.ReservedBitsClearIff | wari-mem/src/page_table.rs:195-201 | the reserved bits of an entry stay clear exactly for pages below 2^56 |
| PageTable.SatpNamesRootIff | wari-mem/src/page_table.rs:299-304 | satp reads Sv39, names the root exactly when it lies below 2^56, and the identifier exactly when the spilt page-number bits are its own |
| PageTable.VaRoundTrip | wari-mem/src/page_table.rs:277-292 | splitting and joining an address gives back its 39 bits |
| PageTable.SamePageIff | wari-mem/src/page_table.rs:277-284 | two addresses share a page exactly when they share all three indices |
| PageTable.Walk | wari-mem/src/page_table.rs:330-356 | the loop computes the recursive translation |
| PageTable.TranslateIff | wari-mem/src/page_table.rs:330-356 | an address resolves exactly through two branches and a leaf, each in the table the one before points at, to the leaf's page and its own offset |
| PageTable.EntryKinds | wari-mem/src/page_table.rs:203-237 | by its bits, an entry is a branch exactly when valid and neither readable, writable nor executable, and a leaf exactly when valid and one of them |
| PageTable.EntriesTile | wari-mem/src/page_table.rs:330-356 | a table's 512 entries are eight bytes each and fill its page |
| TableTree.LeafTablesDistinct | kernel/src/mem/kvm.rs:239-262 | separation: two descents that meet in one leaf table came by the same indices |
| TableTree.GrowKeepsTree | kernel/src/mem/kvm.rs:249-262 | hanging an empty table at an empty entry keeps the tree of distinct tables |
| TableTree.GrowKeepsResolve | kernel/src/mem/kvm.rs:249-262 | and changes no resolution |
| TableTree.LeafWriteChangesOnePath | kernel/src/mem/kvm.rs:239-246 | one leaf write changes exactly one path's resolution |
| TableTree.WalkIsResolve | wari-mem/src/page_table.rs:330-356 | in a tree, the walk over memory is the resolution of the address's path |
| KernelMap.CoverBelowLimit | kernel/src/mem/kvm.rs:226-236 | below 2^39 an aligned range covers exactly its own pages |
| KernelMap.IdentityIffBelowLimit | kernel/src/mem/kvm.rs:226-236 | a nonempty range is faithful exactly when it ends by 2^39 |
| KernelMap.KernelFlags | wari-mem/src/page_table.rs:103-125 | the three kernel permission sets are leaf flags, never writable and executable |
| KernelMap.KernelRangesIdentity | kernel/src/mem/kvm.rs:147-187 | under kernel ranges an address resolves iff some range touches its page, to itself, with the last such range's flags, never W and X |
| KernelVm.Mapper.AllocZeroedPage | kernel/src/mem/kvm.rs:291-305 | a fresh zeroed page outside every allocated one; fails exactly on an empty pool |
| KernelVm.Mapper.WalkOrCreate | kernel/src/mem/kvm.rs:249-266 | finds or hangs a child table without changing any resolution; the malformed branch is unreachable |
| KernelVm.Mapper.MapPage | kernel/src/mem/kvm.rs:239-246 | retranslates exactly one page to the given page and flags; fails exactly when the pool lacks the missing tables, and then changes no translation |
| KernelVm.Mapper.MapRange | kernel/src/mem/kvm.rs:226-236 | overlays the identity on exactly the range's pages; a failure leaves a leading part mapped |
| KernelVm.Mapper.MapRanges | kernel/src/mem/kvm.rs:147-187 | from an empty root, translation is that of the last covering range; the only failure is out of pages |
| KernelVm.Init | kernel/src/mem/kvm.rs:90-187 | refuses exactly an empty or unaligned heap as invalid; a completed map translates every address region by region, and satp reads Sv39 and names its root and address space 0 for every heap that ends by 2^56 |
| KernelVm.BootMapIsIdentity | kernel/src/mem/kvm.rs:147-187 | the kernel's map is the identity on the touched pages, with the last range's flags, never W and X |
| KernelVm.BootMapMeans | kernel/src/mem/kvm.rs:126-183 | state and devices are readable and writable, what is left of read-only data only readable, what is left of the text readable and executable, each at its own address; nothing else resolves |
| CapTypes.PackRoundTrip | wari-cap/src/types.rs:141-171 | packing an identifier loses nothing, and meets the root sentinel in one case no process can reach |
| CapTypes.DeriveNarrows | wari-cap/src/types.rs:274-304 | which refusal is given exactly when; otherwise the same object with exactly the rights asked for, none of them new, and the badge exactly on an endpoint |
| CapTypes.DeriveTwice | wari-cap/src/types.rs:274-304 | deriving in two steps reaches nothing that one step could not |
| CapEffects.MintEffects | kernel/src/cap/syscall.rs:219-285 | refused exactly when; otherwise one slot is filled with a child of the source, field by field, and its object gains a reference |
| CapEffects.CopyEffects | kernel/src/cap/syscall.rs:290-320 | refused exactly when; otherwise one slot is filled with all the source has, its parent link included |
| CapEffects.DeleteEffects | kernel/src/cap/syscall.rs:369-393 | refused exactly when; otherwise one slot is emptied at its next generation and its object loses a reference |
| CapEffects.RevokeEffects | kernel/src/cap/syscall.rs:330-358 | asks for the write right; exactly the cap and all derived from it are emptied |
| CapEffects.SocketCreateEffects | kernel/src/cap/syscall.rs:960-1068 | the order of refusals; otherwise a readable and writable socket over the least free object, below the network cap |
| CapEffects.SocketCloseEffects | kernel/src/cap/syscall.rs:1076-1125 | refused exactly when; otherwise one socket slot is emptied, its generation wrapping |
| CapEffects.RunKeepsForest | wari-cap/src/revoke.rs:272-286 | over every sound run no cap descends from itself |
| CapEffects.CopyOutlivesSource | kernel/src/cap/syscall.rs:290-320 | revoking a copy's source leaves the copy in place |
| CapEffects.CopySharesAncestors | kernel/src/cap/syscall.rs:290-320 | any other cap's revocation sweeps the copy exactly when it sweeps the source |
| CapEffects.MintGoesWithSource | kernel/src/cap/syscall.rs:219-285 | revoking a minted cap's source empties it |
| CapGenerations.RevokeSlots | wari-cap/src/revoke.rs:113-132 | revocation empties exactly the cascade, bumps exactly those generations, leaves every other slot alone |
| CapGenerations.NextWellFormed | kernel/src/cap/syscall.rs:219-393 | every call keeps sizes, 16-bit generations and parents that name real slots |
| CapGenerations.CallSteps | kernel/src/cap/syscall.rs:219-393 | every call leaves each slot alone, empties it at a new generation, or fills an empty one with a justified link |
| CapGenerations.CallKeepsGenerations | wari-cap/src/cspace.rs:144-161 | links never come from the future and live links lead to a cap they derive from, across every call that respects saturation |
| CapRuns.GenerationsNeverFall | wari-cap/src/cspace.rs:144-161 | over every sound run, generations only grow |
| CapRuns.NoResurrection | wari-cap/src/revoke.rs:272-286 | a slot shows its old generation exactly when its occupant never left |
| CapRuns.LiveLinkMeansSameParent | wari-cap/src/revoke.rs:272-286 | a live parent link leads to the very cap that was derived from |
| CapSaturation.FillIsSafeIff | wari-cap/src/cspace.rs:144-161 | after a fill, slot and generation name one occupancy in every later run exactly when the generation had not saturated |
| CapSaturation.ClearLeavesLinkIff | wari-cap/src/revoke.rs:298-315 | an emptied slot keeps a live child exactly at the saturated generation |
| CapSaturation.CloseRevivesLinkIff | kernel/src/cap/syscall.rs:1108-1116 | a closed socket's slot gets a live child exactly when its generation wraps to the zero the child recorded |
| CapSaturation.Churn | kernel/src/cap/syscall.rs:219-393 | n pairs of mint and delete raise a slot's generation by n and change nothing else |
| CapSaturation.BootRunAdopts | kernel/src/cap/syscall.rs:219-320 | a run from boot ends with a tenant's endpoint cap live below, and swept with, its network cap |
| CapRuns.ChainKeepsObject | wari-cap/src/types.rs:274-304 | along a live chain the object is constant and rights only shrink, or it leads from a socket with at most read and write to a network interface |
| CapChains.SocketBreaksLink | kernel/src/cap/syscall.rs:1036-1067 | a created socket hangs live below its interface as another object, with a new right exactly when the interface cap lacks read |
| CapChains.CallKeepsLinksIff | kernel/src/cap/syscall.rs:219-1125 | a successful call keeps every live link on one object with no new right exactly when it does not create a socket |
| CapChains.RunKeepsLinks | kernel/src/cap/syscall.rs:219-393 | over every sound run without socket creation |
| CapChains.BootRunWidens | kernel/src/cap/syscall.rs:960-1068 | a run from boot ends with a readable socket live below a network cap that may not be read |
| CapRuns.DispatchIffStillHeld | kernel/src/cap/ring_drain.rs:166-194 | a registered handle is accepted exactly when its cap never left, the operation is 1 or 2, and the cap is a notification; not permitted exactly when it is another kind; invalid otherwise |
| CapRuns.DispatchNeedsEntry | kernel/src/cap/ring_drain.rs:166-194 | a handle past the table or of a free entry is invalid |
| CapRefcounts.CallKeepsExact | wari-cap/src/revoke.rs:143-242 | every call keeps each refcount equal to the number of caps naming the object |
| CapRefcounts.RunKeepsExact | wari-cap/src/revoke.rs:143-242 | over every run |
| CapRefcounts.CapsNameAllocated | wari-cap/src/objects.rs:73-87 | every cap of a pooled kind names an allocated object |
| CapRefcounts.InstallKeepsExact | wari-cap/src/revoke.rs:206-242 | counting an installed cap is exact: 4096 slots cannot saturate 16 bits |
| CapRefcounts.VacateKeepsExact | wari-cap/src/revoke.rs:143-203 | dropping a cleared cap's reference is exact, and frees the object with its last cap |
| CapRefcounts.RevokeLoses | wari-cap/src/revoke.rs:255-315 | revoking any cap takes from its own object the swept caps of its kind, from sockets below a network interface the caps that name them, and nothing else |
| CapRefcounts.RevokeCounts | wari-cap/src/revoke.rs:298-315 | a cascade lowers every object's count by exactly the swept caps that name it, and frees it with its last |
| CapRefcounts.RevokeNetCounts | wari-cap/src/revoke.rs:255-315 | revoking a network cap takes from that interface its swept caps, from each socket the swept caps naming it, and nothing else |
| CapKernel.RevokeSet.Add | wari-cap/src/revoke.rs:78-86 | the bitmap gains exactly the slot's index |
| CapKernel.RevokeSet.Contains | wari-cap/src/revoke.rs:88-91 | reads membership of the slot's index |
| CapKernel.CSpaces.Discover | wari-cap/src/revoke.rs:255-292 | the fixpoint ends, with exactly the cascade marked |
| CapKernel.CSpaces.Clear | wari-cap/src/revoke.rs:298-315 | sweeps the marked slots in order |
| CapKernel.CSpaces.RevokeCap | wari-cap/src/revoke.rs:113-132 | revokes the whole cascade, or refuses exactly an empty or out-of-range slot unchanged |
| CapKernel.CSpaces.IncRef | wari-cap/src/revoke.rs:206-242 | saturating increment of an allocated object only |
| CapKernel.CSpaces.DecRef | wari-cap/src/revoke.rs:143-203 | decrement, and back to the pool at zero |
| CapKernel.CSpaces.CapMint | kernel/src/cap/syscall.rs:219-287 | the mint transition and its answer |
| CapKernel.CSpaces.CapCopy | kernel/src/cap/syscall.rs:290-320 | the copy transition and its answer |
| CapKernel.CSpaces.CapDelete | kernel/src/cap/syscall.rs:369-393 | the delete transition and its answer |
| CapKernel.CSpaces.CapRevoke | kernel/src/cap/syscall.rs:330-351 | the revoke transition and its answer, write right first |
| CapKernel.CSpaces.NetSocketCreate | kernel/src/cap/syscall.rs:960-1068 | the socket-creation transition and its answer, driver errors included; the driver's socket is given back exactly when no object is left |
| CapKernel.CSpaces.NetSocketClose | kernel/src/cap/syscall.rs:1076-1125 | the socket-close transition, and the driver's error handed on after it |
| CapKernel.Boot | kernel/src/cap/boot.rs:148-339 | the boot sequence leaves the boot state |
| CapKernel.BootIsSound | kernel/src/cap/boot.rs:148-339 | exactly the boot caps, no parent links, refcounts equal to the caps naming each object |
| CapEffects.BootHoldings | kernel/src/cap/boot.rs:148-330 | which process holds which cap after boot, slot by slot, and that nobody holds another |
| RingDrain.SqeRoundTrip | abi-shared/src/lib.rs:529-543 | decoding undoes the laid-out submission entry, whatever its padding |
| RingDrain.SqeLayout | abi-shared/src/lib.rs:529-543 | which bytes each field of an entry is read from |
| RingDrain.CqeReads | abi-shared/src/lib.rs:545-553 | a completion gives back the user data and any 64-bit result |
| RingDrain.DrainStops | kernel/src/cap/ring_drain.rs:117-160 | a drain stops at the first entry out of bounds and writes only its completions |
| RingDrain.InBoundsIff | kernel/src/cap/ring_drain.rs:117-160 | entries are 40 bytes apart and completions 16, and both must lie in memory |
| RingDrain.DrainCompletes | kernel/src/cap/ring_drain.rs:117-160 | when no completion reached overlaps a later entry reached, each entry is completed in order from what was originally submitted |
| RingDrain.FaithfulIff | kernel/src/cap/ring_drain.rs:117-160 | in a memory of any given size, every entry reached is answered as submitted, whatever the bytes and the operations, exactly when no completion reached overlaps a later entry reached |
| RingDispatch.HandleCompletion | kernel/src/cap/ring_drain.rs:117-204 | a drained entry naming a registered handle runs on its slot while the cap stayed and is a notification, and completes with E_INVAL once it left |
| RingDrain.RingTable.Setup | kernel/src/cap/ring_drain.rs:89-105 | records a ring exactly for a known process and a sane entry count |
| RingDrain.RingTable.Submit | kernel/src/cap/ring_drain.rs:117-160 | refuses without ring or memory; otherwise the drain of the smaller count |
| Pools.Pool.Alloc | wari-cap/src/pool.rs:64-74 | the least free index, or a refusal exactly when full |
| Pools.Pool.Dealloc | wari-cap/src/pool.rs:77-83 | gives the value back and frees exactly its index; a free index is refused |
| Pools.Pool.Get | wari-cap/src/pool.rs:86-93 | the value at an allocated index, and nothing elsewhere |
| Pools.BoundedQueue.Push | wari-cap/src/pool.rs:158-166 | joins the back of the sequence, refused exactly when full |
| Pools.BoundedQueue.Pop | wari-cap/src/pool.rs:169-177 | takes the front of the sequence |
| IpcState.MsgRoundTrip | kernel/src/ipc.rs:58-92 | a message crosses linear memory unchanged |
| IpcState.ReplyWaiter | kernel/src/ipc.rs:164-180 | the lowest process waiting for a reply on the endpoint, or none when there is none |
| IpcEffects.SendToReceiver | kernel/src/ipc.rs:231-268 | where a receiver waits it is ready with the message; a sender runs on, a caller waits for its reply |
| IpcEffects.SendWithoutReceiver | kernel/src/ipc.rs:255-281 | where none waits the sender or caller joins the queue and blocks for its own reason, or is refused exactly when the endpoint is gone or full |
| IpcEffects.ReceiveFromSender | kernel/src/ipc.rs:283-326 | answers the head sender's message, readies a sender and leaves a caller waiting for its reply; a failed write takes the sender off the queue and changes nothing else |
| IpcEffects.ReceiveWithoutSender | kernel/src/ipc.rs:327-340 | the receiver joins the queue and blocks, or is refused unchanged |
| IpcEffects.ReplyWakes | kernel/src/ipc.rs:345-373 | readies the lowest waiter with the message, and changes nothing when there is none or no message |
| IpcEffects.RefusedChangesNothing | kernel/src/ipc.rs:213-222 | a refused capability or message is the answer, and nothing changes |
| IpcEffects.SchedulerMoves | wari-sched/src/process.rs:160-215 | the scheduler moves one process and no queue |
| IpcInvariants.QuietAgrees | wari-cap/src/objects.rs:80-99 | empty queues and nobody blocked satisfy both directions |
| IpcInvariants.StepKeepsQueues | kernel/src/ipc.rs:207-373 | every step keeps: one of an endpoint's queues is empty, and everyone queued is queued once and blocked on it for its reason |
| IpcInvariants.StepKeepsBlockedIff | kernel/src/ipc.rs:231-340 | a step keeps everyone blocked on a rendezvous queued for it exactly when it is no receive that took a sender and failed to write |
| IpcInvariants.FailedWriteStrands | kernel/src/ipc.rs:283-305 | a failed receive write leaves its sender blocked to send and on no queue |
| IpcRuns.RunKeepsQueues | kernel/src/ipc.rs:207-373 | queued implies blocked in every state of every interleaving |
| IpcRuns.RunKeepsBlocked | kernel/src/ipc.rs:207-373 | and blocked implies queued while no receive has stranded a sender |
| IpcRuns.MessagesInOrder | kernel/src/ipc.rs:207-340 | an endpoint's accepted messages are those taken, in order, followed by what its queued senders hold |
| IpcRuns.NothingIsLostIff | kernel/src/ipc.rs:207-340 | each accepted message is delivered once, unchanged and in order, or still waits, exactly when no receive there stranded its sender |
| IpcRuns.StrandedStays | kernel/src/ipc.rs:283-305 | a stranded sender stays blocked and unqueued in every later state |
| IpcRuns.ReplyReachesLowest | kernel/src/ipc.rs:345-373 | a reply reaches exactly the lowest process waiting for one on the endpoint, and is refused exactly when none does |
| IpcRuns.ReceiverHoldsMessage | kernel/src/ipc.rs:152-161 | a delivery leaves the receiver ready with the message in its registers |
| IpcRuns.ReadyKeepsMessage | wari-sched/src/process.rs:184-199 | and nothing touches it until it is dispatched |
| IpcRuns.ResumesOnlyWithReply | kernel/src/ipc.rs:345-373 | a caller that waits for a reply leaves that wait only by a reply on its endpoint, and holds it |
| IpcRuns.CallerNeedsTakeThenReply | kernel/src/ipc.rs:307-326 | a queued caller resumes only after its request was taken and then replied to, on its endpoint |
| IpcEffects.CallerRunsOnlyAfterReply | wari-ipc/src/lib.rs:139-148 | from any accepted call on, its caller waits until a reply on that endpoint reaches it, and until a take before that if it was queued |
| IpcEffects.SenderRunsWhenTaken | wari-ipc/src/lib.rs:139-148 | an accepted send runs on when a receiver waited, and otherwise once a receive took its message |
| IpcKernel.IpcTables.constructor | wari-cap/src/objects.rs:80-99 | the given processes, and empty queues for exactly the live endpoints |
| IpcKernel.IpcTables.Pop | wari-cap/src/pool.rs:169-177 | takes the front of one queue of one endpoint and moves nothing else |
| IpcKernel.IpcTables.Push | wari-cap/src/pool.rs:158-166 | joins the back of one queue of one endpoint, refused exactly when full |
| IpcKernel.IpcTables.DeliverAndWake | kernel/src/ipc.rs:152-161 | registers first, then ready if it was blocked |
| IpcKernel.IpcTables.ReplyWaiterOn | kernel/src/ipc.rs:164-180 | the scan finds the lowest waiter |
| IpcKernel.IpcTables.IpcSendLike | kernel/src/ipc.rs:207-268 | send and call make exactly the model's step |
| IpcKernel.IpcTables.IpcRecv | kernel/src/ipc.rs:272-340 | receive makes exactly the model's step |
| IpcKernel.IpcTables.IpcReply | kernel/src/ipc.rs:345-373 | reply makes exactly the model's step |
| Text.SplitOnce | wari-http/src/lib.rs:410-413 | the parts around the first separator, none exactly without one |
| Text.TrimPadded | wari-http/src/lib.rs:415-423 | trimming undoes padding at both ends |
| Text.TrimIsPadding | wari-http/src/lib.rs:415-423 | whatever is trimmed was padding |
| Text.EqIgnoreCaseIff | wari-http/src/lib.rs:425-426 | texts are equal ignoring case exactly when each pair of bytes is equal or one letter in its two cases |
| Text.DecimalRoundTrip | wari-http/src/lib.rs:382-443 | parsing inverts printing exactly below 10^10 |
| Text.ReadDigits | wari-http/src/lib.rs:431-443 | the checked loop is the value of an all-digit numeral, refused exactly when empty, too long or too large |
| Text.PrintDecimal | wari-http/src/lib.rs:382-394 | the digit loop prints the numeral |
| Text.Trim | wari-http/src/lib.rs:415-423 | the two loops trim both ends |
| Http.FindCrlf | wari-http/src/lib.rs:399-408 | the first CRLF from a place on, none exactly when there is none |
| HttpRestart.CompleteIsFinal | wari-http/src/lib.rs:166-175 | a complete answer is unchanged by any appended bytes |
| HttpRestart.ErrorIsFinalIff | wari-http/src/lib.rs:166-175 | an error survives every extension exactly when no acceptable line was cut at its cap |
| HttpRestart.CutRecovers | wari-http/src/lib.rs:191-203 | there, LineTooLong turns into a wait for more with one more byte |
| HttpRestart.PrefixIsPartialIff | wari-http/src/lib.rs:227-242 | every proper prefix of a consumed request is partial, with the same exception |
| HttpRestart.CutAtCapExists | wari-http/src/lib.rs:191-203 | a request line of 1024 bytes, cut after its CR, is such a buffer |
| HttpPrint.NextLineIff | wari-http/src/lib.rs:191-203 | a line is read exactly when it and its CRLF are there and it fits the cap |
| HttpPrint.RequestLineReads | wari-http/src/lib.rs:204-222 | a printed request line is read back |
| HttpPrint.RequestLineWasThere | wari-http/src/lib.rs:204-222 | an accepted request line has the printed shape |
| HttpPrint.HeaderLineReads | wari-http/src/lib.rs:246-272 | a printed field is read back, its whitespace trimmed |
| HttpPrint.HeaderLineWasThere | wari-http/src/lib.rs:246-272 | an accepted header line is a printed field |
| HttpPrint.FoldMeans | wari-http/src/lib.rs:254-270 | the headers in order, and a body length exactly when one field, or none, declares it |
| HttpPrint.LengthNameIff | wari-http/src/lib.rs:256 | a name declares the length exactly when it spells content-length, each letter in either case |
| HttpPrint.ParsePrinted | wari-http/src/lib.rs:191-290 | a printed request followed by anything parses to itself and consumes exactly its bytes |
| HttpPrint.ParsedWasPrinted | wari-http/src/lib.rs:191-290 | whatever is accepted is a printed request |
| HttpPrint.CompleteIff | wari-http/src/lib.rs:191-290 | accepted with a meaning and a length exactly when that prefix is a well-formed request with that meaning |
| HttpPrint.StreamSplits | wari-http/src/lib.rs:150-160 | a pipelined stream splits back into its requests and the rest |
| HttpErrors.RequestLineErrors | wari-http/src/lib.rs:191-221 | a request line is refused for its method exactly when it has three parts and the first is none of the three methods |
| HttpErrors.HeaderLineErrors | wari-http/src/lib.rs:223-270 | a header line is refused as no field, as a length that may not be, or as one too many, each exactly when |
| HttpErrors.FirstLineDecides | wari-http/src/lib.rs:191-221 | a first line that is too long or refused decides the answer |
| HttpErrors.FirstBadHeaderDecides | wari-http/src/lib.rs:223-270 | after good lines, the next header line that is too long or refused decides the answer |
| HttpParser.ScanCrlf | wari-http/src/lib.rs:399-408 | the scan finds the first CRLF |
| HttpParser.ReadHeaders | wari-http/src/lib.rs:225-274 | the header loop computes the header grammar |
| HttpParser.ParseRequest | wari-http/src/lib.rs:191-290 | the parser computes the grammar |
| Output.Writer.Put | wari-http/src/lib.rs:372-380 | appends all or nothing, refused exactly when it does not fit |
| HttpRespond.Respond | wari-http/src/lib.rs:349-363 | writes the whole response, or refuses exactly when it does not fit |
| HttpRespond.StatusLineShows | wari-http/src/lib.rs:314-326 | a status line shows its own three-digit code |
| HttpFraming.ResponseDelimitsBody | wari-http/src/lib.rs:349-363 | read by the request parser's own header rules, a response delimits its body exactly when the body is within the cap and the content type, written unchecked, makes acceptable header lines that declare no length |
| HttpFraming.PlainTypeKeepsFraming | wari-http/src/lib.rs:349-363 | a content type without a CRLF does so exactly when its line is within the header cap, and is read back trimmed |
| JsonPrint.SkipPrinted | wari-mcp/src/lib.rs:248-310 | skipping a printed value leaves exactly what follows it, and fails exactly when it nests past the cap |
| JsonPrint.ElementsPrinted | wari-mcp/src/lib.rs:258-297 | the same for a container's elements |
| JsonPrint.SkipStringPrinted | wari-mcp/src/lib.rs:314-328 | a string ends at its first unescaped quote, and escapes are noticed exactly |
| JsonPrint.SkipWasPrinted | wari-mcp/src/lib.rs:248-310 | whatever is accepted is a printed value of the language, within the depth cap |
| JsonPrint.SkipIff | wari-mcp/src/lib.rs:248-310 | a text is accepted with a remainder exactly when it is such a value and that remainder may follow it |
| JsonConform.ValueUnique | wari-mcp/src/lib.rs:248-310 | a text is read in one way only |
| JsonConform.ConformsIff | wari-mcp/src/lib.rs:248-310 | an accepted text is JSON of RFC 8259 exactly when its reading takes no liberty |
| JsonConform.TrailingCommaSkipped | wari-mcp/src/lib.rs:258-297 | a comma before the bracket of any container with elements is accepted, and does not conform |
| JsonConform.AnyKeySkipped | wari-mcp/src/lib.rs:267-279 | any value that is no string is accepted as a key, and does not conform |
| JsonConform.AnyScalarSkipped | wari-mcp/src/lib.rs:298-328 | any run of other bytes, and any escape, is accepted, and does not conform |
| JsonObjects.ObjGetRawPrinted | wari-mcp/src/lib.rs:197-221 | on any object of the language, the exact span of the first member with the key, and nothing for an absent key or past a member it cannot read |
| JsonObjects.AsStrPrinted | wari-mcp/src/lib.rs:224-230 | a printed value is a borrowable string exactly when it is an escape-free string |
| JsonObjects.I64RoundTrip | wari-mcp/src/lib.rs:342-364 | parsing inverts printing on every number from -(2^63-1) to 2^63-1, and refuses all others |
| JsonObjects.ParseI64Iff | wari-mcp/src/lib.rs:342-364 | accepts exactly one to 19 digits, leading zeros or not, of a value below 2^63, after at most one minus sign |
| JsonObjects.ObjectSpanPrinted | wari-mcp/src/lib.rs:367-377 | a printed object alone in the body is its own span, refused only for depth |
| JsonObjects.ParseRequestPrinted | wari-mcp/src/lib.rs:132-151 | a request is decided by the first members of the four names, whatever the layout |
| JsonObjects.RequestWasPrinted | wari-mcp/src/lib.rs:132-151 | every body read as an object is one of the language alone between whitespace, and is decided as printed |
| JsonObjects.RequestRoundTrip | wari-mcp/src/lib.rs:132-151 | a printed request parses to its id, method and exact params span |
| JsonObjects.RequestIff | wari-mcp/src/lib.rs:132-149 | accepted as this request exactly when the version is the string 2.0, the method and the id say so, and params is that span |
| JsonObjects.RequestRefusals | wari-mcp/src/lib.rs:132-149 | the first of version and method that is missing, no string, escaped or another version decides the refusal |
| JsonObjects.NotAnObject | wari-mcp/src/lib.rs:367-378 | a body that opens no object is a bad request |
| JsonObjects.ResultIsPrinted | wari-mcp/src/lib.rs:162-170 | a response is a printed object |
| JsonObjects.ResultReadsBack | wari-mcp/src/lib.rs:162-170 | a response gives back the printed id and the exact result span |
| JsonParser.SkipWs | wari-mcp/src/lib.rs:379-384 | the loop stops at the first byte that is not whitespace |
| JsonParser.StringEnd | wari-mcp/src/lib.rs:314-328 | the index loop agrees with skipping the string |
| JsonParser.ValueLen | wari-mcp/src/lib.rs:248-310 | the length agrees with skipping the value |
| JsonParser.ContainerLen | wari-mcp/src/lib.rs:258-297 | the container loop agrees with skipping the elements |
| JsonParser.GetRaw | wari-mcp/src/lib.rs:197-221 | the member loop computes the lookup |
| JsonParser.ReadI64 | wari-mcp/src/lib.rs:342-364 | the checked loop computes the number or the refusal |
| JsonParser.ReadRequest | wari-mcp/src/lib.rs:132-151 | the request is read as specified |
| JsonParser.RespondResult | wari-mcp/src/lib.rs:162-170 | writes the whole response, or refuses exactly when it does not fit |
| Leb128.LebRoundTrip | driver-iface/src/parse.rs:228-252 | reading undoes the shortest encoding of every 32-bit number |
| Leb128.ReadEncoded | driver-iface/src/parse.rs:228-252 | and every padded encoding of at most five bytes |
| Leb128.ReadWasEncoded | driver-iface/src/parse.rs:228-252 | whatever is read was an encoding of at most five bytes, of the value modulo 2^32 |
| Leb128.ReadLebLoop | driver-iface/src/parse.rs:228-252 | the shift loop computes the encoded value modulo 2^32 |
| WasmSections.FindSectionPrinted | driver-iface/src/parse.rs:83-127 | in any well-formed module, exactly the first custom section of the name is found |
| WasmSections.FindSectionIff | driver-iface/src/parse.rs:83-127 | a payload is found exactly in a module that starts with whole sections, the last alone of the name; none exactly in a module of whole sections without the name |
| WasmSections.FindSectionRefusal | driver-iface/src/parse.rs:83-127 | a module of another preamble holds no manifest; every other refusal is for length |
| WasmSections.FindSectionLoop | driver-iface/src/parse.rs:83-127 | the index loop computes the walk |
| Manifest.DiscriminantsDecode | driver-iface/src/lib.rs:127-246 | kinds and signatures decode exactly from their own discriminants |
| Manifest.DiscriminantValues | driver-iface/src/lib.rs:127-246 | which kind or signature each value is, and which values are none |
| Manifest.NameSurvivesIff | driver-iface/src/parse.rs:257-263 | a name survives its padding exactly when it does not end in NUL |
| Manifest.PayloadRoundTripIff | driver-iface/src/parse.rs:129-209 | a built manifest is read back, whatever follows, exactly when both counts fit 16 bits |
| Manifest.ModuleRoundTrip | driver-iface/src/parse.rs:78-81 | a module whose first manifest section was built reads as the same kind, names and signatures in order |
| ManifestViews.ParsePayloadIff | driver-iface/src/parse.rs:129-209 | exactly which payloads give which view: header, declarations with known signatures, and any bytes in the reserved places and after them |
| ManifestViews.PayloadRefusal | driver-iface/src/parse.rs:129-209 | which refusal a payload gets, each exactly when |
| ManifestViews.ParseFromWasmIff | driver-iface/src/parse.rs:78-209 | exactly which modules give which view |
| ManifestBuilder.BuildManifest | driver-iface/src/lib.rs:603-681 | fills the image exactly, and aborts exactly on a size or name that does not fit |
| ManifestBuilder.Trim | driver-iface/src/parse.rs:257-263 | the loop trims trailing NULs |
| ManifestBuilder.ReadPayload | driver-iface/src/parse.rs:129-209 | the checks in the code's order compute the view or its refusal |
| ManifestBuilder.ReadFromWasm | driver-iface/src/parse.rs:78-81 | walk and payload together |
| RxModel.InitialPartition | drivers/net/src/lib.rs:737-791 | populating offers every descriptor once |
| RxModel.StepKeepsPartition | drivers/net/src/lib.rs:854-932 | a conforming step keeps every descriptor in exactly one of the four places |
| RxModel.RecycleKeepsIff | drivers/net/src/lib.rs:890-932 | recycling keeps the partition exactly when the driver holds the descriptor |
| RxModel.CompleteKeepsIff | drivers/net/src/lib.rs:854-887 | completing keeps it exactly when the device holds the descriptor |
| RxModel.RoomLeft | drivers/net/src/lib.rs:304-321 | while someone still holds a descriptor, the ring it would join has room |
| RxModel.RunKeepsPartition | drivers/net/src/lib.rs:854-932 | over every interleaving |
| RxRings.RingAppends | drivers/net/src/lib.rs:918-929 | writing the next slot overwrites no live entry, across index wrap |
| RxRings.SlotsDiffer | drivers/net/src/lib.rs:660-667 | counts less than a ring apart never share a slot, nor counts less than 2^16 apart an index |
| RxRings.TokenRecovers | drivers/net/src/lib.rs:1380-1403 | the buffer offset gives back the popped descriptor; zero means no packet exactly but for an empty frame at offset zero |
| RxRings.FrameInBuffer | drivers/net/src/lib.rs:1421-1446 | whatever length the device reports, the frame lies inside its own buffer |
| RxRings.FrameIsWhatWasWritten | drivers/net/src/lib.rs:1421-1446 | what is exposed of a completion is what the device wrote past its 12-byte header |
| RxRings.BuffersTile | drivers/net/src/lib.rs:890-916 | descriptors give the device whole buffers that lie end to end |
| RxRings.RxQueue.Populate | drivers/net/src/lib.rs:737-791 | succeeds exactly when every host call does, and then offers every descriptor |
| RxRings.RxQueue.DeviceTake | drivers/net/src/lib.rs:769-781 | the device takes the oldest offer, or none exactly when there is none |
| RxRings.RxQueue.DeviceComplete | drivers/net/src/lib.rs:854-872 | a completion lands past every unseen one while there is room, and each descriptor stays in one place exactly when the device held it; a ninth overwrites the oldest |
| RxRings.RxQueue.Pop | drivers/net/src/lib.rs:854-887 | the oldest unseen completion with its buffer, or zero when there is none or its id lies past the buffers |
| RxRings.RxQueue.Recycle | drivers/net/src/lib.rs:890-932 | changes nothing, or offers the descriptor past every live offer, each staying in one place exactly when the driver held it; a ninth offer overwrites the oldest |
| RxRings.RxQueue.Receive | drivers/net/src/lib.rs:1380-1403 | a token for exactly the popped descriptor, whatever the device reported |
| RxRings.RxQueue.Consume | drivers/net/src/lib.rs:1421-1453 | exposes the bytes from the header to the last one written, of the token's own buffer only whatever the device has done, then recycles it |
| AuditLog.TurnKeepsAccount | apps/guard/src/lib.rs:161-209 | one read advances past true records and counts exactly what was overwritten |
| AuditLog.EmitRecords | kernel/src/runtime/events.rs:158-177 | a record joins the log under the next number and wakes every guard |
| AuditLog.RunKeepsSound | apps/guard/src/lib.rs:161-209 | over every interleaving: true records in increasing order, printed plus lost is the cursor, and no guard sleeps while a record waits |
| AuditLog.PrintedWithoutLoss | apps/guard/src/lib.rs:161-209 | a guard that reported no loss printed the log itself |
| AuditLog.EventRoundTrip | kernel/src/runtime/wasi.rs:481-496 | a record crosses linear memory unchanged |
| AuditRing.HoldsAfter | kernel/src/runtime/events.rs:158-171 | storing a record keeps the newest 128 of the log in the ring |
| AuditRing.RoomForOne | kernel/src/runtime/events.rs:60-63 | a waiter set sized to the processes always has room for another |
| AuditRing.AuditStream.Claim | wari-events/src/lib.rs:149-153 | the next number and its slot |
| AuditRing.AuditStream.Emit | kernel/src/runtime/events.rs:158-177 | the record joins the log under its number, and everyone wakes |
| AuditRing.AuditStream.ReadAt | kernel/src/runtime/events.rs:213-226 | the planned read answers exactly what the unbounded log says |
| AuditRing.AuditStream.RegisterWaiter | kernel/src/runtime/events.rs:83-99 | never refuses a process, and adds exactly it |
| AuditRing.AuditStream.EventRead | kernel/src/runtime/wasi.rs:412-456 | sleeps exactly when allowed and caught up; otherwise the status or the error code |
| AuditRing.GuardLoop.OneTurn | apps/guard/src/lib.rs:161-209 | the guard's cursor and reported gap follow its account |
| AuditRing.GuardLoop.Wake | kernel/src/runtime/events.rs:136-177 | a record wakes the sleeping guard for its next turn with its cursor and account kept |

## Left out

- Assembly, CSR and TLB instructions, traps, SBI, PLIC, UART and volatile access.
- `install_tier1_grants`: it resets a CSpace without touching refcounts, so it keeps neither invariant of the capability machine.
- `cap_register` and `cap_unregister` as table updates: a registration is taken as a row of the table.
- CapKernel.CSpaces.Clear: the two nested loops over processes and slots are one loop over their index.
- CapTypes.PackRoundTrip: elsewhere an identifier is kept unpacked.
- PageAllocator.BitmapAllocator.constructor: asks that the pool end within the 64-bit address space, past which the
  source's address arithmetic overflows.
- CapKernel.Boot: the interrupt binding of the QEMU build, whose failure ends the boot, is taken to succeed.
- CapKernel.CSpaces.IncRef: one dictionary by kind and index stands for the six pools.
- CapKernel.CSpaces.DecRef: one dictionary by kind and index stands for the six pools.
- IpcKernel.IpcTables.DeliverAndWake: the resume value of a suspended host call, always zero here, is not kept.
- A pooled object is its refcount and its allocation; all pools are one dictionary by kind and index, so the pool arrays of the
  capability machine are not updated in place.
- The wake-on-revoke sweep and deallocation of an endpoint while processes wait on it.
- Starting and restarting a process (`register_tenant`, `on_tenant_terminated`): every IPC run keeps the processes it begins with.
- The resume-time flush of registers to a woken process's memory, whose failure the scheduler ignores.
- IpcKernel.IpcTables.constructor: endpoints are all created here; the class does not create or free one later.
- AuditRing.AuditStream.Emit: does not model a 64-bit sequence number running out, which the source rules out.
- RingDispatch.HandleCompletion: the notification operations are a parameter; that they move no capability is their contract.
- An operation whose completion cannot be written has run all the same; its effect is not part of the drain.
- The VirtIO transmit side, whose ring index nothing advances.
- HTTP header lookup by name, JSON error responses, event kinds, and the scheduler's policy: one branch or one loop each.
- `wari-policy`, grant checks, `wari-validate`, static capability tables, network wire formats and error-code tables.
- wasmi, smoltcp, ed25519 and wasmparser; signing tools, demo applications, banners and logging.
- Stack use and timing.
