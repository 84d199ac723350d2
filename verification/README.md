# virglrenderer in Dafny

A model of the parts of virglrenderer whose correctness is not visible from one function at a time, with proofs:

- **vtest sync timelines** (`Bags`, `SyncPool`, `SyncWaits`, `VtestMachine`, `VtestInvariant`, `VtestSteps`,
  `VtestContexts`, `VtestRuns`, `VtestMeaning`, `VtestRenderer`): syncs with reference counts, submits queued on
  timelines, waits that become ready, over arbitrary runs. `VtestMachine` is the machine as functions, `VtestRuns` holds the theorems over
  runs, and `VtestRenderer` is the class whose loops are proved to compute those functions. What a wait's eventfd
  should experience is defined from the history of requests and signals alone (`SyncWaits.FateOf`), and `VtestMeaning`
  derives that history from the requests themselves.
- **the render server's shared virglrenderer** (`RenderVirgl`): main thread, worker threads and sync threads as a step
  machine over two mutexes and thread joins.
- **the render server's workers** (`RenderWorker`, `RenderMeaning`, `RenderJail`): list, count, records, the
  kernel's children and pid reuse.
- **scatter/gather copying** (`Iov`, `GbmTransfer`, `BlobTransfer`): segment walks against flat address sequences.
- **the command stream** (`Protocol`, `Decode`, `DecodeLists`, `DecodeObjects`, `DecodeCalls`, `DecodeAccepts`): packet
  formats, the decode loop, and the decoders.
- **the fence table** (`FenceTable`, `FenceMeaning`, `FenceStore`): descriptors owned, retired, handed out and closed.
- **the vtest server's main loop** (`VtestServer`, `ServerMeaning`, `VtestLoop`): client lists, forks and the
  renderer's lifetime.

`Machine` holds word sizes, unsigned arithmetic and error codes. `dafny verify dfyconfig.toml` checks the whole project.

Four properties one might expect do not hold of the code; each has a concrete input and the exact condition. An empty
segment inside a row makes the GBM walk skip the rest of the row, and a segment that ends in bytes shared by two rows
makes it skip the start of the second (`GbmTransfer.EmptySegmentDropsBytes`, `GbmTransfer.ShortStrideDropsBytes`,
`GbmTransfer.WalkIsPlainCopyIff`). Fences registered under ids 0 and 1 are neither retired nor closed at cleanup
(`FenceTable.CleanupLeavesIdZero`, `FenceTable.CleanupLeavesNoneIff`). A fence callback finds its own context exactly
when no context listed before its own has the same id (`RenderVirgl.CallbackFindsAnother`,
`RenderVirgl.CallbackFindsContext`). The bounds check of a blob transfer passes a row outside the resource exactly when
the row starts before the resource and ends inside it (`BlobTransfer.LeftOfBlobPasses`, `BlobTransfer.StrayIff`,
`BlobTransfer.SoundIff`).

The environment decides what the code cannot: allocation and fork results, pids and descriptor numbers, which child
exits, which client's command arrives and whether it succeeds, the clock, and what the renderer behind the decoders
does. Each appears as a parameter or as an operation of a run, so the theorems hold for every such decision.

## Model

| member | source | states |
|---|---|---|
| `SyncPool.CountedNew` | vtest/vtest_renderer.c:244-264 | a new sync, whether reused from the free list or allocated, has count 1, a fresh or kept distinct id, and leaves every other count equal to its holders |
| `SyncPool.CountedAddRef` | vtest/vtest_renderer.c:266-270 | taking a reference keeps every count equal to the number of holders, with one holder more |
| `SyncPool.CountedUnref` | vtest/vtest_renderer.c:272-280 | dropping a held reference keeps every count equal to its holders and puts the sync on the free list exactly when none is left |
| `SyncPool.CountedUnrefAll` | vtest/vtest_renderer.c:282-288 | dropping a whole list of held references keeps counts, free list and ids exact |
| `SyncPool.CountedSetValue` | vtest/vtest_renderer.c:1695-1699 | changing a value touches no count, id or free-list membership |
| `SyncWaits.LatchExact` | vtest/vtest_renderer.c:1716-1729 | the slot loop, in spite of its early exit, reports ready iff clearing every matching slot would complete the wait, and otherwise has cleared them all and counted them |
| `SyncWaits.LatchCounted` | vtest/vtest_renderer.c:1716-1729 | each cleared slot gives back exactly one reference |
| `SyncWaits.WaitStepFate` | vtest/vtest_renderer.c:1703-1737 | a raising signal does to a listed wait exactly what the history of requests and signals says: keep, wake and close, or expire and close |
| `SyncWaits.QuietSignalFate` | vtest/vtest_renderer.c:1695-1698 | a signal that does not raise the value can complete no wait, although waits are not visited |
| `SyncWaits.SweepCounted` | vtest/vtest_renderer.c:1705-1736 | sweeping a context's waits keeps every count equal to its holders |
| `VtestInvariant.RaiseInv` | vtest/vtest_renderer.c:1699-1738 | a raising signal keeps the whole invariant: counts, tables, pending slots, links to the history, outputs per eventfd |
| `VtestInvariant.QuietInv` | vtest/vtest_renderer.c:1695-1698 | so does a signal that lowers or repeats a value |
| `VtestSteps.SignalTimelineInv` | vtest/vtest_renderer.c:1740-1759 | a fence callback keeps the invariant |
| `VtestSteps.NewSyncInv` | vtest/vtest_renderer.c:1761-1793 | creating a sync keeps it, also when the reply cannot be written |
| `VtestSteps.DropSyncInv` | vtest/vtest_renderer.c:1795-1812 | removing a sync from a table keeps it |
| `VtestSteps.WaitSyncInv` | vtest/vtest_renderer.c:1885-2004 | a wait request keeps it on every path: no memory, no eventfd, unknown sync, nothing left to wait for, zero timeout, failed send, listed |
| `VtestContexts.SubmitBatchInv` | vtest/vtest_renderer.c:2006-2078 | a batch keeps it, with or without a ring, also when a sync is unknown or the fence cannot be created |
| `VtestContexts.CreateContextInv` | vtest/vtest_renderer.c:506-611 | creating a context, also one whose name cannot be read, keeps it |
| `VtestContexts.DestroyContextInv` | vtest/vtest_renderer.c:638-669 | destroying a context keeps it, in whatever order its table is emptied |
| `VtestContexts.CleanupTotal` | vtest/vtest_renderer.c:462-504 | cleanup leads from every state of the invariant back to the initial state, no sync left |
| `VtestRuns.StepInv` | vtest/vtest_renderer.c:1690-2078 | every operation that is enabled keeps the invariant |
| `VtestRuns.RefcountsExact` | vtest/vtest_renderer.c:244-300 | in every reachable state a sync's count is its table entries plus its queued slots plus its pending wait slots, it is free iff that is zero, once, and ids are distinct |
| `VtestRuns.NoDanglingSync` | vtest/vtest_renderer.c:272-280 | in every reachable state whatever is referred to exists and has a positive count, so the assertion on the count holds |
| `VtestRuns.WakeupsExact` | vtest/vtest_renderer.c:1690-1738 | over every run an eventfd is made ready exactly once if the recorded history says that all its entries, or one for ANY, were reached while it waited, never otherwise, and is closed exactly once when it leaves the list |
| `VtestRuns.PendingAboveValue` | vtest/vtest_renderer.c:1885-1933 | in every reachable state a listed wait's signaled count is its cleared slots, each pending entry is strictly above its sync's value, and a slot is cleared iff its value was ever reached |
| `VtestRuns.CleanupFreesEverything` | vtest/vtest_renderer.c:491-501 | after destroying all contexts every sync has count zero and is on the free list, so the assertion holds and nothing is left behind |
| `VtestRuns.MergingInvisible` | vtest/vtest_renderer.c:171-178 | fence callbacks for any selection of queued submits that ends with one submit have the effect of the single callback for that submit |
| `VtestRuns.ReachableMerging` | vtest/vtest_renderer.c:1740-1759 | the same in every reachable state, where queued submits are always in order |
| `VtestMeaning.FenceMeans` | vtest/vtest_renderer.c:1740-1759 | a fence callback signals the entries of the submits up to the one named, each with its own value, in queue order, and takes exactly those submits off their ring; no table, other ring or id changes |
| `VtestMeaning.CallbackValues` | vtest/vtest_renderer.c:1749-1752 | in every reachable state, after the callback for queued submit n each sync has the value of the last entry that names it in submits 0 to n, or its value from before |
| `VtestMeaning.SignalEventsExact` | vtest/vtest_renderer.c:1690-1699 | of some signals in order, event i in the history is signal i, with its own sync and value, and says that it raised the sync iff the value left by those before it was lower |
| `VtestMeaning.WriteMeans` | vtest/vtest_renderer.c:1859-1883 | a write signals the sync that the client's id names with the value asked for; an unknown id is EEXIST and changes nothing |
| `VtestMeaning.BatchMeans` | vtest/vtest_renderer.c:2006-2078 | a batch without a ring signals the syncs it names with the values it asks for, in order, up to the first unknown id; with a ring it queues all of them at that ring's end, or nothing; and what it returns |
| `VtestMeaning.WaitMeans` | vtest/vtest_renderer.c:1935-2004 | a wait enters the history with the request's own flag, deadline, syncs, values and present values; its eventfd is ready at once iff all that is asked for is met, or with ANY something is; no value, table or ring changes; and what it returns |
| `VtestMeaning.CreateMeans` | vtest/vtest_renderer.c:1761-1793 | a new sync has the value asked for and an id that its client does not know yet, and no sync in use changes |
| `VtestMeaning.DropMeans` | vtest/vtest_renderer.c:1795-1812 | dropping a sync takes its id out of the client's table and nothing else |
| `VtestMeaning.ConnectMeans` | vtest/vtest_renderer.c:506-611 | a new client has an id of its own, no sync and 64 empty rings; the others stay |
| `VtestMeaning.DisconnectMeans` | vtest/vtest_renderer.c:638-669 | a client that goes takes nothing of the others with it and changes no value |
| `VtestMeaning.CleanupMeans` | vtest/vtest_renderer.c:462-504 | cleanup is the death of every client, in order |
| `VtestMeaning.RunHistory` | vtest/vtest_renderer.c:1690-2078 | over every run the recorded requests, signals and deaths are exactly those that the requests of the run mean, in order |
| `VtestMeaning.WakeupsFollowRequests` | vtest/vtest_renderer.c:1690-1738 | no lost and no spurious wakeup: over every run an eventfd is made ready once if the requests of the run alone say so and never otherwise, is listed while they leave it open, and else was closed once |
| `VtestRenderer.Renderer.UnrefSync` | vtest/vtest_renderer.c:272-280 | the in-place update is the reference's |
| `VtestRenderer.Renderer.UnrefEach` | vtest/vtest_renderer.c:282-288 | the loop over a submit's syncs drops each reference once and never meets a zero count |
| `VtestRenderer.Renderer.LatchSlots` | vtest/vtest_renderer.c:1716-1729 | the slot loop with its break computes the reference function |
| `VtestRenderer.Renderer.StepWait` | vtest/vtest_renderer.c:1706-1735 | one wait: expiry, slot loop, wakeup and release |
| `VtestRenderer.Renderer.SweepWaits` | vtest/vtest_renderer.c:1705-1736 | the loop over a context's waits, removing while iterating |
| `VtestRenderer.Renderer.SweepActive` | vtest/vtest_renderer.c:1703-1737 | the loop over active contexts |
| `VtestRenderer.Renderer.SignalSync` | vtest/vtest_renderer.c:1690-1738 | the whole routine computes the reference and keeps the invariant |
| `VtestRenderer.Renderer.SignalSubmit` | vtest/vtest_renderer.c:1750-1754 | signals and releases the entries of one submit in order |
| `VtestRenderer.Renderer.SignalTimeline` | vtest/vtest_renderer.c:1740-1759 | pops submits up to the one named |
| `VtestRenderer.Renderer.SyncCreate` | vtest/vtest_renderer.c:1761-1793 | creation with its error returns |
| `VtestRenderer.Renderer.SyncUnref` | vtest/vtest_renderer.c:1795-1812 | removal from the table |
| `VtestRenderer.Renderer.SyncWrite` | vtest/vtest_renderer.c:1859-1883 | a direct signal, EEXIST for an unknown id |
| `VtestRenderer.Renderer.WaitInit` | vtest/vtest_renderer.c:1885-1933 | collects the entries that are not yet met, taking a reference for each, up to the first unknown id |
| `VtestRenderer.Renderer.SyncWait` | vtest/vtest_renderer.c:1935-2004 | the wait request with all its returns |
| `VtestRenderer.Renderer.SignalEach` | vtest/vtest_renderer.c:2034-2058 | the batch without a ring |
| `VtestRenderer.Renderer.TakeEach` | vtest/vtest_renderer.c:2034-2051 | takes a reference for every known requested sync |
| `VtestRenderer.Renderer.SubmitBatch` | vtest/vtest_renderer.c:2006-2078 | one batch with all its returns |
| `VtestRenderer.Renderer.CreateContext` | vtest/vtest_renderer.c:572-611 | a new or reused context, given back when its name cannot be read |
| `VtestRenderer.Renderer.FreeTimelines` | vtest/vtest_renderer.c:648-655 | drops every reference of every queued submit |
| `VtestRenderer.Renderer.FreeWaits` | vtest/vtest_renderer.c:657-660 | closes every listed wait and drops its pending references |
| `VtestRenderer.Renderer.DestroyContext` | vtest/vtest_renderer.c:638-669 | the whole routine |
| `VtestRenderer.Renderer.FreeAllSyncs` | vtest/vtest_renderer.c:491-501 | frees the free list; every count met is zero |
| `VtestRenderer.Renderer.CleanupRenderer` | vtest/vtest_renderer.c:462-504 | the whole routine, ending in the initial state |
| `RenderVirgl.NextInv` | server/render_virgl.c:104-162 | every step of every thread keeps locks, roles, count, flags, list and up-state consistent |
| `RenderVirgl.InitCountExact` | server/render_virgl.c:104-162 | in every reachable state of any number of threads the init count is the number of outstanding successful inits, and virglrenderer is up while it is positive |
| `RenderVirgl.StableWhileCounted` | server/render_virgl.c:124-154 | while the count is positive no step changes the flags or takes virglrenderer down |
| `RenderVirgl.ListEmptyAtZero` | server/render_virgl.c:104-118 | whenever the count is zero under the struct mutex, at re-initialisation and at cleanup, no context is listed |
| `RenderVirgl.DispatchOwnerCounted` | server/render_context.c:350-352 | whoever else holds the dispatch mutex owns a counted init |
| `RenderVirgl.NestedDispatchFree` | server/render_virgl.c:104-162 | whenever init or fini takes the dispatch mutex under the struct mutex it is free |
| `RenderVirgl.RankDrops` | server/render_virgl.c:70-81 | waiting, on a mutex or on a join, always goes down a rank |
| `RenderVirgl.NoDeadlock` | server/render_context.c:377-399 | hence no cycle of waiting threads exists in any reachable state, with the waits for adding a context and for dispatching a request included, and no chain of waits is longer than five |
| `RenderVirgl.Progress` | server/render_context.c:453-474 | a thread that waits for no other, at any of its lock and join sites, can take a step |
| `RenderVirgl.SomeoneMoves` | server/render_context.c:344-399 | in every reachable state, from every thread that is not done a chain of waits leads to a thread that can take a step |
| `RenderVirgl.LookupContext` | server/render_virgl.c:37-60 | the lookup returns the first listed context with the id, and none iff there is none |
| `RenderVirgl.CallbackFindsContext` | server/render_virgl.c:70-81 | every fence callback finds a context, so its assertion holds, and it is its own iff no context listed before its own has the same id; with distinct ids it always is |
| `RenderVirgl.OwnContextListed` | server/render_virgl.c:70-81 | throughout a callback, also while the context is used after the unlock, the worker's own context is listed exactly once and its worker is alive |
| `RenderVirgl.CallbackFindsAnother` | server/render_client.c:104-167 | a reachable state of two workers created with one id in which a callback finds the other's context |
| `RenderWorker.CreateInv` | server/render_worker.c:357-394 | creating a worker keeps list, count, records, processes and frees consistent, also on every failure |
| `RenderWorker.RemoveRecordInv` | server/render_client.c:56-66 | so does removing a record with its worker |
| `RenderWorker.ReapInv` | server/render_worker.c:329-347 | so does reaping a child, known or not |
| `RenderWorker.ReapFindsOwner` | server/render_worker.c:217-235 | the scan from the head finds the very worker the child was forked for although reaped workers further down may carry the same pid |
| `RenderWorker.WorkersAccounted` | server/render_worker.c:192-208 | after every run the count is the list's length and at most the maximum, records and undestroyed workers correspond one-to-one, no listed worker is destroyed and reaped, and each struct is listed or freed exactly once |
| `RenderWorker.KillsReachOwnProcess` | server/render_worker.c:396-415 | after every run each SIGKILL had reached an unreaped process of the worker being destroyed |
| `RenderMeaning.DestroyedAreKilled` | server/render_worker.c:396-415 | after every run exactly the destroyed ones of the listed processes were sent a SIGKILL, once each, and are on their way out; threads never are |
| `RenderMeaning.KilledIffRunning` | server/render_worker.c:404-412 | whatever happens later, a worker that was reaped before its destruction is never sent a SIGKILL, and one destroyed while running just the one |
| `RenderMeaning.CreateMeans` | server/render_client.c:104-167 | a context is created iff the limit is not reached and the fork succeeded; its record carries the id asked for and an unused worker that runs as the forked child |
| `RenderMeaning.DestroyMeans` | server/render_client.c:169-179 | a destroy request destroys the worker of the first context with the id, killing it iff it is a running process and else freeing it, drops that record, and leaves every other worker alone |
| `RenderMeaning.DestroyUnknown` | server/render_client.c:169-179 | an unknown id changes nothing |
| `RenderWorker.ReapMarksOwner` | server/render_worker.c:217-231 | after every run, whatever pids were reused, reaping a worker's child marks that worker and no other, and reaping any other child marks nobody anew |
| `RenderWorker.ClearedWorkers` | server/render_client.c:68-74 | once the records are cleared every listed worker is destroyed and unreaped, and in thread mode none is listed |
| `RenderWorker.WaitTurn` | server/render_worker.c:274-285 | while a worker is listed some killed child is left to wait for, each wait shrinks the children, and the worker returned satisfies the loop's assertion |
| `RenderWorker.ForkedChildDetached` | server/render_client.c:42-54 | the forked child of any run ends with nothing listed or recorded, every struct freed once, nobody killed, no child of its own |
| `RenderJail.Jail.RemoveWorker` | server/render_worker.c:200-208 | unlinks, counts down and frees |
| `RenderJail.Jail.ReapAny` | server/render_worker.c:210-235 | the scan marks the first worker with the pid |
| `RenderJail.Jail.ReapWorkers` | server/render_worker.c:329-347 | the non-blocking loop is a run of reaps that ends with no exited child left or with an unknown one, and terminates |
| `RenderJail.Jail.WaitWorkers` | server/render_worker.c:274-285 | the blocking loop, which gets only children that exited or were killed, terminates, its assertion holds each time, and every worker was freed exactly once |
| `RenderJail.Jail.DestroyWorker` | server/render_worker.c:396-415 | kill unless reaped, or join; mark; free if reaped |
| `RenderJail.Jail.RemoveRecord` | server/render_client.c:56-66 | destroys the record's worker and drops the record |
| `RenderJail.Jail.ClearRecords` | server/render_client.c:68-74 | removes every record |
| `RenderJail.Jail.DestroyContext` | server/render_client.c:169-179 | removes the first record with the id, if any |
| `RenderJail.Jail.CreateContext` | server/render_client.c:104-167 | the parent's side, with the limit and the failures |
| `RenderJail.Jail.BecomeChild` | server/render_client.c:144-158 | the child's side |
| `RenderJail.Jail.Fini` | server/render_server.c:87-98 | teardown from any valid state frees every worker exactly once |
| `Iov.ReadFromIovec` | src/iov.c:58-85 | copies exactly the flat slice, min(count, size - offset) bytes, changes nothing past it, and ends with offset 0 iff the offset is 0 or count is positive and the offset is at most the size |
| `Iov.WriteToIovec` | src/iov.c:87-114 | stores to exactly that slice of addresses in order, with the same final offset |
| `Iov.ReadFromIovecCallback` | src/iov.c:116-145 | the callback is given non-empty pieces that cover the slice in order without gaps, each with its position |
| `Iov.ReadIsSlice` | src/iov.c:58-85 | what a read gathers is the slice of the flat bytes |
| `Iov.WritePatches` | src/iov.c:87-114 | over a list naming no address twice a write patches the flat bytes at the slice and nowhere else |
| `Iov.ReadAfterWrite` | src/iov.c:58-114 | reading after writing returns what was written |
| `Iov.WriteBackUnchanged` | src/iov.c:58-114 | writing back what was read changes no byte, whatever addresses repeat |
| `Iov.CopyIovec` | src/iov.c:162-204 | the return code on every path, and the memory after it: unchanged, or the old source bytes scattered over the destination slice as far as it reaches |
| `Iov.CopyIsMove` | src/iov.c:162-204 | a successful copy has memmove meaning however the lists share memory, and touches nothing outside the destination range |
| `GbmTransfer.Transfer` | src/vrend_winsys_gbm.c:198-260 | for any stride the two-cursor walk, in 32-bit arithmetic that does not wrap, terminates and transfers, in either direction, what the row-by-row description says; for a stride of at least a row that is of each row the longest prefix that the list holds and no empty segment interrupts, and for unbroken, seamless rows it is the plain copy |
| `GbmTransfer.WalkIsRows` | src/vrend_winsys_gbm.c:198-260 | for a stride of at least a row, what is moved and where it lands are exactly those prefixes |
| `GbmTransfer.ByteTransferred` | src/vrend_winsys_gbm.c:211-258 | a row entered in time reaches a byte iff the list holds it and no empty segment lies between the row's start and it |
| `GbmTransfer.MovesIff` | src/vrend_winsys_gbm.c:211-258 | for a stride of at least a row, the walk moves exactly the bytes that are so reached |
| `GbmTransfer.RowContiguous` | src/vrend_winsys_gbm.c:225-241 | for any stride, what a row moves is consecutive in the list and in the image, from where the segment cursor enters the row, at matching places |
| `GbmTransfer.WalkIsPlainCopyIff` | src/vrend_winsys_gbm.c:198-260 | for every list, plane and stride the walk is the plain per-row copy truncated at the list's size, in the bytes it moves and in where they land, iff no empty segment lies inside the held part of a row and no segment ends in bytes that a row shares with the next |
| `GbmTransfer.NoEmptySegments` | src/vrend_winsys_gbm.c:198-260 | for non-empty segments and a stride of at least a row it always is |
| `GbmTransfer.EmptySegmentDropsBytes` | src/vrend_winsys_gbm.c:242-249 | a list with an empty segment inside a row, whose later bytes the walk skips |
| `GbmTransfer.ShortStrideDropsBytes` | src/vrend_winsys_gbm.c:225-231 | a stride shorter than a row and a list of non-empty segments for which the walk is not the plain copy |
| `GbmTransfer.ToHostAndBack` | src/vrend_winsys_gbm.c:238-241 | for any guest stride, to the image and back leaves guest memory as it was |
| `GbmTransfer.FromHostAndBack` | src/vrend_winsys_gbm.c:238-241 | for a guest stride of at least a row and a list naming no address twice, from the image and back leaves the image as it was |
| `GbmTransfer.ToHostByte` | src/vrend_winsys_gbm.c:234-239 | for any guest stride, each byte of each row that the walk moves lands at its row and column of the image, and each other byte of the image's rows stays |
| `GbmTransfer.FromHostByte` | src/vrend_winsys_gbm.c:234-241 | for a guest stride of at least a row and a list naming no address twice, each transferred byte of the image lands at the address its row and column denote |
| `BlobTransfer.TransferBlob` | src/virglrenderer.c:307-361 | for every box, stride, offset and size of the C types, in wrapping 64-bit arithmetic: refusals leave everything alone; otherwise 0 iff every row passes the bounds check, else EINVAL, with exactly the rows before the first failing one moved, all inside the resource; the bytes moved are those of the box when nothing wraps; the copy leaves the resource iff a row straddles its start; and when the list walks' assertion holds |
| `BlobTransfer.RowOffsets` | src/virglrenderer.c:342-346 | wrapping at every operation, also for negative coordinates, gives the wrapped affine positions |
| `BlobTransfer.StrayIff` | src/virglrenderer.c:341-349 | the first row outside the resource that passes the check is one that starts before the resource and ends inside it, and conversely |
| `BlobTransfer.SoundIff` | src/virglrenderer.c:341-349 | hence every row reached that passes the check lies inside iff no row straddles the start; for resources below half the address space, iff the first row does not |
| `BlobTransfer.LeftOfBlobPasses` | src/virglrenderer.c:341-349 | a box one pixel left of the resource, which passes the check for every size |
| `BlobTransfer.StraightIff` | src/virglrenderer.c:342-344 | no position of n rows wraps iff the first row does not start before the resource and the last row's positions are below 2^64 |
| `BlobTransfer.MovedStraightIff` | src/virglrenderer.c:342-344 | for rows that were moved, iff the last row's list offset is below 2^64 |
| `BlobTransfer.TransferRow` | src/virglrenderer.c:350-355 | one row moves the held slice, either way |
| `BlobTransfer.ToBlobIsAffine` | src/virglrenderer.c:341-356 | when no position wraps, towards the resource the transfer is one copy at a constant shift, also for overlapping rows; other bytes stay |
| `BlobTransfer.FromBlobIsAffine` | src/virglrenderer.c:341-356 | likewise towards a list naming no address twice: the addresses written are those of the touched positions, and memory anywhere else stays |
| `BlobTransfer.ToBlobPixels` | src/virglrenderer.c:338-356 | in terms of box, stride and offset alone: byte c of row h, from list position offset + h * step + c, lands at resource position (y + h) * step + 4 * x + c, for every such byte that the list holds, and no other byte of the resource changes |
| `BlobTransfer.FromBlobPixels` | src/virglrenderer.c:338-356 | likewise towards a list naming no address twice |
| `BlobTransfer.ReadThenWriteBack` | src/virglrenderer.c:307-361 | reading from the resource and writing back leaves it unchanged, also for overlapping rows |
| `BlobTransfer.WriteThenReadBack` | src/virglrenderer.c:307-361 | writing to the resource and reading back leaves guest memory unchanged |
| `Protocol.TargetRoundTrip` | src/virgl_protocol.h:170-178 | every field of a colour target's blend word survives packing |
| `Protocol.BlendRoundTrip` | src/virgl_protocol.h:156-167 | every field of the blend words S0 and S1 survives packing |
| `Protocol.DsaRoundTrip` | src/virgl_protocol.h:180-198 | so does every field of a depth-stencil-alpha object |
| `Protocol.RasterizerRoundTrip` | src/virgl_protocol.h:200-244 | and of a rasterizer |
| `Protocol.RasterWordRoundTrip` | src/vrend_decode.c:557-589 | re-encoding a decoded rasterizer S0 word gives the same word, for every word |
| `Protocol.SamplerRoundTrip` | src/virgl_protocol.h:373-391 | every field of a sampler state survives packing |
| `Decode.DecodeWords` | src/vrend_decode.c:1916-1954 | the loop with its 32-bit offset computes the reference run, error reports to the context included; the offset never wraps |
| `Decode.Submit` | src/virglrenderer.c:281-294 | bad word counts, unknown contexts and a failed switch return EINVAL and decode nothing |
| `Decode.RunDispatchesPrefix` | src/vrend_decode.c:1917-1953 | for any buffer and any decoders the packets dispatched are consecutive and tile a prefix, each once; every one but a failing last succeeded, a failing last one's code is the result, and otherwise the loop ended at an unknown command, an overrunning packet, which is reported, or the end |
| `DecodeLists.ReadList` | src/vrend_decode.c:692-731 | the element loop decodes what the reference says and refuses what it refuses |
| `DecodeLists.ListExact` | src/vrend_decode.c:239-266 | for all twelve list decoders and every accepted length: all whole elements, in order, each word once, none from outside the packet, nothing over where whole elements are demanded, counts and slots within their limits |
| `DecodeLists.ProtocolSizes` | src/virgl_protocol.h:278-305 | a packet of the size the protocol header gives for n elements is read as n elements, and decoders that demand whole elements accept only such lengths |
| `DecodeLists.ListLocal` | src/vrend_decode.c:1208-1298 | the twelve list decoders depend only on words 0..length |
| `DecodeObjects.ReadOutputs` | src/vrend_decode.c:100-124 | the two marking loops over stream outputs compute the reference |
| `DecodeObjects.ShaderExact` | src/vrend_decode.c:66-132 | the text offset lies inside the packet or just past it, the remaining-word count is exact and never negative, need_temp holds iff fewer than four components or an earlier output uses the register |
| `DecodeCalls.OutputRoundTrip` | src/virgl_protocol.h:268-275 | every field of a stream output survives packing |
| `DecodeCalls.ShaderRoundTrip` | src/vrend_decode.c:66-132 | any shader, with any stream outputs, strides, token count, offset and text, is what its printed packet decodes to, whatever follows it |
| `DecodeCalls.ShaderPacketDecodes` | src/vrend_decode.c:754-811 | the whole create packet decodes to that shader under that handle, or is refused for handle 0 |
| `DecodeObjects.DataExact` | src/vrend_decode.c:386-413 | inline writes, constant buffers, debug flags and string markers hand on exactly the words from their data's start to the packet's end, and count no byte past them |
| `DecodeObjects.ArgsExact` | src/vrend_decode.c:1383-1457 | every other command hands on a first part of its packet's words, all of them unless the decoder accepts longer packets |
| `DecodeCalls.CarriesPacket` | src/vrend_decode.c:1826-1901 | whatever a decoder hands on unpacked is, in order, the packet's own words from the first after the header |
| `DecodeAccepts.SentIsHandedOn` | src/vrend_decode.c:1826-1901 | every list of whole elements with a known stage, count and slots in range is accepted by its command and handed on element by element |
| `DecodeAccepts.HandedOnIsSendable` | src/vrend_decode.c:239-266 | and no other list is handed on |
| `DecodeAccepts.ElementsAreCreated` | src/vrend_decode.c:692-731 | vertex elements likewise, as an object, if memory can be had |
| `DecodeAccepts.PassedIff` | src/virgl_protocol.h:308-753 | a command that is no list, data or object is handed on iff its packet has a size that the protocol header gives it and the fields checked are in range; otherwise EINVAL |
| `DecodeAccepts.OtherObjectIff` | src/virgl_protocol.h:353-395 | sampler views, surfaces, queries and streamout targets are made iff their packets have the protocol's sizes |
| `DecodeAccepts.DataIff` | src/vrend_decode.c:386-413 | when each data command is handed on, and with which error otherwise |
| `DecodeAccepts.TableIs` | src/vrend_decode.c:1826-1901 | which decoder each command has; video commands are refused by a build without video |
| `DecodeObjects.DecideLocal` | src/vrend_decode.c:1826-1901 | for every entry of the decode table what is refused, skipped or handed on depends only on words 0..length |
| `DecodeObjects.HandleLocal` | src/vrend_decode.c:1826-1901 | so no decoder's effect, on any renderer, depends on a word outside its own packet |
| `DecodeObjects.PrintedDecodes` | src/vrend_decode.c:456-609 | a printed packet, whatever follows it, decodes to the object and handle it was printed from, or is refused for handle 0 or an undefined mip filter |
| `DecodeObjects.PrintDecodeRoundTrip` | src/vrend_decode.c:1903-1955 | for any renderer, running the printed packets of any list of blend, depth-stencil-alpha, rasterizer and sampler objects through the loop is creating the objects one after the other |
| `DecodeObjects.RoundTripIff` | src/vrend_decode.c:1903-1955 | it recreates the same objects in the same order iff none has handle 0 or an undefined mip filter; otherwise it stops with EINVAL at the first that does, having created those before it |
| `FenceTable.DescriptorsAccounted` | src/virgl_fence.c:75-162 | in every reachable state the module's open descriptors are exactly the table's plus the last signalled one, all distinct, and each close was of an open descriptor of its own |
| `FenceTable.LookupYieldsRegistered` | src/virgl_fence.c:191-206 | a lookup returns a new descriptor, the caller's, of the file registered under the id, iff one is registered and the dup succeeds |
| `FenceTable.LastYieldsSignalled` | src/virgl_fence.c:208-230 | after every run the last-signalled lookup returns a new descriptor, the caller's, of a signalled fence's file, iff one is remembered and the dup succeeds |
| `FenceMeaning.RetireMeans` | src/virgl_fence.c:75-116 | retiring a signalled fence remembers it by its id and a new descriptor of its file, or as lost if the dup fails, and closes what was remembered before; any other fence leaves that alone |
| `FenceMeaning.LastIsMostRecent` | src/virgl_fence.c:208-230 | after every run the last-signalled lookup returns a new descriptor of the file of the fence retired most recently as signalled, and -1 iff there was none, its dup failed or the lookup's own dup fails |
| `FenceMeaning.SetMeans` | src/virgl_fence.c:118-162 | the result of registering a descriptor on every path; on success the id names the file behind it; of the other ids exactly the swept ones that are not pending are gone and the rest name the files they named |
| `FenceTable.PendingKept` | src/virgl_fence.c:75-162 | over every run no pending fence is retired or overwritten, provided waiting on a pending fence reports it as pending |
| `FenceTable.SetBusyIff` | src/virgl_fence.c:118-162 | an id is refused as busy iff it is registered and pending or not collected by the sweep |
| `FenceTable.SpecialKept` | src/mesa/util/hash_table.c:823-835 | ids 0 and 1, which the hash table keeps outside the table it walks, are never retired |
| `FenceTable.CleanupLeaves` | src/virgl_fence.c:39-58 | cleanup closes each other descriptor once and leaves open exactly what is registered under ids 0 and 1 |
| `FenceTable.CleanupLeavesNoneIff` | src/virgl_fence.c:39-58 | so it leaves nothing open iff neither id is registered |
| `FenceTable.CleanupLeavesIdZero` | src/virgl_fence.c:39-58 | a run after which cleanup leaves a descriptor open |
| `FenceStore.Store.RetireFence` | src/virgl_fence.c:75-116 | pending, failed and signalled fences, with the close and dup of the last signalled one, as `FenceMeaning.RetireMeans` describes |
| `FenceStore.Store.SetFd` | src/virgl_fence.c:118-162 | the sweep loop and the registration with its error returns |
| `FenceStore.Store.GetFd` | src/virgl_fence.c:191-206 | the lookup |
| `FenceStore.Store.GetLastSignalled` | src/virgl_fence.c:208-230 | the lookup computes the reference, which `FenceTable.LastYieldsSignalled` describes |
| `FenceStore.Store.CleanupTable` | src/virgl_fence.c:39-58 | the closing walk computes the reference and keeps the table consistent |
| `VtestServer.TurnHead` | vtest/vtest_server.c:598-645 | one turn of the loop leads from loop head to loop head; when it is the last, the renderer is down and no context is left |
| `VtestServer.RendererUpIffActive` | vtest/vtest_server.c:598-645 | at every loop head, in the parent and in every forked child, the renderer is up iff a client is active, and live contexts and clients' contexts correspond one-to-one |
| `VtestServer.HistoryInOrder` | vtest/vtest_server.c:575-645 | over every run contexts are created only while the renderer is up, destroyed exactly once, always before cleanup, and init and cleanup alternate with no context alive |
| `VtestServer.ForkMid` | vtest/vtest_server.c:513-551 | forking gives the child its one client and drops the rest; the parent drops all; no context is involved |
| `VtestServer.DispatchMid` | vtest/vtest_server.c:487-511 | dispatching, with contexts created, abandoned and clients failing, keeps owners, ids and history consistent |
| `VtestServer.TidyMid` | vtest/vtest_server.c:575-596 | tidying destroys each inactive client's context once |
| `VtestServer.CleanupMid` | vtest/vtest_renderer.c:462-504 | with no client left no context is alive when the renderer is cleaned up |
| `ServerMeaning.DispatchMeans` | vtest/vtest_server.c:487-511 | clients whose command does not fail stay, in order, and get a context exactly if they had none and the command succeeded; the others go to the inactive list, in order |
| `ServerMeaning.ForkMeans` | vtest/vtest_server.c:497-551 | the parent drops every new client; a child serves its own, drops the others, and neither listens, nor forks, nor starts over |
| `ServerMeaning.TurnMeans` | vtest/vtest_server.c:598-645 | one turn, for its clients: who stays, who comes after them, that everybody else is gone, and that the loop ends exactly if the renderer cannot be started or the last client left a server that is not to start over |
| `VtestLoop.VtestProcess.DispatchClients` | vtest/vtest_server.c:487-511 | the loop, removing while iterating |
| `VtestLoop.VtestProcess.ForkEach` | vtest/vtest_server.c:513-551 | the fork loop, parent, child and failure |
| `VtestLoop.VtestProcess.Tidy` | vtest/vtest_server.c:575-596 | the tidy loop |
| `VtestLoop.VtestProcess.Cleanup` | vtest/vtest_renderer.c:462-504 | cleanup's context part |
| `VtestLoop.VtestProcess.RunTurn` | vtest/vtest_server.c:608-642 | the loop body computes the reference and keeps the loop head's invariant |
| `VtestLoop.VtestProcess.Run` | vtest/vtest_server.c:598-645 | the loop, for every sequence of decisions of the environment |

## Left out

- 64-bit wrap of sync values' deadlines and 32-bit wrap of sync, context and resource ids: a run long enough to wrap is not modelled.
- vtest sync reads, resources, transfers, capability queries and protocol versions: they add no shared state of this kind.
- The byte formats of vtest messages: sync waits and submits start from well-formed decoded arguments.
- Socket, poll, signalfd and eventfd mechanics, and processes that end through `exit(1)` or a failing assertion.
- Process mode of `render_virgl.c`, where each worker has its own copy and the mutexes are compiled out.
- What virglrenderer and its sync threads do inside a dispatch; only their fence callbacks and their join are steps.
- Failing to drain the SIGCHLD descriptor, which ends the server's main loop before reaping.
- RenderWorker.WaitTurn: the wait ends because nothing forks during teardown; that a killed process exits in finite time is taken for granted.
- Iov.ReadFromIovec: memory and the buffer are separate arrays; the 64-bit sum of segment lengths is not modelled.
- GbmTransfer.Transfer: requires offsets and sizes below 2^32 and rows inside the image, as the caller's checks and the image sizes give; the plane loop around it, with its subsampling, is not modelled.
- BlobTransfer.TransferBlob: memory outside the resource is not modelled, so the model ends, and says so, at a row that leaves it.
- DecodeObjects.HandleLocal: words are what a decoder may look at; what the renderer then does with the arguments is any function of its state and of what was handed on.
- VtestRuns.StepInv: one clock value per batch or fence callback, where the program reads the clock again at each raising signal.
- FenceTable.PendingKept: a wait that fails for another reason than a timeout on a fence that is still pending, upon which the program retires the fence, is not modelled.
- Floating-point values in packets: kept as bit patterns.
- FenceTable.DescriptorsAccounted: the hung-fence log message and its clock are not modelled, and after cleanup the stale last-signalled number counts as forgotten, since only a new initialisation may follow.
- VtestServer.RendererUpIffActive: closing the clients' sockets and freeing the client structs is not modelled.
- GL, EGL, Vulkan, video, shader translation, formats and the winsys: their effects live in libraries outside the repository or are tables.
