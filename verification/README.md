# ARMFlex softcore: a Dafny model of its memory hierarchy

The ARMFlex softcore runs many hardware threads on one pipeline. Their memory lies behind
non-blocking write-back caches, TLBs, and a memory-management unit that keeps page-table sets in
DRAM and moves pages in and out on behalf of a host. This project models that hierarchy, and the
pieces of the pipeline that lean on it, and proves what they promise. `dafny verify dfyconfig.toml`
checks everything.

## What is modelled

- **The cache** (`CacheEntry`, `Databank`, `Cache`, `CacheInvariant`, `CacheRefinement`, `CacheRuns`,
  `CacheGuards`, `CacheGuardStates`, `CachedMemory`). One databank request is one atomic step; misses
  and writebacks enter queues, a merger moves them to one backend queue, a DRAM serves its head, and
  its answers meet the misses again in order. The theorem: over every run this is one flat memory.
  What a step needs from its surroundings is stated as guards; for each branch of each guard
  `CacheGuards` says exactly when a step that breaks it is harmless anyway, and `CacheGuardStates`
  gives a state, reached from reset, in which it is not. (An all-ones write that misses is judged by
  what is seen of all blocks; the old data answered beside it is not looked at.) `CachedMemory` is the
  same machine as a class that changes its bank array and queues in place.
- **The two-stage databank** (`DatabankPipeline`): a request reads its row before its predecessor's
  write lands; the forwarding register makes up for it.
- **Replacement** (`TreeLru`, `MatrixLru`, `SetLru`): the tree and matrix cores over whole histories,
  and the memory that keeps the bits of all sets.
- **Page eviction** (`PageDeletor`, `Eviction`, `EvictionSides`, `EvictionDepth`): the ten-state machine,
  and, clock by clock, that machine flushing a page through request register, writeback queue and
  adaptor queue; the machine between the instruction and the data cache; and how deep the adaptor's
  queue has to be.
- **The page table** (`PageTypes`, `PageTable`, `PageTableSetBuffer`, `Handlers`, `TlbHandlers`,
  `Mmu`, `PageTableClock`, `PageTableRuns`, `LostTransactions`, `PageTableClients`): sets of sixteen
  entries as a map from tags to entries, their 1536-bit layout and the three-beat buffer, the two
  host-driven handlers, page walker and TLB writeback; the handlers, the deletor and the table on one
  clock, and exactly when the table is the map of the finished transactions; and all four clients on
  one table.
- **The datapath** (`Words`, `Bitfield`, `AddWithCarry`): bitfield instructions, flags, conditions and
  conditional selects against the Arm ARM (DDI 0487, sections C1.2.4 and C6.2).
- **Between pipeline and cache** (`CacheInterface`, `InterfaceOverflow`, `CacheFlushing`,
  `FlushPermission`, `ByteLanes`, `LoadedRegister`): metadata of hits, misses and refills, the flush
  permission, the byte lanes of loads and stores, and what of a load reaches the register.
- **Plumbing and threads** (`RoundRobin`, `FlushQueue`, `ThreadTokens`, `FetchAddress`, `CommitUnit`):
  the fair arbiter, the ring-buffer queue, one instruction per thread, the address it is fetched from,
  and multi-cycle commit.

`Arithmetic`, `Encoders` and `Wrappers` are shared helpers.

A module of the source that only computes is a function here; one with registers is a class whose
methods advance it by one clock (or one transfer) and are proved against a function of the old
registers. Don't-care fields of a flush (write mask, stored item) are zero or the request's own tag.
Rows, ways and tree heights are arbitrary numbers, not only powers of two, unless a theorem needs it.

## Guards of the flat-memory theorem

The code does not enforce these alone; they are preconditions of a step (`Cache.Guard`, `Cache.Shape`).

- (a) A block whose read is with the backend does not leave the cache. For flushes the deletor keeps
  this by asking for permission first. For the victim of a refill nothing in the source keeps it: the
  replacement does not look at the refill queue (`CacheGuards.RefillHarmlessIff`,
  `CacheGuardStates.RefillPushesWaitingStale`).
- (b) A read is not sent to the backend while a writeback of its block waits
  (`src/main/scala/armflex_cache/BaseCache.scala:155` arbitrates the two queues round-robin).
- (c) A pipeline write mask is not all ones. `ByteLanes.StoreMaskNeverFull` shows that the memory unit
  keeps this.
- (d) The bank does not have exactly two sets (`src/main/scala/armflex_cache/Databank.scala:184`).

## What turned out not to hold, and exactly when it does

- Two sets: row and tag no longer identify a block (`CacheEntry.SeparatedIff`).
- A refill directly followed by a write to its block writes way zero (`DatabankPipeline.RefillThenWriteIff`).
- Two uses of one set in consecutive cycles: the first is forgotten by the replacement bits
  (`SetLru.FreshIff`, `SetLru.FirstUseForgotten`).
- The adaptor's empty flag, and with it the deletor's report, is right in every run exactly when the
  adaptor's queue has at least two entries (`EvictionDepth.SoundIff`).
- The page table is the map of the finished transactions, and each handler's copy of its set is
  current, exactly in the runs without a harmful clock (`PageTableClock.ClockExactIff`,
  `PageTableRuns.RunExactIff`); handlers that run one at a time have none
  (`PageTableRuns.OneAtATime`). Runs from both handlers idle in which a finished eviction or a
  finished miss reply is lost are in `LostTransactions`.
- Evicting an absent page, or writing back an entry the table does not hold, hits slot zero of the set
  (`PageTable.EvictTouchesNoOtherIff`, `PageTable.WritebackTouchesNoOtherIff`). For the eviction the
  source has an assertion in this place.
- Metadata is lost when a miss meets a full second queue (`CacheInterface.MatchedBreaksIff`,
  `CacheInterface.AllPairedIff`, `InterfaceOverflow.MissesOutgrow`), and the pending count reads zero
  when exactly as many requests are held as it has values (`CacheFlushing.FullCountGranted`,
  `CacheFlushing.AloneBelowIff`): at a power-of-two capacity that is a full queue, at the memory
  unit's capacity of 7 it is one more.
- The round-robin rotation is right only for a power-of-two number of threads
  (`RoundRobin.GrantsRightIff`); otherwise a thread that does not exist is granted.
- The test for pairs that cross a block compares offsets, so pairs always take two accesses
  (`ByteLanes.PairsAlwaysSplit`); the single access that is therefore never used would be right exactly
  under the condition of `ByteLanes.SingleAccessIff`.
- A base register updated by an access narrower than eight bytes keeps the low 32 bits of the address
  only (`CommitUnit.AddressKeptIff`), and a sign-extended narrow load loses its extension beyond 32
  bits, also into a 64-bit register, unless it is the immediate sign-extending word load
  (`LoadedRegister.ExtensionKeptIff`).
- An instruction dropped on a permission violation of its translation is never taken on again, so its
  thread stops for good; no other instruction is stuck (`ThreadTokens.StuckIff`). The source marks the
  place (`src/main/scala/armflex/LoadStore.scala:416-417`).
- The page offset of a fetch is taken from the thread presented one clock after the thread whose
  translation is answered (`src/main/scala/armflex/Fetch.scala:114`): the block is the right one
  exactly under the condition of `FetchAddress.FetchesOwnBlockIff`. The memory unit takes it from the
  next entry of its queue in the same way (`src/main/scala/armflex/LoadStore.scala:409`).

After a miss reply for a present page the TLB is told the message's entry, whatever the table holds; the
two agree if the entries do (`PageTable.TlbAgreesIff`).

Where comments and code disagree, the code is modelled: `PageDeletor` notifies the pipeline after the
message to the host, not before (`src/main/scala/armflex_mmu/peripheral/PageDeletor.scala:20-21`), and
`TLBWritebackHandler` prints its warning about a miss on a hit
(`src/main/scala/armflex_mmu/TLBWritebackHandler.scala:105-108`).

## Model

| member | source | states |
|---|---|---|
| CacheEntry.RefilledThenWritten | src/main/scala/armflex_cache/CacheEntry.scala:19-52 | after a refill and any number of masked writes an entry is hit by exactly the addresses of its tag, dirty exactly when some write had a mask bit, still the fetched block when clean, and each bit is the last one written there or else the fetched one |
| CacheEntry.Split | src/main/scala/armflex_cache/CacheEntry.scala:67-80 | tag and row rebuild the address they came from (one set, or three and more) |
| CacheEntry.SplitBack | src/main/scala/armflex_cache/CacheEntry.scala:67-80 | ... and an address rebuilt from a tag and a row splits into them again |
| CacheEntry.SeparatedIff | src/main/scala/armflex_cache/Databank.scala:183-186 | tag and row tell all blocks apart if and only if the bank does not have exactly two sets |
| Databank.HitMeansHeld | src/main/scala/armflex_cache/Databank.scala:202-214 | in a well-formed row the population-count hit holds exactly when some way holds the tag, and the one-hot encoder names that way |
| Databank.AccessKeepsRow | src/main/scala/armflex_cache/Databank.scala:279-333 | every request keeps each tag in at most one valid way and dirty entries valid |
| Databank.AnswerAfter | src/main/scala/armflex_cache/Databank.scala:279-333 | what the row answers for every tag after a request: only the requested tag and the displaced victim change |
| Databank.TouchedHolds | src/main/scala/armflex_cache/Databank.scala:257-259 | the replacement is told of a use exactly when a request other than a flush is served, with the way that holds the block afterwards |
| CacheInvariant.WritebackOf | src/main/scala/armflex_cache/Databank.scala:357-399 | a request writes back exactly when a dirty block leaves by flush or refill: once, under the block's own address, with the data the cache held |
| CacheInvariant.ViewAfter | src/main/scala/armflex_cache/Databank.scala:202-382 | for every block, the view (cache, else newest writeback, else DRAM) changes only by a hit write or a refill merge of that block |
| CacheInvariant.MergeReadFresh | src/main/scala/armflex_cache/BaseCache.scala:127-159 | a read that enters the backend behind the writes of its block is answered with the block's current value |
| CacheInvariant.MergeWriteSame | src/main/scala/armflex_cache/BaseCache.scala:144-158 | moving a writeback to the backend changes no block's value and no pending answer |
| CacheInvariant.DramSame | src/main/scala/armflex_cache/AXIDramController.scala:19-43 | serving the head of the backend queue changes no block's value and no pending answer |
| CacheInvariant.ServeKeepsInv | src/main/scala/armflex_cache/Databank.scala:202-399 | one databank request keeps the cache invariant: rows well formed, clean entries equal to memory, answers under way current |
| CacheRefinement.FlushStep | src/main/scala/armflex_cache/Databank.scala:375-382 | a flush removes the block and changes no block's view |
| CacheRefinement.RefillReply | src/main/scala/armflex_cache/BaseCache.scala:161-177 | a refill answers the view of its block with the pending write merged in |
| CacheRefinement.AnsweredOrMissed | src/main/scala/armflex_cache/Databank.scala:309-347 | no request is dropped: a load or store is answered at once, exactly when its block is cached, or joins the misses as it is |
| CacheRefinement.StepRefines | src/main/scala/armflex_cache/Databank.scala:202-382 | every guarded step of bank, queues and DRAM keeps the invariant, answers the view and changes it by the completed request alone |
| CacheRefinement.RunRefinesFlatMemory | src/main/scala/armflex_cache/BaseCache.scala:202-284 | over every admissible run cache, queues and DRAM are one flat memory executing the completed requests in completion order |
| CacheRefinement.ResetRunRefinesFlatMemory | src/main/scala/armflex_cache/BaseCache.scala:202-284 | the same from reset, where the flat memory is the initial DRAM |
| CacheRefinement.MissesAnsweredOnceInOrder | src/main/scala/armflex_cache/BaseCache.scala:161-177 | over every run the misses are refilled once each, in the order they missed; the rest is still queued |
| CacheRefinement.ResetRunKeepsCurrent | src/main/scala/armflex_cache/BaseCache.scala:161-177 | in every state reached from reset every answer on its way is what lies behind the cache, also for blocks cached in the meantime |
| CacheGuards.FlushHarmlessIff | src/main/scala/armflex_cache/Databank.scala:375-382 | guard (a), in every state with current answers: a flush is a step of the flat memory iff the block is not cached, not waited for, clean, or equal to memory |
| CacheGuards.RefillHarmlessIff | src/main/scala/armflex_cache/Databank.scala:368-372 | guard (a): a refill is a step of the flat memory iff it hits, or the block it displaces is not waited for, clean, or equal to memory |
| CacheGuards.FlushWhileWaitingIff | src/main/scala/armflex_cache/Databank.scala:375-382 | guard (a), in every state of the invariant: flushing a block with misses under way keeps all answers right iff those answers equal what the cache held |
| CacheGuards.RefillPushesWaitingIff | src/main/scala/armflex_cache/Databank.scala:368-372 | ... and a refill that displaces a block with misses behind it, iff the later answers for that block equal what the cache held of it |
| CacheGuards.ReadAheadIff | src/main/scala/armflex_cache/BaseCache.scala:155-158 | guard (b): a read sent past waiting writebacks is a step of the flat memory iff its block is cached or the requests already sent leave the block at its current value |
| CacheGuards.FullWriteHarmlessIff | src/main/scala/armflex_cache/Databank.scala:368-372 | guard (c): an all-ones write keeps the invariant in every state with current answers; all blocks are seen as the write leaves them iff it hits, or the entry it displaces is clean or equal to memory |
| CacheGuardStates.StatesReached | src/main/scala/armflex_cache/BaseCache.scala:202-284 | admissible runs from reset lead to each of the four states below |
| CacheGuardStates.ReadAheadStale | src/main/scala/armflex_cache/BaseCache.scala:155-158 | a state in which the round-robin merger lets a read overtake the writeback of its block and a stale block is delivered |
| CacheGuardStates.FlushWhileWaitingStale | src/main/scala/armflex_cache/Databank.scala:375-382 | a state in which a flush during an outstanding miss loses a completed write |
| CacheGuardStates.RefillPushesWaitingStale | src/main/scala/armflex_cache/Databank.scala:368-372 | a state in which a refill displaces a dirty block with a read under way, and the next answer is stale |
| CacheGuardStates.FullWriteLosesVictim | src/main/scala/armflex_cache/Databank.scala:368-372 | a state in which an all-ones write that misses loses the dirty block it displaces |
| CachedMemory.CachedMemory.constructor | src/main/scala/armflex_cache/BaseCache.scala:202-216 | after reset the cache stands for the given DRAM |
| CachedMemory.CachedMemory.Serve | src/main/scala/armflex_cache/Databank.scala:269-399 | one request updates one bank row in place and appends to the miss and writeback queues as decided |
| CachedMemory.CachedMemory.PipelineAccess | src/main/scala/armflex_cache/BaseCache.scala:237-250 | a load or store; when it completes at once it returns the block's view |
| CachedMemory.CachedMemory.FlushBlock | src/main/scala/armflex_cache/BaseCache.scala:252-255 | a flush leaves the block uncached and its view unchanged |
| CachedMemory.CachedMemory.Refill | src/main/scala/armflex_cache/BaseCache.scala:257-260 | a refill completes the oldest miss with the view of its block and the pending write merged |
| CachedMemory.CachedMemory.SendRead | src/main/scala/armflex_cache/BaseCache.scala:283-288 | the oldest miss moves to the refill queue and its read to the backend |
| CachedMemory.CachedMemory.SendWrite | src/main/scala/armflex_cache/BaseCache.scala:144-158 | the oldest writeback moves to the backend |
| CachedMemory.CachedMemory.ServeDram | src/main/scala/armflex_cache/AXIDramController.scala:19-43 | the DRAM answers or executes the oldest backend request |
| DatabankPipeline.ForwardingExact | src/main/scala/armflex_cache/Databank.scala:236-247 | on a stale row plus the write register a request gets the same hit, data, dirty bit, way and writeback as on the current row |
| DatabankPipeline.RegisterExact | src/main/scala/armflex_cache/Databank.scala:249-255 | the write register says exactly how the row a request has just written differs from the row its successor has read |
| DatabankPipeline.CycleExact | src/main/scala/armflex_cache/Databank.scala:173-347 | one cycle does to the bank what the sequential bank does with the request in the second stage |
| DatabankPipeline.PipelineRefinesSequential | src/main/scala/armflex_cache/Databank.scala:173-347 | over every stream of requests, with or without gaps and chains of forwarding, the two-stage bank decides and leaves what the sequential bank does |
| DatabankPipeline.RefillThenWriteIff | src/main/scala/armflex_cache/Databank.scala:236-247 | a refill miss followed at once by a changing write to its block lands right iff the refill went to way zero; otherwise the block becomes valid twice |
| DatabankPipeline.DataBankManager.constructor | src/main/scala/armflex_cache/Databank.scala:140-165 | reset: empty bank and stage registers |
| DatabankPipeline.DataBankManager.Clock | src/main/scala/armflex_cache/Databank.scala:173-347 | one clock of the stage registers and the bank array; the outcome is the sequential bank's |
| TreeLru.UpdateEncoding | src/main/scala/armflex_cache/LRUCore.scala:92-109 | the in-place update of the bit vector is the recursive specification |
| TreeLru.VictimReadsPath | src/main/scala/armflex_cache/LRUCore.scala:80-88 | the victim's bits are those at the explicit pre-order positions on its way down |
| TreeLru.UseTurnsPath | src/main/scala/armflex_cache/LRUCore.scala:93-107 | a use turns the bits at the positions on the way's path away from it, and no other |
| TreeLru.EachWayOncePerRound | src/main/scala/armflex_cache/LRUCore.scala:80-107 | from any encoding of any height, feeding the victim back makes every way the victim exactly once in a round of 2^h steps |
| TreeLru.RoundReturns | src/main/scala/armflex_cache/LRUCore.scala:80-107 | ... and the round ends in the starting encoding |
| TreeLru.ProtectedForHeightUses | src/main/scala/armflex_cache/LRUCore.scala:90-107 | after a use of a way, m uses of other ways can make it the victim if and only if m is at least the tree height |
| TreeLru.OtherUse | src/main/scala/armflex_cache/LRUCore.scala:93-105 | a use of another way turns at most one more ancestor towards a way |
| MatrixLru.Recover | src/main/scala/armflex_cache/LRUCore.scala:117-129 | the counter loop rebuilds the matrix whose entry (i, j) is the stored bit at its position |
| MatrixLru.Flatten | src/main/scala/armflex_cache/LRUCore.scala:155-165 | the counter loop stores every entry off the diagonal at its position |
| MatrixLru.Access | src/main/scala/armflex_cache/LRUCore.scala:115-168 | one access on the stored bits: the victim of the matrix, and the bits of the updated matrix |
| MatrixLru.FlatIndexInjective | src/main/scala/armflex_cache/LRUCore.scala:119-129 | different entries of the matrix have different positions among the stored bits |
| MatrixLru.EncodingLossless | src/main/scala/armflex_cache/LRUCore.scala:117-129 | n(n-1) stored bits determine the matrix and the other way round |
| MatrixLru.BitMeansMoreRecent | src/main/scala/armflex_cache/LRUCore.scala:131-147 | after any history bit (i, j) is set exactly when way i was used more recently than way j |
| MatrixLru.VictimIsLeastRecent | src/main/scala/armflex_cache/LRUCore.scala:149-153 | after any history the victim is the least recently used way, and only that; never-used ways first, lowest number first |
| SetLru.SetLru.constructor | src/main/scala/armflex_cache/LRUCore.scala:14-36 | the bit memory and the address register |
| SetLru.SetLru.Clock | src/main/scala/armflex_cache/LRUCore.scala:22-49 | one clock: bits presented, bits written back, bits read for the next cycle |
| SetLru.FreshIff | src/main/scala/armflex_cache/LRUCore.scala:36-49 | the bits presented next are the set's unless the same set is looked up while this use changes them |
| SetLru.SetsIndependent | src/main/scala/armflex_cache/LRUCore.scala:36-49 | in runs without such neighbours every set's bits are those of all its own uses in order |
| SetLru.FirstUseForgotten | src/main/scala/armflex_cache/LRUCore.scala:36-49 | of two uses of one set in consecutive cycles the first is forgotten |
| PageDeletor.PageDeletor.constructor | src/main/scala/armflex_mmu/peripheral/PageDeletor.scala:28-33 | reset state of the ten-state machine |
| PageDeletor.PageDeletor.Clock | src/main/scala/armflex_mmu/peripheral/PageDeletor.scala:56-200 | one clock of state, page and both counters, and the completion pulse |
| PageDeletor.DeletionFollowsProtocol | src/main/scala/armflex_mmu/peripheral/PageDeletor.scala:142-199 | a deletion does exactly, in this order: permission, TLB flush, start message, the 64 block flushes from the lowest up, end message, completion; messages carry the TLB's modified bit; one completion pulse for a modified page, two for an unmodified one |
| PageDeletor.DeletionOnSide | src/main/scala/armflex_mmu/peripheral/PageDeletor.scala:39-128 | in every deletion permission, TLB flush, all block flushes and completion go to the instruction side if the page's permission is 2, else to the data side |
| PageDeletor.EveryByteFlushed | src/main/scala/armflex_mmu/peripheral/PageDeletor.scala:75-95 | every byte of the 4096 of the page lies in a block that is flushed, on that side |
| PageDeletor.DeletionTakes | src/main/scala/armflex_mmu/peripheral/PageDeletor.scala:142-193 | a deletion is at its end exactly after the clock of its request, 75 clocks, and those in which it had to wait |
| EvictionSides.EvictDoneOnItsSide | src/main/scala/armflex_mmu/peripheral/PageDeletor.scala:79-128 | with both caches on the clock: at the reported end of an eviction the page is out of the cache its permission names, and in the DRAM behind that one |
| EvictionSides.OtherSideUntouched | src/main/scala/armflex_mmu/peripheral/PageDeletor.scala:94-95 | the other cache gets no flush, and goes on with what its pipeline does |
| EvictionSides.OtherFlagIgnored | src/main/scala/armflex_mmu/peripheral/PageDeletor.scala:79-115 | the deletor's clock does not depend on the other side's signals |
| Eviction.MovesKeep | src/main/scala/armflex_cache/AXIDramController.scala:19-43 | while the page is flushed, queue moves and flushes keep every block's view, and only the flushed block leaves |
| Eviction.DrainStep | src/main/scala/armflex_mmu/peripheral/PageDeletor.scala:97-104 | each clock after the last flush brings the queues one clock closer to empty unless the backend queue is backed up |
| Eviction.EmptyFlagSound | src/main/scala/armflex_mmu/peripheral/PageDeletor.scala:106-115 | the empty flag read in the waiting state means that nothing of the page is left above the DRAM |
| Eviction.ClockKeepsInv | src/main/scala/armflex_mmu/peripheral/PageDeletor.scala:130-193 | every clock of deletor, request register, writeback queue and adaptor keeps the system invariant |
| Eviction.EvictDoneMeansPageInDram | src/main/scala/armflex_mmu/peripheral/PageDeletor.scala:97-124 | in every run, when the end of an eviction is reported all 64 blocks are out of the cache, no writeback is under way and DRAM holds the page as it was at the grant |
| Eviction.DramHoldsPageOfGrant | src/main/scala/armflex_mmu/peripheral/PageDeletor.scala:97-124 | ... each of the 64 blocks from the frame on with the value seen in the clock of the grant |
| EvictionDepth.ShallowQueueMisleads | src/main/scala/armflex_cache/AXIDramController.scala:19-20 | with a one-entry adaptor queue a run from reset in which the end of an eviction is reported although DRAM does not hold the page |
| EvictionDepth.SoundIff | src/main/scala/armflex_cache/AXIDramController.scala:19-20 | the report is sound in every run iff the adaptor queue has at least two entries |
| PageTable.SetsSameOrDisjoint | src/main/scala/armflex_mmu/MMU.scala:66-79 | two tags' 192-byte sets are identical or disjoint; identical exactly when the address spaces and nine page-number bits agree; all within 36-bit memory |
| PageTable.SetAddressExact | src/main/scala/armflex_mmu/MMU.scala:77-78 | a tag's set lies at its nine page-number bits above the address-space id, times 192 bytes |
| PageTable.TargetIndex | src/main/scala/armflex_mmu/peripheral/PageTableSetBuffer.scala:92-110 | a set with room offers its first free slot |
| PageTable.LookupExact | src/main/scala/armflex_mmu/peripheral/PageTableSetBuffer.scala:136-151 | with unique tags the lookup hits exactly when a slot holds the tag, and names that slot; a miss names slot zero |
| PageTable.AnswerAfterWrite | src/main/scala/armflex_mmu/peripheral/PageTableSetBuffer.scala:112-134 | a write or flush of one slot changes the set's answer for the written tag and the slot's former tag only, and keeps tags unique |
| PageTable.StoreExact | src/main/scala/armflex_mmu/peripheral/PageTableSetBuffer.scala:112-160 | the same for the whole table seen as a map; sets keep only their own tags |
| PageTable.MissReplyRefinesMap | src/main/scala/armflex_mmu/QEMUMissReplyHandler.scala:71-138 | a miss reply leaves a present key alone and else adds it, in a free slot or in place of the replacement victim only |
| PageTable.WrittenSlotProtected | src/main/scala/armflex_mmu/peripheral/PageTableSetBuffer.scala:112-134 | m writes of other slots can make a slot that was just written the replacement victim iff m is at least four |
| PageTable.EvictExact | src/main/scala/armflex_mmu/QEMUPageEvictHandler.scala:43-63 | an eviction removes whatever the looked-up slot holds |
| PageTable.EvictRemovesOne | src/main/scala/armflex_mmu/QEMUPageEvictHandler.scala:43-63 | the eviction of a present key removes exactly that key |
| PageTable.EvictTouchesNoOtherIff | src/main/scala/armflex_mmu/QEMUPageEvictHandler.scala:46-63 | an eviction leaves all other keys alone iff its key is present or slot zero of its set is free |
| PageTable.WritebackRefinesMap | src/main/scala/armflex_mmu/TLBWritebackHandler.scala:62-76 | a writeback that hits changes one entry; one that misses takes slot zero |
| PageTable.WritebackTouchesNoOtherIff | src/main/scala/armflex_mmu/TLBWritebackHandler.scala:62-76 | a writeback leaves all other keys alone iff it hits or slot zero of its set is free |
| PageTableSetBuffer.TagLayout | src/main/scala/armflex/SoftwareBundle.scala:41-46 | a tag is 67 bits, packed and unpacked without loss in both directions |
| PageTableSetBuffer.PteLayout | src/main/scala/armflex/SoftwareBundle.scala:59-63 | an entry is 27 bits, packed and unpacked without loss in both directions |
| PageTableSetBuffer.TagPlaces | src/main/scala/armflex/SoftwareBundle.scala:41-46 | the places of the fields in a tag's bits |
| PageTableSetBuffer.PtePlaces | src/main/scala/armflex/SoftwareBundle.scala:59-63 | the places of the fields in an entry's bits |
| PageTableSetBuffer.PackPlaces | src/main/scala/armflex_mmu/peripheral/PageTableSetBuffer.scala:19-30 | the places of replacement bits, valid bits, entries and tags in the 1536 bits |
| PageTableSetBuffer.BeatPlaces | src/main/scala/armflex_mmu/peripheral/PageTableSetBuffer.scala:80-90 | the three beats are the set's bits in order |
| PageTableSetBuffer.UnpackPack | src/main/scala/armflex_mmu/peripheral/PageTableSetBuffer.scala:19-30 | a set whose fields fit survives its 1536-bit form |
| PageTableSetBuffer.PackUnpack | src/main/scala/armflex_mmu/peripheral/PageTableSetBuffer.scala:19-30 | every 1536-bit pattern is a set, and no bit is lost |
| PageTableSetBuffer.PageTableSetBuffer.constructor | src/main/scala/armflex_mmu/peripheral/PageTableSetBuffer.scala:66-75 | the idle buffer |
| PageTableSetBuffer.PageTableSetBuffer.Clock | src/main/scala/armflex_mmu/peripheral/PageTableSetBuffer.scala:68-183 | one clock of the beat counter, the buffer and its state |
| PageTableSetBuffer.MoveInExact | src/main/scala/armflex_mmu/peripheral/PageTableSetBuffer.scala:154-176 | three beats, with any gaps, fill the buffer in order and return it to idle |
| PageTableSetBuffer.MoveOutExact | src/main/scala/armflex_mmu/peripheral/PageTableSetBuffer.scala:80-90 | three beats taken, with any gaps, are the buffer in order, which stays |
| PageTableSetBuffer.SetThroughBuffer | src/main/scala/armflex_mmu/peripheral/PageTableSetBuffer.scala:112-183 | a set moved in, changed at one entry and moved out leaves as the bits of the changed set |
| Handlers.MissKeepsInv | src/main/scala/armflex_mmu/QEMUMissReplyHandler.scala:94-144 | every clock of the nine-state handler keeps what its registers mean in each state |
| Handlers.QemuMissReplyHandler.constructor | src/main/scala/armflex_mmu/QEMUMissReplyHandler.scala:10-30 | the idle handler |
| Handlers.QemuMissReplyHandler.Clock | src/main/scala/armflex_mmu/QEMUMissReplyHandler.scala:55-144 | one clock of the handler's registers |
| Handlers.MissReplyTransaction | src/main/scala/armflex_mmu/QEMUMissReplyHandler.scala:94-144 | a whole miss reply fetches one set and then, for an absent tag, has the victim of a full set deleted before it stores the set with the new entry; a present tag only leads to the word to the TLB |
| Handlers.MissGetsOn | src/main/scala/armflex_mmu/QEMUMissReplyHandler.scala:94-144 | a busy handler stays as it is in the clocks in which what it waits for has not come, and gets nearer to its end in all others |
| Handlers.EvictKeepsInv | src/main/scala/armflex_mmu/QEMUPageEvictHandler.scala:71-105 | every clock of the seven-state handler keeps what its registers mean in each state |
| Handlers.QemuPageEvictHandler.constructor | src/main/scala/armflex_mmu/QEMUPageEvictHandler.scala:11-36 | the idle handler |
| Handlers.QemuPageEvictHandler.Clock | src/main/scala/armflex_mmu/QEMUPageEvictHandler.scala:43-105 | one clock of the handler's registers |
| Handlers.EvictionTransaction | src/main/scala/armflex_mmu/QEMUPageEvictHandler.scala:71-105 | a whole eviction fetches one set, has the page of the looked-up slot deleted, then stores the set without that slot |
| Handlers.EvictGetsOn | src/main/scala/armflex_mmu/QEMUPageEvictHandler.scala:71-105 | the same for the evict handler |
| TlbHandlers.PageWalker.constructor | src/main/scala/armflex_mmu/PageWalker.scala:15-54 | the idle walker |
| TlbHandlers.PageWalker.Clock | src/main/scala/armflex_mmu/PageWalker.scala:71-135 | one clock of the walker and the message it sends |
| TlbHandlers.WalksAnswered | src/main/scala/armflex_mmu/PageWalker.scala:76-135 | over every run, however the table changes, each walk fetches once and is answered once, in order: the entry the table had at the fetch, to the TLB that asked, or a page fault exactly when there was none |
| TlbHandlers.TlbWritebackHandler.constructor | src/main/scala/armflex_mmu/TLBWritebackHandler.scala:8-37 | the idle handler |
| TlbHandlers.TlbWritebackHandler.Clock | src/main/scala/armflex_mmu/TLBWritebackHandler.scala:46-101 | one clock of the five-state handler |
| TlbHandlers.WritebacksApplied | src/main/scala/armflex_mmu/TLBWritebackHandler.scala:46-101 | over every run the handler finishes the entries offered while it is idle, each once, unchanged and in order, and the table changes by exactly one writeback for each |
| TlbHandlers.TableOfOffered | src/main/scala/armflex_mmu/TLBWritebackHandler.scala:46-101 | in terms of the inputs: the table is that of the entries offered, but for the one in work |
| TlbHandlers.WritebackGetsOn | src/main/scala/armflex_mmu/TLBWritebackHandler.scala:78-101 | a busy writeback handler waits for its set's way in and out only, and gets nearer to its end in all other clocks |
| TlbHandlers.SentWhenReady | src/main/scala/armflex_mmu/PageWalker.scala:99-127 | a walker's message leaves only when the TLB it names, or the host for a fault, is ready |
| TlbHandlers.WalkGetsOn | src/main/scala/armflex_mmu/PageWalker.scala:109-135 | a busy walker waits for its set and its receiver only, and gets nearer to its end in all other clocks |
| Mmu.AcceptingKeepsOwnership | src/main/scala/armflex_mmu/MMU.scala:228-236 | an accepted deletion request makes its sender the one handler that waits |
| Mmu.ClockKeepsInv | src/main/scala/armflex_mmu/MMU.scala:207-236 | every clock of both handlers, deletor, cache and table keeps the system invariant |
| Mmu.AtMostOneWaits | src/main/scala/armflex_mmu/MMU.scala:211-236 | in every run at most one handler waits for a deletion, and the deletor works on that handler's victim |
| Mmu.ContinuesOnlyAfterOwnDeletion | src/main/scala/armflex_mmu/MMU.scala:211-213 | although the completion pulse can come twice and goes to both, a handler continues only with its own victim deleted and in DRAM |
| PageTableClock.ClockApplies | src/main/scala/armflex_mmu/QEMUMissReplyHandler.scala:94-144 | in a clock in which neither handler stores a set the other fetches or works on, the table changes by the map steps finished in it; keys stay unique and in their own sets; each handler goes on to hold its set as it is |
| PageTableClock.ClockExactIff | src/main/scala/armflex_mmu/QEMUMissReplyHandler.scala:94-144 | a clock does that iff neither disturbs the other, or only the evict handler stores and its copy is unchanged or the miss handler is leaving on a hit, or both store into slot zero the entry the removal leaves there anyway |
| PageTableRuns.RunExactIff | src/main/scala/armflex_mmu/MMU.scala:161-213 | over every run: every clock takes the steps of its transactions and keeps both copies current iff no clock is harmful in that sense |
| PageTableRuns.TableFollowsTransactions | src/main/scala/armflex_mmu/MMU.scala:161-213 | over every run without a harmful clock the table is the starting table with every finished miss reply and eviction applied as a map step, in order, and stays well formed |
| PageTableRuns.OneAtATime | src/main/scala/armflex_mmu/MMU.scala:182-213 | in particular over every run in which the handlers run one at a time the table is the map of the finished transactions |
| PageTableRuns.WalkFindsMap | src/main/scala/armflex_mmu/MMU.scala:155-156 | ... so a walk finds exactly what those transactions left, in the one slot that holds the tag |
| PageTableRuns.MissHandlerStoresReply | src/main/scala/armflex_mmu/QEMUMissReplyHandler.scala:71-138 | ... a miss handler that finishes its store makes exactly the map's miss-reply step |
| PageTableRuns.MissHandlerDeletesDisplaced | src/main/scala/armflex_mmu/QEMUMissReplyHandler.scala:112-128 | ... the page it waits to have deleted is the one the map displaces |
| PageTableRuns.MissHandlerKeepsPresent | src/main/scala/armflex_mmu/QEMUMissReplyHandler.scala:105-111 | ... it goes on to insert exactly when the key is absent |
| PageTableRuns.EvictHandlerStoresRemoval | src/main/scala/armflex_mmu/QEMUPageEvictHandler.scala:59-104 | ... an evict handler that finishes its store makes exactly the map's eviction step |
| LostTransactions.EvictionLost | src/main/scala/armflex_mmu/QEMUMissReplyHandler.scala:71-138 | when the evict handler stores a set of which the miss handler is about to store its copy, the finished eviction is lost |
| LostTransactions.ReplyLost | src/main/scala/armflex_mmu/QEMUPageEvictHandler.scala:43-63 | ... and the other way round the finished miss reply |
| LostTransactions.RunLosesEviction | src/main/scala/armflex_mmu/MMU.scala:161-236 | a run of the whole unit from both handlers idle in which an eviction and then a miss reply finish, and the evicted page is in the table |
| LostTransactions.RunLosesReply | src/main/scala/armflex_mmu/MMU.scala:161-236 | a run from both handlers idle in which a miss reply and then an eviction finish, and the inserted page is not in the table |
| PageTableClients.TableFollowsClients | src/main/scala/armflex_mmu/MMU.scala:155-167 | with the TLB writeback as a third writer: over every run in which no handler stores a set another one fetches or works on, the table is that of all finished transactions in order |
| PageTableClients.FinishedAreOffered | src/main/scala/armflex_mmu/MMU.scala:155-167 | over every run the transactions finished are, of each kind, the messages that met an idle handler, each once, unchanged and in order, but for the one in work |
| PageTableClients.WalksSeeClients | src/main/scala/armflex_mmu/PageWalker.scala:76-135 | ... and the walker answers every walk once, in order, with what the transactions finished before its fetch have left |
| Bitfield.RotatedBit | src/main/scala/armflex/Execute.scala:110-118 | the shared rotate moves bit i + r, modulo the width, to bit i |
| Bitfield.MasksDecoded | src/main/scala/armflex/Execute.scala:249-312 | in valid encodings the bit-mask decoder yields a run of imms + 1 ones rotated by immr, and imms - immr + 1 ones modulo the width |
| Bitfield.BitfieldIsArm | src/main/scala/armflex/Execute.scala:134-179 | for every valid encoding, both widths and all operands UBFM, SBFM and BFM leave the register as the instructions are defined |
| Bitfield.ShiftRightDivides | src/main/scala/armflex/Execute.scala:134-179 | UBFM as logical shift right divides by a power of two |
| Bitfield.ShiftLeftMultiplies | src/main/scala/armflex/Execute.scala:134-179 | UBFM as shift left multiplies by a power of two modulo the width |
| AddWithCarry.AddExact | src/main/scala/armflex/Execute.scala:70-107 | the adder's result and all four flags in terms of the unsigned and the signed sum |
| AddWithCarry.HalfExact | src/main/scala/armflex/Execute.scala:70-107 | the two operand widths are 32 and 64 bits |
| AddWithCarry.SubtractExact | src/main/scala/armflex/Execute.scala:536-541 | result and flags of a subtract or compare of either width in terms of the operands |
| AddWithCarry.ConditionAfterCompare | src/main/scala/armflex/Execute.scala:42-68 | after a subtract or compare each of the sixteen conditions holds exactly when the relation it names holds between the operands |
| AddWithCarry.SelectExact | src/main/scala/armflex/Execute.scala:542-547 | the conditional selects write the first operand, or the second unchanged, incremented, inverted or negated, modulo the width |
| CacheInterface.DoubleLatencyQueue.constructor | src/main/scala/util/Queues.scala:14-31 | both queues empty |
| CacheInterface.DoubleLatencyQueue.Request | src/main/scala/util/Queues.scala:36-37 | a request's metadata is taken if and only if the first queue has room |
| CacheInterface.DoubleLatencyQueue.Answer | src/main/scala/util/Queues.scala:39-57 | a hit pops the first queue, a miss moves its head to the second, a refill pops the second |
| CacheInterface.AnswersPaired | src/main/scala/armflex/MemoryInterface.scala:113-128 | composed with the cache, for every order of hits, misses and refills each answer is delivered with the metadata of the very request it answers, also among requests that differ in their metadata only, while the misses fit the second queue |
| CacheInterface.AllPairedIff | src/main/scala/armflex/MemoryInterface.scala:113-128 | in a run from reset until all misses are answered, every answer has its own metadata iff the outstanding misses never outgrew the second queue |
| InterfaceOverflow.MissesOutgrow | src/main/scala/util/Queues.scala:45-57 | for any two metadata a run from reset with a second queue of one entry in which both requests miss, both are refilled, and an answer comes without its metadata |
| CacheInterface.RefillsInMissOrder | src/main/scala/util/Queues.scala:45-57 | over every run in which the misses fit, the metadata refills deliver, then that still in the second queue, is what was there at the start, then that of the misses, in order |
| CacheInterface.MatchedBreaksIff | src/main/scala/util/Queues.scala:45-48 | an event keeps the two queues equal to the requests waiting for a first answer and for a refill, metadata included, iff it is not a miss answered while the second queue is full |
| CacheInterface.QueuesBounded | src/main/scala/util/Queues.scala:27-33 | over every run no queue holds more than its capacity, and a request is refused exactly when the first queue is full |
| CacheInterface.IssuedAreAnsweredOrHeld | src/main/scala/util/Queues.scala:59-60 | the requests issued are, as a multiset, those answered plus those in the two queues |
| CacheInterface.IssuedMinusAnswered | src/main/scala/util/Queues.scala:59-60 | issued minus answered requests is the number of entries held |
| CacheFlushing.CacheFlushingController.constructor | src/main/scala/armflex/MemoryInterface.scala:145-155 | the idle controller |
| CacheFlushing.CacheFlushingController.Clock | src/main/scala/armflex/MemoryInterface.scala:156-182 | one clock of the grant handshake: granted exactly when asked while completing and nothing is pending |
| CacheFlushing.QuietKeptIff | src/main/scala/armflex/MemoryInterface.scala:162-170 | a step keeps requests and flushes apart iff it does not grant while the truncated pending count misleads |
| CacheFlushing.MisleadsOnlyFull | src/main/scala/util/Queues.scala:24-60 | the truncated count misleads only when the entries held fill its range, which is at least the capacity |
| CacheFlushing.FlushesAlone | src/main/scala/armflex/MemoryInterface.scala:145-182 | over every run that holds fewer requests than the pending count can tell apart, pairs that send a second access after the stop included, no request is under way while the MMU flushes |
| CacheFlushing.PermissionLasts | src/main/scala/armflex/MemoryInterface.scala:171-182 | over every run: from a grant until the MMU says it is done transactions are stopped and no request of the pipeline is in or before the cache, nor can one come in |
| CacheFlushing.StopEndsIff | src/main/scala/armflex/MemoryInterface.scala:171-182 | ... and the stop ends in a clock exactly if the MMU says so in it |
| CacheFlushing.AskedStops | src/main/scala/armflex/MemoryInterface.scala:156-182 | from the clock in which the MMU asks an idle controller transactions are stopped until it says it is done |
| CacheFlushing.StoppedWhenAsked | src/main/scala/armflex/MemoryInterface.scala:156-161 | there is no stop without such a clock |
| CacheFlushing.StopEndsAfterGrant | src/main/scala/armflex/MemoryInterface.scala:162-177 | a stop ends only with the MMU's word after a grant |
| FlushPermission.PermissionMeansQuiet | src/main/scala/armflex/LoadStore.scala:634-643 | while the MMU flushes the cache has no miss, no answer and no read under way: it is quiet as the page deletion needs it, up to the capacities of its queues |
| CacheFlushing.AloneBelowIff | src/main/scala/armflex/MemoryInterface.scala:145-182 | runs from reset that hold fewer requests than a limit are safe iff the limit is within the range of the pending count |
| CacheFlushing.FullCountGranted | src/main/scala/armflex/MemoryInterface.scala:103-135 | from reset: with as many requests held as the count's range the permission is granted at once |
| RoundRobin.RoundRobinArbiter.constructor | src/main/scala/util/BaseModules.scala:109-116 | the pointer starts at zero |
| RoundRobin.RoundRobinArbiter.Clock | src/main/scala/util/BaseModules.scala:135-143 | one clock; for a power of two the first ready thread from the pointer is offered |
| RoundRobin.GrantsRightIff | src/main/scala/util/BaseModules.scala:118-138 | the first ready thread is granted for all pointers and ready vectors iff the number of threads is a power of two |
| RoundRobin.GrantsNoThread | src/main/scala/util/BaseModules.scala:118-138 | otherwise, right after the first grant, the number of no thread is granted although thread zero is ready |
| RoundRobin.OfferRepeated | src/main/scala/util/BaseModules.scala:142 | an offer not taken is repeated while the ready threads stay |
| RoundRobin.GrantedWithinRound | src/main/scala/util/BaseModules.scala:135-143 | a thread that stays ready is granted before more than its distance from the pointer other grants have been taken, however long offers wait |
| FlushQueue.HandshakesExact | src/main/scala/util/BaseModules.scala:185-200 | ready and valid follow the length, with this cycle's departure or arrival counted in the modes that see them |
| FlushQueue.RunIsFifo | src/main/scala/util/BaseModules.scala:153-209 | in all four modes and for every run what was accepted since the last flush is what was delivered followed by what is inside, within the capacity |
| FlushQueue.FlushQueue.constructor | src/main/scala/util/BaseModules.scala:162-166 | the empty ring |
| FlushQueue.FlushQueue.Move | src/main/scala/util/BaseModules.scala:174-183 | the pointers and the full bit keep the ring's contents: append, drop, both, or empty |
| FlushQueue.FlushQueue.Clock | src/main/scala/util/BaseModules.scala:168-208 | one clock of the ring has the handshakes, the output and the contents of the sequence |
| ByteLanes.StoreMaskNeverFull | src/main/scala/armflex/LoadStore.scala:484-500 | no store fills the mask of a block: the pipeline keeps guard (c) |
| ByteLanes.StoreExact | src/main/scala/armflex/LoadStore.scala:482-502 | an aligned store of 1, 2, 4 or 8 bytes writes exactly its bytes of memory |
| ByteLanes.LoadExact | src/main/scala/armflex/LoadStore.scala:561-616 | an aligned load returns the bytes at its addresses, zero or sign extended |
| ByteLanes.RoundTrip | src/main/scala/armflex/LoadStore.scala:482-616 | a load after a store returns the low bytes stored, extended |
| ByteLanes.LoadReturnsLastStore | src/main/scala/armflex/LoadStore.scala:482-616 | through the cache: in every admissible run from reset, with hits or misses, a load returns the low bytes of the last store to its place |
| LoadedRegister.ExtensionKeptIff | src/main/scala/armflex/LoadStore.scala:231 | the register receives the extended value iff the access is 8 bytes wide, or the exempt one, or its fill is zero; else the low 32 bits only |
| ByteLanes.PairsAlwaysSplit | src/main/scala/armflex/LoadStore.scala:381 | the misalignment test compares addresses within the block, so every aligned pair is done in two accesses |
| ByteLanes.PairRoundTrip | src/main/scala/armflex/LoadStore.scala:493-598 | a pair store then a pair load return both words, wherever the block boundary is |
| ByteLanes.PairFrame | src/main/scala/armflex/LoadStore.scala:493-502 | a pair store leaves all other bytes alone |
| ByteLanes.SingleAccessIff | src/main/scala/armflex/LoadStore.scala:503-507 | the single access foreseen for a pair equals two accesses iff the first register has no bits above the access size that the second word lacks |
| ThreadTokens.FetchUnitPC.constructor | src/main/scala/armflex/Fetch.scala:20-22 | no thread is enabled |
| ThreadTokens.FetchUnitPC.Clock | src/main/scala/armflex/Fetch.scala:24-48 | one clock: offered thread and PC, and enable bits and PCs after fetch, start, commit and two wakes |
| ThreadTokens.ClockedExact | src/main/scala/armflex/Fetch.scala:29-48 | after a clock a thread's PC is the committed one, else the one it is started with, else the old one; it is enabled if committed, started or woken, or if it was and is not fetched |
| ThreadTokens.ClockIsEvents | src/main/scala/armflex/Fetch.scala:24-48 | a clock with a fetch, a start, a commit and two wakes together leaves the registers those events leave one after the other, and one token for each thread |
| ThreadTokens.EventKeepsDiscipline | src/main/scala/armflex/Pipeline.scala:74-82 | fetch, every move between stages, wake, commit, transplant and start keep one token per thread |
| ThreadTokens.OneTokenPerThread | src/main/scala/armflex/Pipeline.scala:71-103 | in every state reached from reset each thread has exactly one token, and every instruction under way carries its thread's PC |
| ThreadTokens.StuckIff | src/main/scala/armflex/LoadStore.scala:416-472 | an instruction in the pipeline can be taken on, by the pipeline, a translation or the host, iff it was not dropped on a permission violation |
| FetchAddress.FetchesOwnBlockIff | src/main/scala/armflex/Fetch.scala:104-115 | the block fetched is that of the thread's own PC iff no thread is ready in the next clock or the first one ready then has the same block bits in its page offset |
| FetchAddress.SameBlockIff | src/main/scala/armflex/LoadStore.scala:409-410 | a frame with another access's page offset names the own block iff the two offsets agree in the block bits |
| FetchAddress.OtherBlockFetched | src/main/scala/armflex/Fetch.scala:114 | two ready threads a block apart: the first one's fetch goes to the other one's block |
| ThreadTokens.NextFetchAtReturnPc | src/main/scala/armflex/Fetch.scala:33-48 | over every run, after a commit, a start or a wake a thread's next fetch is at the PC committed, started with, or dropped |
| ThreadTokens.CommittedPath | src/main/scala/armflex/Pipeline.scala:85-103 | every way through the stages to the commit goes through translation, fetch and decode, and is direct from the issuer or has a translation that succeeded before the cache, which answers last |
| ThreadTokens.StagesOnTheWay | src/main/scala/armflex/Pipeline.scala:85-103 | every stage of the pipeline is reached from the fetch |
| ThreadTokens.WakeRefetchesSamePc | src/main/scala/armflex/Fetch.scala:43-48 | after a translation miss the thread's next fetch carries the PC of the instruction dropped |
| ThreadTokens.SpuriousWakeIff | src/main/scala/armflex/Fetch.scala:43-48 | a wake without a miss keeps the discipline iff the thread is enabled anyway |
| CommitUnit.CommitUnit.constructor | src/main/scala/armflex/Commit.scala:60-62 | the empty unit |
| CommitUnit.CommitUnit.Clock | src/main/scala/armflex/Commit.scala:92-144 | one clock of the write state, the register file and the commit signals |
| CommitUnit.CommitsInOrder | src/main/scala/armflex/Commit.scala:92-144 | with any stalls the registers are those of committing finished instructions in one step each, in order, plus the written part of the oldest unfinished one; nothing is lost or reordered |
| CommitUnit.ClockLeaves | src/main/scala/armflex/Commit.scala:131-143 | in the clock in which a thread's instruction retires its PC becomes the branch target, or the old PC plus four modulo 2^64, and its flags the instruction's, or stay; a transplanted instruction, every other clock, and other threads' instructions leave both alone |
| CommitUnit.CommitSetsPc | src/main/scala/armflex/Commit.scala:131-143 | the same for a commit in one step |
| CommitUnit.CommitSetsRegister | src/main/scala/armflex/Commit.scala:92-128 | the last of the three results that names a register is in it, cut to 32 bits for a 32-bit instruction; all other registers and threads are left alone |
| CommitUnit.PcRunsStraight | src/main/scala/armflex/Commit.scala:131-139 | over every run with any stalls, a thread without a taken branch has the PC it started with plus four for each instruction it has retired, modulo 2^64 |
| CommitUnit.PcFollowsBranch | src/main/scala/armflex/Commit.scala:131-139 | ... else the target of its last taken branch plus four for each one retired since |
| CommitUnit.FlagsFollowCommits | src/main/scala/armflex/Commit.scala:140-142 | ... and the flags of the last retired instruction that sets any |
| CommitUnit.AddressKeptIff | src/main/scala/armflex/Commit.scala:102 | a load or store that updates its base register leaves the address in it iff the access is 8 bytes wide or the address fits 32 bits |

## Left out

- CacheRefinement.RunRefinesFlatMemory: queue capacities and ready signals of the cache are not modelled at this level, so a run may have arbitrarily long queues; `Eviction` models them where they matter.
- CacheRefinement.StepRefines: the replacement victim is an input, so the result holds for every replacement policy and does not depend on the timing of `SetLru`.
- DatabankPipeline.PipelineRefinesSequential: streams with a refill next to a request of the same row are excluded; `RefillThenWriteIff` says what happens there. Stalls between the two stages are left out.
- EvictionSides.EvictDoneOnItsSide: the two caches have a DRAM each, so nothing is said of blocks both of them hold; the DRAM write happens in the cycle the DMA reports done; the adaptor queues have at least two entries.
- PageTableRuns.TableFollowsTransactions: requires runs without a harmful clock; concurrent handlers on one set are an acknowledged hazard of the source (`LostTransactions`).
- PageTableClients.TableFollowsClients: the deletor and its cache are not on this clock; with three writers the discipline is shown sufficient, its exact form for two is `PageTableRuns.RunExactIff`.
- Handlers.QemuMissReplyHandler.Clock: the last beat of a transfer and the DMA's done signal come in one step; the beats themselves are in `PageTableSetBuffer`.
- PageTable.LookupExact: the one-hot encoder is modelled for at most one set bit; unique tags are an invariant, so more never occur.
- CacheInterface.AnswersPaired: requires that misses fit the second queue, which upstream credits are meant to ensure; a request and an answer in the same clock appear as two events.
- CacheFlushing.FlushesAlone: a translation in flight counts as a waiting request.
- Bitfield.BitfieldIsArm: 32-bit encodings with bit 5 of a field set are unallocated in the architecture and excluded, although the decoder accepts them.
- ByteLanes.StoreExact: addresses are physical and do not wrap; unaligned accesses raise an exception before this point.
- ByteLanes.LoadReturnsLastStore: the last store is one store of the same place and size; a load put together from several stores is covered by `StoreExact` and `LoadExact` byte by byte.
- ThreadTokens.OneTokenPerThread: the PC of a token is the tag an instruction carries; stop-CPU commands, and wakes or starts beyond one for each miss or parked thread, are excluded; the order within a stage queue is left out.
- FetchAddress.FetchesOwnBlockIff: the translation is answered in the next clock, as the source asserts for the memory unit; the memory unit's own queue is not modelled beyond `FetchAddress.SameBlockIff`.
- CommitUnit.CommitsInOrder: the register file's own timing is one ready signal; the queue is unbounded.
- TLB permission and modified update: it casts a whole cache entry to a page-table entry; no claim is built on it.
- Which TLB a miss reply is sent to, and the commit unit's wires to the fetch unit: multiplexers between modelled parts.
- Credit controllers: their narrow signed arithmetic does not count as their comment says; bounded queues take their place.
- 32-bit logical flags and logical immediates with elements below the register width: not part of the claims.
- AXI and AXI-Lite wiring, CSR blocks, BRAM and DSP black boxes: interface plumbing or foreign code; a memory returns the old value when read in the cycle of a write.
- Message serialisation, decode tables, `TraceDump`, `Diverter`, `Transplant`: they would add only easy members.
- The C/C++ client and the simulation server: sockets, drivers and threads of the host.
