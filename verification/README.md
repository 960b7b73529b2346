# Systems labs: verified models

Dafny models of the stateful cores of a set of systems-programming labs, with proofs about whole runs.
`dafny verify dfyconfig.toml` checks everything.

**The explicit-free-list allocator.** `Allocator.dfy` holds the allocator as it is written: a class over one memory,
with the break, the prologue and the root of the free list, whose methods write headers, footers and links
in place. Memory is an array with one slot per byte address; a 4-byte word lives in the slot of its (4-aligned) address.
The class is tied to an abstract heap: a partition of the heap into blocks (`HeapTiling.dfy`) and the free list as a
sequence (`Sequences.dfy`; `Numbers.dfy` has shared arithmetic). `HeapMemory.dfy` and `AllocatorMemory.dfy` say how
memory stores the two and which writes keep it so; `AllocatorSpec.dfy` and `AllocatorOps.dfy` define the internal and public operations on abstract heaps and
prove the invariant, the effect on the live blocks, and the round trip. `AllocatorClient.dfy` is a client in the manner of
the trace driver: over any trace its blocks behave like an ideal store. `AllocatorAnswers.dfy`
says when malloc and realloc fail, where the block they answer lies and how large it is, how far the heap grows and what
becomes of the list, and that the live blocks determine the whole partition. `AllocatorWalks.dfy` has the read-only walks.

**The cache simulator.** `CacheSim.dfy` holds the lines with their timestamps and the search loops, tied to recency
stacks (`Recency.dfy`); `CacheTrace.dfy` says what is counted over whole traces; `AddressBits.dfy` proves the shifts that cut up an address.

**The blocked transpose.** `Transpose.dfy` has the kernels for 32 and 64 rows and the clipped tiles, each loop in place.

**The shell.** `JobTable.dfy` is the job list. `Shell.dfy` interleaves the main program, the three
signal handlers, which nest, and the kernel, and proves their invariant; `ShellSafety.dfy`, `ShellWaits.dfy` and
`ShellForeground.dfy` draw the conclusions, and `ShellRuns.dfy` has runs that go wrong. `CommandLine.dfy` is the parser that cuts the line in its own buffer.
Some properties do not hold, and each has a run that shows it and the exact condition: after `fg` the shell may wait for
pid 0 and never return (`ShellRuns.StuckRun`, `ShellWaits.HowStuck`, `ShellWaits.WaitEnds`); ctrl-c may signal a process that has just
been reaped, or has no process group yet, and end the shell (`ShellRuns.ReapedRun`, `ShellRuns.NewbornRun`, `ShellSafety.HowDead`);
`bg` may write into a free slot (`ShellRuns.UnclearRun`, `ShellSafety.HowUnclear`); job ids may repeat (`JobTable.RepeatedJid`,
`JobTable.AddJid`); and the messages of a command line may name the wrong job or leave one out (`JobTable.MixedLines`, `JobTable.UntoldStop`, `JobTable.AllTold`).
A line of 128 words or more makes the parser write past argv (`CommandLine.LongLine`, `CommandLine.ParseLine`).

**Buffered reading.** `Rio.dfy` has the reader over a descriptor whose reads deliver any pieces, are interrupted
any number of times, or fail.

**The allocation tracer.** `MemList.dfy` is the sorted linked list, `MemTrace.dfy` the bookkeeping of the wrappers,
`LibcBlocks.dfy` sets it beside the blocks libc itself has handed out, and `Tracing.dfy` is the tracer, in place.
libc is only taken to be honest about its own blocks: it answers NULL, an address it has not handed out, or for a
realloc the address it was given; it may move a block whenever it likes. The list and libc can part in three ways, and
`LibcBlocks.LiveIsReal` says that they agree exactly if none of them has happened: a growing realloc fails, and the list
counts as freed what libc still has (`LibcBlocks.ForgottenBlock`); a realloc to no bytes is answered with a block; or a
block that was shrunk, whose listed size stays as it was, is moved when it grows again (`LibcBlocks.MovedBlockDiffers`).
The byte report is the size of the blocks listed as live exactly if libc refused nothing (`LibcBlocks.CountsAreExact`),
unless it hands out again an address that a moved block has left (`LibcBlocks.ReusedAddress`);
`MemTrace.Conservation` says what the report is in every case.

## Model

| member | source | states |
|---|---|---|
| Allocator.MemoryManager.Init | malloclab-handout/src/mm.c:77-95 | Succeeds exactly if the arena has room for the prologue, the epilogue and one chunk; then the heap is in order, holds one free block of 4096 bytes and no live block. |
| Allocator.MemoryManager.Malloc | malloclab-handout/src/mm.c:101-125 | The in-place code computes exactly the abstract operation, keeps the state in order, and writes to no live payload; NULL leaves every word as it was. |
| Allocator.MemoryManager.FreePtr | malloclab-handout/src/mm.c:131-138 | Computes the abstract free, keeps the state in order, and writes to no other live payload; NULL is ignored. |
| Allocator.MemoryManager.Realloc | malloclab-handout/src/mm.c:145-210 | On all five paths: the abstract result, state in order, no other live payload written, the common prefix of old and new payload copied; NULL for a positive size leaves every word as it was. |
| Allocator.MemoryManager.Shrink | malloclab-handout/src/mm.c:163-173 | Splitting in place keeps the payload of the new size and releases the remainder. |
| Allocator.MemoryManager.AbsorbPrev | malloclab-handout/src/mm.c:178-191 | Taking over the free block below moves the payload down over the old header and keeps its common prefix, and no other live payload changes. |
| Allocator.MemoryManager.AbsorbNextBlock | malloclab-handout/src/mm.c:192-202 | Taking over the free block above keeps the payload and leaves, word for word, the memory AbsorbMemory describes. |
| Allocator.MemoryManager.AbsorbNextBlockCoalescing | malloclab-handout/mm_explicit_realloc_clean.c:192-202 | The variant that calls coalesce leaves the same heap, the same list and, word for word, the same memory as AbsorbNextBlock. |
| Allocator.MemoryManager.Move | malloclab-handout/src/mm.c:203-209 | A new block, a copy and a free: the common prefix arrives in the new block; if there is no new block nothing has changed. |
| Allocator.MemoryManager.MemMove | malloclab-handout/src/mm.c:183-184 | A downward overlapping move delivers the old source words; words read past the modelled memory are arbitrary. |
| Allocator.MemoryManager.Coalesce | malloclab-handout/src/mm.c:281-317 | All four cases merge the maximal free stretch around the block and take exactly its old parts out of the list; live payloads stay as they are. |
| Allocator.MemoryManager.CutOut | malloclab-handout/src/mm.c:335-347 | Removes exactly the given block from the list, whether it is the root or not, and touches no live payload. |
| Allocator.MemoryManager.SetRoot | malloclab-handout/src/mm.c:323-330 | Puts an unlisted free block in front of the list; does nothing if it is the root already. |
| Allocator.MemoryManager.Place | malloclab-handout/src/mm.c:255-274 | Uses a free block whole or splits it and lists the remainder, and keeps the state in order. |
| Allocator.MemoryManager.ExtendHeap | malloclab-handout/src/mm.c:217-234 | Fails exactly if mem_sbrk refuses, and then changes nothing; else the new bytes are merged with a free last block and become the root. |
| Allocator.MemoryManager.FindFit | malloclab-handout/src/mm.c:240-249 | The walk along the links ends and finds the first listed block that fits. |
| Allocator.MemoryManager.MemSbrk | malloclab-handout/src/memlib.c:58-69 | Refuses negative increments and growth past the arena, and then keeps the break; else hands out the old break. |
| AllocatorOps.FirstFitIsFirst | malloclab-handout/src/mm.c:240-249 | The answer is the first listed block of sufficient size; no answer means all listed blocks are too small. |
| AllocatorOps.FirstFitFits | malloclab-handout/src/mm.c:240-249 | find_fit fails exactly if no free block of the whole heap is large enough. |
| AllocatorOps.MallocInv | malloclab-handout/src/mm.c:101-125 | malloc keeps the invariant: exact tiling, alignment, the list naming each free block once, and no two free neighbours. |
| AllocatorOps.FreeInv | malloclab-handout/src/mm.c:131-138 | free keeps the invariant. |
| AllocatorOps.ReallocInv | malloclab-handout/src/mm.c:145-210 | realloc keeps the invariant on every path. |
| AllocatorOps.MallocLive | malloclab-handout/src/mm.c:101-125 | malloc adds one live block at an address not in use, with at least the bytes computed for the request and less than 16 more, and leaves all others, or changes nothing. |
| AllocatorOps.LiveFree | malloclab-handout/src/mm.c:131-138 | free takes away exactly the one live block. |
| AllocatorOps.ReallocLive | malloclab-handout/src/mm.c:145-210 | realloc exchanges the given live block for one of at least the bytes computed for the request and less than 16 more, and leaves all others; NULL for a positive size changes nothing. |
| AllocatorOps.AbsorbNextMatchesCoalescing | malloclab-handout/src/mm.c:192-202 | Because no two free neighbours exist, skipping coalesce on the absorb-next path gives the same heap and list as calling it. |
| AllocatorOps.MallocFreeRoundTrip | malloclab-handout/src/mm.c:101-138 | If malloc need not grow the heap, free of its result restores the exact partition into blocks, split or not. |
| AllocatorOps.MallocFailsExactly | malloclab-handout/src/mm.c:101-125 | NULL exactly for size 0 or if nothing fits and the arena is exhausted; the heap grows only if nothing fits. |
| AllocatorOps.ReallocOfLargeEnoughFails | malloclab-handout/src/mm.c:145-210 | A request the block could hold already still fails exactly if the block is 8 bytes too large, neither neighbour is free, nothing fits and the arena is exhausted. |
| AllocatorOps.ReallocOfLargeEnoughCanFail | malloclab-handout/src/mm.c:163-205 | It does fail on the heap of mm_init in an arena with room for one chunk: malloc(4088) takes all of it, and realloc of that block to 4080 bytes answers NULL. |
| AllocatorOps.BlockSizeWraps | malloclab-handout/src/mm.c:108-111 | In 32-bit arithmetic the computed block size is large enough exactly for requests up to 2^32 - 16, and then equals the unbounded one. |
| AllocatorAnswers.MallocFits | malloclab-handout/src/mm.c:101-125 | If some free block fits, malloc takes the first on the list, splits it exactly if 16 bytes or more are left over, puts the remainder in front of the list and keeps the order of the rest; the heap does not grow. |
| AllocatorAnswers.MallocGrows | malloclab-handout/src/mm.c:119-125 | If none fits, the heap grows by the larger of 4096 and the block size, joined with a free last block, from which the new block is cut; NULL and no change exactly if the arena has no room for that. |
| AllocatorAnswers.PlaceAnswers | malloclab-handout/src/mm.c:255-274 | place gives away the whole block only if less than 16 bytes would be left over, else exactly the bytes asked for, with the remainder as the root. |
| AllocatorAnswers.FreeAnswers | malloclab-handout/src/mm.c:131-138 | free makes the block, joined with its free neighbours, the root of the list, and keeps the order of the others. |
| AllocatorAnswers.ReallocAnswers | malloclab-handout/src/mm.c:145-210 | For every heap and size which of the five ways realloc takes: where the answer lies (the block itself, the free block below, or a new one), that a block changed in place has exactly the bytes computed, and what the list is then. |
| AllocatorAnswers.ReallocFailsExactly | malloclab-handout/src/mm.c:145-210 | For a positive size NULL exactly if the block has neither the size computed nor 16 bytes more, no free neighbour makes up for that, no free block fits, and the arena is exhausted. |
| AllocatorAnswers.LiveDetermines | malloclab-handout/src/mm.c:281-317 | Two heaps in order, over the same range and with the same live blocks, are cut up in the same way: coalescing leaves no choice. |
| AllocatorSpec.ReleaseInv | malloclab-handout/src/mm.c:281-330 | Merging and listing an unlisted free block restores the invariant. |
| AllocatorSpec.PlaceInv | malloclab-handout/src/mm.c:255-274 | place keeps the invariant whether it splits or not. |
| AllocatorSpec.ExtendOpen | malloclab-handout/src/mm.c:217-230 | Memory from mem_sbrk extends the exact tiling by one unlisted free block. |
| AllocatorClient.Client.Run | malloclab-handout/src/mdriver.c:578-661 | For every trace of malloc, realloc, free and writes, the heap is in order and every listed block live at every moment, heap and table follow the abstract allocator request by request, and the contents of all live blocks evolve as in an ideal store in which each request affects one entry and is refused exactly when the abstract allocator answers NULL. |
| AllocatorClient.Client.DoAlloc | malloclab-handout/src/mdriver.c:601-630 | One malloc: a block is entered exactly if the allocator delivers one, at the address and size given; all other contents stay. |
| AllocatorClient.Client.DoResize | malloclab-handout/src/mdriver.c:633-661 | One realloc: the block is kept, exchanged or dropped as the allocator answers; its common prefix and all other contents stay. |
| AllocatorClient.PayloadsValid | malloclab-handout/src/mdriver.c:391-417 | In every such state payloads are 8-aligned, inside the heap, as large as requested and pairwise disjoint. |
| AllocatorClient.LiveBlocksApart | malloclab-handout/src/mdriver.c:391-417 | Live blocks are aligned, inside the heap and do not overlap. |
| AllocatorClient.ResizeKeeps | malloclab-handout/src/mdriver.c:636-647 | What realloc copied is the common prefix of the old and the new contents. |
| AllocatorWalks.FindFitImplicit | malloclab-handout/mm_implicit.c:154-163 | The plain walk along the headers finds the lowest free block that fits, or 0 exactly if there is none. |
| AllocatorWalks.SearchesAgree | malloclab-handout/src/mm.c:240-249 | The list search and the heap walk fail on the same heaps. |
| AllocatorWalks.WalkHeap | malloclab-handout/src/mm.c:362-366 | The walk along the headers meets every block once in address order, header equal to footer, and the sizes sum to the heap size minus 8. |
| AllocatorWalks.WalkList | malloclab-handout/src/mm.c:244-247 | Following SUCC from the root meets exactly the free blocks, each once, and ends at the prologue. |
| AllocatorWalks.WalkListBack | malloclab-handout/src/mm.c:370-372 | Following PRED from the prologue meets the same blocks in reverse order and ends at 0. |
| HeapTiling.WalkSum | malloclab-handout/src/mm.c:362-366 | In any tiling the sizes met on the walk add up to the length of the range. |
| HeapTiling.WalkMeets | malloclab-handout/src/mm.c:362-366 | In any tiling the walk meets exactly the blocks that are there. |
| HeapMemory.Unlink | malloclab-handout/src/mm.c:342-346 | Linking the neighbours of an inner node to each other leaves a well linked list without it. |
| HeapMemory.Push | malloclab-handout/src/mm.c:326-328 | The three writes of set_root leave a well linked list with the new node in front. |
| AddressBits.BitsOf | cachelab_handout/csim.c:32-34 | For every 64-bit address with s at least 1 and s + b at most 63 the shifts give set = block number mod 2^s and tag = block number div 2^s. |
| AddressBits.SameBlock | cachelab_handout/csim.c:32-34 | Two addresses agree in tag and set exactly if they lie in the same block. |
| CacheSim.Cache.Search | cachelab_handout/csim.c:43-60 | The loop finds the valid line with the tag, else the lowest empty line, else reports the set full. |
| CacheSim.Cache.Victim | cachelab_handout/csim.c:66-73 | The loop finds a line with the smallest timestamp. |
| CacheSim.Cache.AccessCache | cachelab_handout/csim.c:30-82 | One access of the lines and timestamps refines one access of the abstract recency stack: hit, fill or eviction of the least recently used tag, and the counters. |
| CacheSim.Cache.Simulate | cachelab_handout/csim.c:125-141 | After any trace hits + misses is the number of L and S events plus twice that of M events; the hits are the accesses whose block was accessed before with fewer than E others of its set since; misses - evictions is the number of valid lines; and these hold exactly the tags since whose last use fewer than E other tags were used in the set. |
| CacheSim.ContentsAreRecent | cachelab_handout/csim.c:43-80 | The valid lines hold exactly the min(E, number seen) most recently used distinct tags. |
| CacheSim.LinesDiffer | cachelab_handout/csim.c:43-80 | Valid lines differ in tag and timestamp, and no valid line has a timestamp above the use counter. |
| CacheSim.EvictOk | cachelab_handout/csim.c:65-75 | Overwriting the line with the oldest timestamp drops the bottom of the recency stack and keeps the rest in order. |
| CacheTrace.StacksFollowTrace | cachelab_handout/csim.c:127-136 | Each stack of the simulation is the recency stack of the tags the trace used in that set. |
| CacheTrace.HitIffRecent | cachelab_handout/csim.c:43-58 | The simulation takes an access for a hit exactly if its block was accessed before and fewer than E other blocks of its set since, and for a miss otherwise. |
| CacheTrace.HitsCounted | cachelab_handout/csim.c:127-136 | After any trace the hits are as many as there are accesses to a block of which fewer than E others of its set were accessed since its last access, and the misses are all others. |
| CacheTrace.AccessCount | cachelab_handout/csim.c:127-136 | A trace makes as many accesses as it has L and S events, and two for each M. |
| CacheTrace.AccessesAt | cachelab_handout/csim.c:127-136 | Each event makes its accesses, none, one or two, with its own address, behind those of the events before it. |
| CacheTrace.CountsBalance | cachelab_handout/csim.c:127-136 | For every trace hits + misses is the number of accesses, and misses - evictions the number of lines the stacks fill, at most S * E. |
| CacheSim.Cache.ValidBits | cachelab_handout/csim.c:53-80 | The number of lines the stacks fill is the number of lines whose valid bit is set. |
| CacheTrace.SecondUseHits | cachelab_handout/csim.c:131-134 | The second access of a modify hits. |
| CacheTrace.MoreLinesNoMoreMisses | cachelab_handout/csim.c:43-80 | For every trace more lines per set never give more misses, and hold all that fewer lines hold. |
| Recency.HeldIffRecent | cachelab_handout/csim.c:43-80 | The first E elements of the recency stack are the tags with fewer than E distinct tags used since. |
| Recency.LruIsTop | cachelab_handout/csim.c:43-80 | A list bounded to E entries is the top of the unbounded stack. |
| Recency.Inclusion | cachelab_handout/csim.c:43-80 | What a set with E lines holds, a set with more lines holds as well. |
| Transpose.TransposeSubmit | cachelab_handout/trans.c:23-155 | B becomes the transpose of A for every size for which the blocks fit. |
| Transpose.Transpose32 | cachelab_handout/trans.c:29-48 | With 32 rows and any multiple of 8 columns, diagonal elements held back in t0 and t1, B becomes the transpose. |
| Transpose.Transpose64 | cachelab_handout/trans.c:49-142 | With 64 rows and any multiple of 8 columns B becomes the transpose; what is left in scratch blocks is overwritten later. |
| Transpose.TransposeTiled | cachelab_handout/trans.c:143-154 | For all other sizes the clipped 16x16 tiles cover the whole matrix. |
| Transpose.Block64 | cachelab_handout/trans.c:52-102 | The quadrant dance leaves the transposed block and changes nothing outside it. |
| Transpose.TransposeUpper | cachelab_handout/trans.c:64-75 | The upper two quadrants are transposed within B. |
| Transpose.SwapIn | cachelab_handout/trans.c:76-97 | The lower left quadrant of A arrives transposed in b2, and what b2 held in b3. |
| Transpose.Diagonal64 | cachelab_handout/trans.c:103-117 | A diagonal block is transposed through the block to its right; only these two blocks change. |
| Transpose.LastDiagonal64 | cachelab_handout/trans.c:118-141 | The last diagonal block is transposed through eight temporaries. |
| Transpose.Block32 | cachelab_handout/trans.c:30-46 | An 8x8 block is transposed, on or off the diagonal, and nothing outside it changes. |
| Transpose.BlocksFit | cachelab_handout/trans.c:29-50 | With 32 or 64 rows all blocks the loops visit lie within both matrices exactly if the number of columns is a multiple of 8; for a block that does not, row mm + 7 is missing, which its kernel writes. |
| Transpose.IsTranspose | cachelab_handout/trans.c:163-175 | Answers whether B is the transpose, in both directions. |
| Transpose.CorrectTrans | cachelab_handout/cachelab.c:56-65 | The reference loop makes B the transpose. |
| Transpose.Agree | cachelab_handout/cachelab.c:56-65 | transpose_submit and correctTrans give the same matrix element by element, that of the original A. |
| JobTable.JobList.AddJob | shlab-handout/tsh.c:529-552 | Fills the first free slot and advances the job id with wrap-around; fails exactly for a bad pid or a full table, and then changes nothing. |
| JobTable.JobList.DeleteJob | shlab-handout/tsh.c:555-570 | Clears the first slot of the process and restarts job ids above the largest left. |
| JobTable.JobList.FgPid | shlab-handout/tsh.c:573-580 | The pid of the first foreground job, or 0. |
| JobTable.JobList.MaxJid | shlab-handout/tsh.c:518-526 | The largest job id in the table. |
| JobTable.JobList.SigchldHandler | shlab-handout/tsh.c:419-457 | Entering all reports of waitpid, in order, into table and messages is the fold of the single reports, and keeps the table in order. |
| JobTable.JobList.PrintMessages | shlab-handout/tsh.c:230-240 | Prints a line for each flag that is set and clears the flags. |
| JobTable.AddFills | shlab-handout/tsh.c:529-552 | The first free slot gets the job, with the next id, which goes up to 16 and then starts again at 1. |
| JobTable.DeleteClears | shlab-handout/tsh.c:555-570 | The slot of the process is cleared, and the next id is one above the largest left. |
| JobTable.TableAfter | shlab-handout/tsh.c:419-457 | After any reports: jobs that have ended are out of the table, those that have only stopped are marked so, all others are as before. |
| JobTable.NewsJid | shlab-handout/tsh.c:437-447 | The job id of a message is the one its process had in the table before the reports, or 0 if it was not listed or an earlier report has taken it out. |
| JobTable.NewsAfter | shlab-handout/tsh.c:436-451 | With both flags clear before, whatever data the last message has left, a flag is set exactly if there was such a report, but the data are those of the last report of either kind. |
| JobTable.LinesPrinted | shlab-handout/tsh.c:436-451 | Both lines are printed exactly if stops and terminations came together, none exactly if there was neither, and every line names the process and signal of the last report. |
| JobTable.AllTold | shlab-handout/tsh.c:230-240 | The user learns of every stop and termination exactly if all of them are of the process and signal of the last. |
| JobTable.MixedLines | shlab-handout/tsh.c:436-451 | Reports that are misreported: one job stops, another is terminated, and the line about the stop names the other. |
| JobTable.UntoldStop | shlab-handout/tsh.c:436-451 | Reports that get lost: two jobs stop, one line is printed, and it names the second. |
| JobTable.AddDelete | shlab-handout/tsh.c:529-570 | Deleting the job just added restores every slot, exactly if the free slot it took was clear. |
| JobTable.AddJid | shlab-handout/tsh.c:538-542 | Adding keeps job ids distinct exactly if the next id is not in use. |
| JobTable.RepeatedJid | shlab-handout/tsh.c:538-566 | Job ids do repeat: fifteen jobs, the second ends, two more start, and the last gets id 1 again. |
| JobTable.DeleteFreesJid | shlab-handout/tsh.c:563-566 | Right after a deletion the next id is not in use. |
| JobTable.FgPidFinds | shlab-handout/tsh.c:573-580 | With at most one foreground job, fgpid names it wherever it is. |
| JobTable.HandleAllOk | shlab-handout/tsh.c:419-457 | Any sequence of reports keeps listed pids distinct and at most one job in the foreground. |
| ShellSafety.SafeAlways | shlab-handout/tsh.c:187-231 | In every interleaving, handlers nested in any way: a listed pid is an unreaped child, or exactly the one whose end the SIGCHLD handler holds and has not entered; none is listed twice; at most one job is in the foreground, and none at the prompt; a child is listed unless it has just been forked or its addjob found the table full; and the shell does not sleep on a child that has ended or stopped unless a SIGCHLD is still to come. |
| Shell.RunKeeps | shlab-handout/tsh.c:187-231 | The invariant holds along every run. |
| Shell.StepKeeps | shlab-handout/tsh.c:187-231 | Every step of the main program, the three handlers and the kernel keeps the invariant. |
| Shell.AddKeeps | shlab-handout/tsh.c:201-229 | Listing a forked child while SIGCHLD is blocked keeps the invariant. |
| Shell.BgFgKeeps | shlab-handout/tsh.c:365-381 | bg and fg keep the invariant, also when the job has left since it was looked up. |
| Shell.ReapKeeps | shlab-handout/tsh.c:428-428 | waitpid, with the keyboard signals open, keeps the invariant at every point where the handler can run. |
| Shell.UpdateKeeps | shlab-handout/tsh.c:432-453 | Entering the report, with all signals blocked, keeps the invariant. |
| ShellSafety.KeyFindsReaped | shlab-handout/tsh.c:464-473 | The foreground pid a keyboard handler finds is that of a reaped process exactly while the SIGCHLD handler holds the news of its end. |
| ShellSafety.KillHitsReaped | shlab-handout/tsh.c:472-490 | The pid a keyboard handler signals is that of a reaped process exactly while that news is held, or if the job has left the table in between. |
| ShellSafety.HowDead | shlab-handout/tsh.c:464-491 | The shell ends itself through a failing kill exactly if a keyboard handler signals a reaped process, or if it, or bg or fg, signals a child that has not made its process group yet. |
| ShellRuns.ReapedRun | shlab-handout/tsh.c:425-432 | A run that ends so: ctrl-c between waitpid and the update of the table. |
| ShellRuns.NewbornRun | shlab-handout/tsh.c:207-226 | Another: ctrl-c before a new foreground job has made its process group. |
| ShellSafety.HowUnclear | shlab-handout/tsh.c:365-376 | A free slot is written to exactly if bg or fg acts on a job that has left since it was looked up. |
| ShellRuns.UnclearRun | shlab-handout/tsh.c:346-373 | A run in which that happens. |
| ShellWaits.WaitEnds | shlab-handout/tsh.c:388-406 | While no handler is running, a wait can end exactly if it is for a process, not for pid 0. |
| ShellWaits.StuckForever | shlab-handout/tsh.c:403-404 | A wait for pid 0 never ends, whatever happens. |
| ShellWaits.HowStuck | shlab-handout/tsh.c:379-382 | A wait for pid 0 begins exactly if, after fg, the slot is free when its pid is read. |
| ShellRuns.StuckRun | shlab-handout/tsh.c:366-382 | A run that ends in the endless wait: a background job is fetched and ends at that moment. |
| ShellWaits.WaitReturns | shlab-handout/tsh.c:388-406 | A wait for a process can return to the prompt from every reachable state in which no handler is running. |
| ShellForeground.ForegroundWaits | shlab-handout/tsh.c:201-231 | In every run a command in the foreground that found a free slot, and a job that fg found in the table, keep the shell from its prompt until the handler enters a report that has them out of the table or marked stopped. |
| ShellForeground.WaitsForReport | shlab-handout/tsh.c:388-406 | The same from every state of the wait: only a report about the process itself ends it. |
| ShellForeground.CommandLists | shlab-handout/tsh.c:201-229 | A command gets the first free slot, marked foreground exactly if it does not end in &, and no other slot changes. |
| ShellForeground.FullTable | shlab-handout/tsh.c:201-231 | With a full table a command is not listed, and the shell goes on without waiting for it. |
| ShellForeground.BgFgActs | shlab-handout/tsh.c:365-382 | fg marks the slot foreground and goes on to wait, bg marks it background and goes to the prompt; no other slot changes, and the child does not stay stopped. |
| ShellForeground.KeyAims | shlab-handout/tsh.c:464-490 | ctrl-c and ctrl-z aim at the process of the foreground job, and at none if there is no such job. |
| ShellForeground.ReportsAreTrue | shlab-handout/tsh.c:428-453 | In every run an exit, a death by a signal or a stop is reported only of a process that has exited, died or stopped so. |
| CommandLine.ParseLine | shlab-handout/tsh.c:252-300 | The in-place parser leaves in its buffer, for argv, exactly the words of the specification, closes argv with NULL, and reports the background mark; it overwrites the entries of argv up to the one behind the last word and no others, so argv[MAXARGS] exactly if the line has 128 words or more. |
| CommandLine.CutWords | shlab-handout/tsh.c:265-289 | The loop cuts off all the words, each at its delimiter, and leaves the entries of argv behind the last word as they were. |
| CommandLine.LongLine | shlab-handout/tsh.c:265-289 | For every n a line of 2 n + 1 characters has n words: 257 characters are enough for the 128 words that go past argv. |
| CommandLine.WordsAreFew | shlab-handout/tsh.c:265-289 | Every word takes two characters of the line at least, so no line has more than 511. |
| CommandLine.RoundTrip | shlab-handout/tsh.c:252-300 | Words written bare or quoted, any number of spaces around them and at least one behind a bare one, parse back to themselves, except that a last word starting with & is dropped and makes the job a background job; a blank line gives no words and true. |
| CommandLine.OpenQuote | shlab-handout/tsh.c:270-288 | A quote that is never closed drops the rest of the line. |
| CommandLine.Reparse | shlab-handout/tsh.c:252-300 | The words of any line, written afresh, parse to the same words. |
| CommandLine.EveryLine | shlab-handout/tsh.c:252-300 | Every line, whatever it holds, is a list of written words followed by nothing but spaces or by a quote that is never closed, and its words are those. |
| CommandLine.LastIgnored | shlab-handout/tsh.c:261-262 | The last character of the line makes no difference, newline or not. |
| CommandLine.WordsAreWritable | shlab-handout/tsh.c:265-289 | Every word the parser gives can be written bare or in quotes. |
| Rio.Reader.Read | proxylab-handout/csapp.c:794-820 | Delivers the next bytes of the stream, n of them or all that is buffered, and reads on only when nothing is; 0 for n > 0 only at the end; -1 exactly if the last read() it made failed for another reason than EINTR, and then nothing is lost. |
| Rio.Reader.Refill | proxylab-handout/csapp.c:798-809 | The refill loop ends however often it is interrupted. |
| Rio.Reader.ReadNb | proxylab-handout/csapp.c:838-854 | Delivers the next n bytes, or fewer only if it reaches the end of the stream; -1 exactly if a read() failed, and then what was taken from the stream is in the buffer. |
| Rio.Reader.ReadLineB | proxylab-handout/csapp.c:860-881 | Delivers the next line: no newline before its last byte, and it ends with a newline, at maxlen - 1 bytes or at the end of the stream; closed by a NUL except at the end of the stream; -1 exactly if a read() failed. |
| Rio.Reader.Serve | proxylab-handout/csapp.c:794-881 | For any mix of calls the results are a function of the stream alone, and what was delivered followed by the unread buffer is what was read. |
| Rio.SplittingIsInvisible | proxylab-handout/csapp.c:794-881 | Two readers of the same bytes deliver the same, however read() splits them and however often it is interrupted. |
| Rio.NothingLost | proxylab-handout/csapp.c:838-881 | All results together are the stream up to the position reached, without gaps. |
| Rio.LineLengthUnique | proxylab-handout/csapp.c:865-880 | The length of a line is the one number that has no earlier newline and stops for a reason: a newline, the limit or the end. |
| Rio.ReadSplit | proxylab-handout/csapp.c:838-854 | Reading m bytes and then n is reading m + n. |
| MemList.List.AllocBlock | linklab-handout/utils/memlist.c:54-90 | Inserts a block into the sorted list, or updates size and count of the block with this address. |
| MemList.List.DeallocBlock | linklab-handout/utils/memlist.c:92-108 | Lowers the count of the block with this address, if it is listed. |
| MemList.List.Find | linklab-handout/utils/memlist.c:110-121 | Finds the block with this address exactly if it is listed, stopping early by the order. |
| MemList.AllocSorted | linklab-handout/utils/memlist.c:67-87 | Inserting keeps the list sorted without duplicates. |
| MemList.AllocEntries | linklab-handout/utils/memlist.c:54-90 | An allocation leaves the address one entry, with the new size and one more count, and all other entries as they were. |
| MemList.DeallocEntries | linklab-handout/utils/memlist.c:92-108 | A free takes one from the count of the address if it is listed, and leaves all other entries as they were. |
| Tracing.Tracer.Malloc | linklab-handout/part3/memtrace.c:87-110 | The counters and the sorted list after the call are those of the abstract tracer: one more call, its bytes, and the block unless libc answers NULL. |
| Tracing.Tracer.Calloc | linklab-handout/part3/memtrace.c:112-134 | The same for the product, in size_t arithmetic. |
| Tracing.Tracer.Realloc | linklab-handout/part3/memtrace.c:136-198 | All branches: NULL, unknown, freed, zero, shrinking and growing; an illegal free is logged exactly for an address not listed, a double free exactly for one listed with count 0. |
| Tracing.Tracer.Free | linklab-handout/part3/memtrace.c:200-231 | Frees a live block; logs and changes nothing for an address not listed (an illegal free) or listed with count 0 (a double free), and logs these exactly then. |
| Tracing.Tracer.Serve | linklab-handout/part3/memtrace.c:87-231 | After any run of the wrappers with an honest libc the counters and the list are those of the abstract run; allocated minus freed bytes is the size of the listed blocks, by their counts, plus the slips of the single calls; and unless libc has reused an address listed as live it is the live bytes exactly if no request for bytes was refused. |
| Tracing.Tracer.Fini | linklab-handout/part3/memtrace.c:54-85 | Reports exactly the blocks not freed, in address order. |
| LibcBlocks.CountsAreExact | linklab-handout/part3/memtrace.c:87-231 | With a libc that is honest about its own blocks: unless it has reused an address the list has as live, which it can only after moving a shrunk block, counts are 0 or 1, and allocated minus freed bytes is the size of the blocks listed as live exactly if no request for bytes was answered with NULL, said call by call. |
| LibcBlocks.HonestAnswersAlong | linklab-handout/part3/memtrace.c:87-198 | An honest libc never answers with an address the list has as live exactly if it reuses none that it has got back. |
| LibcBlocks.ReusedAddress | linklab-handout/part3/memtrace.c:181-194 | Malloc(100), shrink to 8, grow to 100 and be moved, malloc(8) at the old address: nothing was refused, the report says 108 bytes, and no block counts as live. |
| MemTrace.Conservation | linklab-handout/part3/memtrace.c:87-231 | Whatever libc answers: allocated minus freed bytes is the size of the listed blocks, each by its count, plus a slip for each request refused or answered with an address that is listed. |
| MemTrace.RunLoses | linklab-handout/part3/memtrace.c:87-231 | As long as libc answers with no address the list has as live, the bytes counted in vain grow exactly with the requests for bytes it answers with NULL. |
| MemTrace.RefusedMalloc | linklab-handout/part3/memtrace.c:100-107 | One refused malloc of 8 bytes, with libc answering as it may: the report says 8, and no block is live. |
| LibcBlocks.LiveIsReal | linklab-handout/part3/memtrace.c:136-231 | After any run with a libc honest about its own blocks, they are those the list has as live exactly if no growing realloc has failed, none to no bytes was answered with a block, and none to at most the listed size has moved a block; and if none was moved, each block listed as live is one of libc's and no larger there. |
| LibcBlocks.StrayForever | linklab-handout/part3/memtrace.c:87-231 | A block of libc that the list does not have as live stays so in every later run. |
| LibcBlocks.MovedBlockDiffers | linklab-handout/part3/memtrace.c:181-183 | A run in which libc moves a block: 64 is shrunk and grown again, libc has the block at 400, the list at 64. |
| LibcBlocks.ForgottenBlock | linklab-handout/part3/memtrace.c:184-194 | A block that could not grow: libc still has it, the list has it as freed. |
| MemTrace.DoKeeps | linklab-handout/part3/memtrace.c:87-231 | Every call that libc answers with no address listed as live keeps the list sorted, its counts 0 or 1, and the byte counts in balance with it. |
| MemTrace.BadFrees | linklab-handout/part3/memtrace.c:218-225 | Freeing what is not allocated changes nothing, and a second free changes nothing. |
| MemTrace.AllocThenFree | linklab-handout/part3/memtrace.c:87-231 | Allocating and freeing leaves the live bytes as they were and moves both counters by the size. |
| MemTrace.NonFreedBytes | linklab-handout/part3/memtrace.c:67-79 | The blocks reported as not freed make up exactly the live bytes. |
| MemTrace.NonFreedExactly | linklab-handout/part3/memtrace.c:67-79 | The blocks reported as not freed are the entries with a count above 0, as they are and in address order. |
| MemTrace.CallsCounted | linklab-handout/part3/memtrace.c:54-62 | What fini divides by: the calls of malloc, of calloc, and those of realloc that grow a block, name a bad address or ask for bytes with NULL. |
| MemTrace.BytesAsked | linklab-handout/part3/memtrace.c:87-198 | The bytes reported as allocated are those asked for by the calls that count, whatever libc answered. |
| MemTrace.ProductWraps | linklab-handout/part3/memtrace.c:127-128 | The product that calloc counts is that of its arguments exactly if it fits in 64 bits, else what remains of it. |

## Left out

- Allocator requests above 0xffffffe0 bytes: the size computation wraps there (`AllocatorOps.BlockSizeWraps` gives the exact bound for it); the arena lies below 2^32 and starts 8-aligned at a nonzero address.
- Bytes that realloc's memmove reads past the old payload: they are arbitrary in the model, only the common prefix is claimed.
- Addresses that are not live blocks are not passed to free or realloc; the allocator does not check them.
- mm_check's printing, the timing drivers, the trace files, and the other drafts of the allocator.
- CacheSim.Cache.Simulate: lines start invalid, where the program uses uninitialised storage; option and file parsing, verbose output and the wrap-around of the counters are not modelled, and s = 0 or s + b = 64 are excluded because the shifts would be undefined.
- ShellSafety.SafeAlways: fork does not fail, a process group has only the child itself as a member, and the job table is searched in one step; builtin messages, terminal input and execve are not modelled, and the messages are printed outside the interleaving.
- listjobs and the other printing of the shell.
- CommandLine.ParseLine: the lines it takes have at least one and at most 1023 characters, because the program writes outside its buffer on others; argv is taken to be as long as the line needs, and what lies behind its 128 entries in the program is not modelled.
- Buffers of no bytes for rio_readlineb: even with maxlen 0 it writes a NUL.
- Streams that deliver more after an end of file; the unbuffered rio functions and the system call wrappers.
- LibcBlocks.CountsAreExact: counters are unbounded, and libc keeps as many bytes of a block as were asked for, not more.
- Looking up the libc functions and logging are not modelled, nor is the division by zero in fini when no call was counted.
- The proxy's cache: its doubly linked list is not kept consistent by the code. The proxy itself, the kernel modules, and the first two parts of the linker lab would need interfaces that are not in the repository or would add only easy members.
