# A verified model of Larceny's run-time systems

Larceny's run-time systems contain five mechanisms in which a fast, stateful implementation must agree
with a simple specification. This project models each of them in Dafny, in the form of the C and C#
code (classes whose methods update fields, loops over memory), and proves that it does. `dafny verify
dfyconfig.toml` checks everything.

| mechanism | files |
|---|---|
| Two-destination Cheney promotion: live objects move into an old area until its budget of chunks is spent, then into a young area; two scan fingers; an extra remembered set | `heap.dfy`, `copying.dfy`, `layout.dfy`, `steps.dfy`, `fingers.dfy`, `cheney.dfy`, `isomorphism.dfy`, `promote.dfy`, `mutator.dfy`, `promoteexamples.dfy`, `aliasexamples.dfy` |
| The .NET stack cache: a ring of reusable frames that spills into heap vectors and refills from them, and what is saved around calls into the run-time system | `stackcache.dfy`, `contruns.dfy`, `context.dfy` |
| Millicode: rest arguments under a moving collector, heap and stack in one area, callout frames, the two-level timer, the write barrier's store buffers | `restargs.dfy`, `frames.dfy`, `stackregion.dfy`, `callout.dfy`, `millicoderuns.dfy`, `timer.dfy`, `ssb.dfy` |
| Page descriptor tables that slide and grow, the barrier's cached pointers, memory accounting | `pages.dfy`, `pagetable.dfy`, `pageruns.dfy` |
| 64-bit products from 16-bit halves, and bignums in two byte orders | `multiply.dfy`, `bignum.dfy` |

## How the promotion proof is organised

An address is a generation, a chunk and an offset. `Copying` says what a half-finished copy must satisfy:
copies and forwarding headers correspond one to one, and apart from forwarding nothing but pointers has
changed. `ChunkLayout` says that objects tile each chunk without gap or overlap. `PromotionSteps` puts both
into one invariant, `Good`, and shows that every elementary step (moving an object, padding, sealing a chunk,
adding a chunk, rewriting a slot, counting an object as scanned) keeps it. `ScanFingers` says that a finger
separates scanned from unscanned copies. The methods of `Promotion.CheneyEnv` follow the C code and are
proved against these steps, including termination of the two-finger scan. `PromotionMeaning` draws the
conclusions that the mutator can see, and shows that what a promotion leaves behind is what the next one may
start from. `PromotionRun.Promote` states all of this for one whole run. `MutatorRuns.Run` puts promotions
between the instructions of a program, with the write barrier and the merging of remembered sets: the program
learns what it would learn if nothing were ever moved. What the instructions mean is fixed by laws that relate them to
each other, such as that a load finds what was last stored into its slot (`LoadFindsStored`, `MadeIsNew`).

Which chunks a promotion gets when it asks for more, from spare ones or from the operating system, is part of
its input: `Start.supply` lists them in order, as disjoint memory.

A run may stop early, where C runs past a chunk, goes round forever or fails an assertion. The model then says
where it stopped, and `StoppedInOrder` says what holds there: the invariant `Good`, the objects and addresses
that make C go wrong, and `Onward` from the first state, by which nothing but copying, sealing and adding chunks
of the supply led there. `Promote` finishes whenever no collected bytevector takes an odd number of 8-byte units and
no chunk, in use or in the supply, begins where another ends; the first alone excludes overruns, the second alone
the other two. `Run` then learns all that the program would learn if nothing were ever moved.

## Where the code does not do what it is for

Each of these is kept in the model as the code has it, with the exact condition and an example.

- The space check before copying an object does not count the 8 bytes by which a bytevector may be padded
  to a 16-byte boundary. The copy runs past its chunk exactly when padding is needed and the object just
  fits (`OverrunExactly`, `OverrunExample`). Only a reachable bytevector of an odd number of 8-byte units
  can do this (`OverrunNeedsOddBytevector`), however the chunks lie.
- The two-finger scan compares numeric addresses. The position past the end of a full chunk has the address
  of a chunk that begins there, and of no other position (`AliasExactly`). The old finger is compared with the
  old area's destination in the outer loop (`src/Rts/Sys/cheney-np.c`, line 342) and with the live destination
  in `scan_np_old` (line 372), the young finger with the young destination (lines 350 and 398). What fails is
  termination: when the old finger has work, its address is that of the live young destination, and the young
  finger has arrived there, `scan_np_old` returns at once, and the outer loop calls it again, forever
  (`Stuck`, `StuckExactly`, `ScanRound`, `EndlessExample`). A finger that has the address of its own area's
  destination is taken for finished; the run then ends in the assertions at lines 358-359 (`CheckFingers`,
  `UnfinishedExample`). Both need a chunk that begins where another ends, filled to the last byte
  (`AliasNeedsTouching`); in all other cases the scan ends with nothing left to do (`ScanOfloNpPromote`,
  `Promote`). The one-finger scan guards against this (`src/Rts/Sys/cheney.c`, lines 925-936), the two-finger
  scan does not.
- `clear` is there so that the stack cache keeps no dead objects alive. It forgets a frame's unused slots if
  and only if the frame is marked dirty or has nothing to forget, and `pop` does not mark it
  (`StackCacheFrame.Clear`, `PoppedFrameHolds`). The comment that frames above `cont` are empty is not an
  invariant, and the model does not use it.
- A signal that is pending when the timer runs down makes `timer_exception` leave with the timer at 0 and
  interrupts enabled. A tick keeps the timer sound if and only if this does not happen (`Tick`, `LostTick`).
  The second check for signals in `mc_enable_interrupts` is not redundant, as a comment there has it: it finds
  a floating-point exception that the first one passes over (`EnableInterrupts`).
- The page tables handle a new block if and only if it does not begin below the known pages and end above
  them, and the very first block does not exceed the initial tables (`CoveredExactly`, `BlockOnBothSides`,
  `OversizedFirstBlock`).
- The size check when a nursery is created is 8 words and the buffer short of what the assertions after a
  collection need. From the minimal size on nothing can fail (`RoomSuffices`, `Execute`); below it, capturing
  the continuation fails with a frame of the largest size on the stack (`TooSmall`).
- `makeBignum` on an array of shorts gives a bignum without leading zero words if and only if one of the
  digits in the top word is not 0 (`MakeBignumFromShorts`, `LeadingZeroWord`).

## Model

| member | source | states |
|---|---|---|
| Copying.MoveKeeps | src/Rts/Sys/cheney-np.c:107-121 | installing a forwarding header after copying keeps the one-to-one correspondence of copies and headers, and there is exactly one object fewer to copy |
| Copying.RewriteKeeps | src/Rts/Sys/cheney-np.c:107-112 | replacing a slot by its target's new location keeps the correspondence |
| Copying.NewLocation | src/Rts/Sys/cheney-check.c:39-122 | a new location always lies in one of the two destinations and never holds a forwarding header itself |
| ChunkLayout.AppendTiled | src/Rts/Sys/cheney.c:981-1099 | an object written at the end mark of a chunk neither overlaps another nor leaves a gap |
| ChunkLayout.SpreadKept | src/Rts/Sys/semispace.c:109-146 | if no chunk in use or still to be provided begins where another ends, this stays so whatever chunks of the supply are added |
| ChunkLayout.ExpandKeepsSpaces | src/Rts/Sys/semispace.c:109-146 | adding a chunk, spare or new, behind a full one keeps the chunks disjoint, and every chunk but the current one full |
| PromotionSteps.MoveStep | src/Rts/Sys/cheney-np.c:107-127 | forwarding a reachable object keeps the whole invariant of a promotion |
| PromotionSteps.FillStep | src/Rts/Sys/cheney.c:1120-1135 | padding and sealing keep the invariant and copy nothing |
| PromotionSteps.RewriteStep | src/Rts/Sys/cheney-np.c:60-105 | rewriting a slot of an unscanned object keeps the invariant |
| PromotionSteps.BlackenStep | src/Rts/Sys/cheney-np.c:136-177 | an object may count as scanned when none of its slots points into an emptied generation, and is remembered exactly when it lies in the young area and points below it |
| PromotionSteps.NewLocationStands | src/Rts/Sys/cheney-np.c:107-127 | what is stored into a slot after its target was forwarded, possibly by a switch of areas, is the new location of the slot's original target |
| PromotionSteps.TargetState | src/Rts/Sys/cheney-np.c:107-112 | a pointer into an emptied generation leads to an unmoved object or to a header with a pointer of the same tag into a destination |
| ScanFingers.FingerKept | src/Rts/Sys/cheney-np.c:318-409 | forwarding, sealing and adding chunks never put an unscanned copy before a finger |
| ScanFingers.FingerMoves | src/Rts/Sys/cheney.h:215-254 | scanning the object at a finger and moving past it keeps the finger's meaning |
| ScanFingers.FingerDone | src/Rts/Sys/cheney-np.c:318-360 | a finger at the end of the current chunk, or at the seal of its tail, has no unscanned copy in front of it |
| Promotion.CheneyEnv.SealChunk | src/Rts/Sys/cheney.c:1120-1135 | the unused tail of a chunk, always less than a page, becomes one object that scanning skips, and the chunk's top is the old allocation pointer |
| Promotion.CheneyEnv.SsExpand | src/Rts/Sys/semispace.c:109-146 | the semispace has one more chunk in use, the next of the supply, empty and of at least the requested size; nothing else changes |
| Promotion.CheneyEnv.ExpandSemispaceNp | src/Rts/Sys/cheney-np.c:462-490 | every expansion leaves at least the requested bytes, in another chunk of the old area exactly while its budget lasts; once the young area has been entered the old area does not grow and its parked position stays |
| Promotion.CheneyEnv.SwitchToYoung | src/Rts/Sys/cheney-np.c:474-483 | the switch seals and parks the old position, copies nothing, and happens only with the budget spent |
| Promotion.CheneyEnv.CheckSpaceNp | src/Rts/Sys/cheney-np.c:129-134 | afterwards at least the wanted bytes are free, and nothing changes if they were before |
| Promotion.CheneyEnv.OverrunExactly | src/Rts/Sys/cheney.c:981-1002 | a copy that passed the space check runs past the chunk if and only if it is a bytevector, the free position is 8 off a 16-byte boundary, and the object just fits |
| Promotion.CheneyEnv.Forward | src/Rts/Sys/cheney.c:981-1099 | the object is copied once, to the free position or 8 bytes behind it, so that a bytevector begins at a multiple of 16, and its header leads to the copy; or the run stops, exactly in the overrun case and with the object and the place as witness |
| Promotion.CheneyEnv.ForwCoreNp | src/Rts/Sys/cheney-np.c:107-127 | the result is the target's one new location; the object is copied only if it was not before |
| Promotion.CheneyEnv.ForwSlot | src/Rts/Sys/cheney-np.c:60-105 | afterwards the slot does not point into an emptied generation; other slots are unchanged; space is taken only if an object is copied |
| Promotion.CheneyEnv.ScanSlots | src/Rts/Sys/cheney-np.c:157-176 | every slot is forwarded, and the two flags say exactly whether a slot points below the limit now and whether one did before |
| Promotion.CheneyEnv.RememberVec | src/Rts/Sys/cheney-np.c:179-185 | the entry is in the extra set or its buffer, and the buffer never fills up |
| Promotion.CheneyEnv.AdvanceIsSize | src/Rts/Sys/cheney.h:215-254 | the distance the scanner advances is the size of the object, for pairs, vectors, bytevectors and seals |
| Promotion.CheneyEnv.AliasExactly | src/Rts/Sys/cheney-np.c:340-372 | comparing addresses confuses two positions if and only if one is the start of a chunk and the other is past the end of a chunk that abuts it |
| Promotion.CheneyEnv.ScanNpOld | src/Rts/Sys/cheney-np.c:362-381 | changes nothing if the old finger has the address of the live destination; otherwise it advances the finger within its chunk and keeps both fingers, even when the area is switched in the middle |
| Promotion.CheneyEnv.ScanNpYoung | src/Rts/Sys/cheney-np.c:383-409 | scanning with the young finger advances it within its chunk, keeps both fingers, and remembers exactly the copies that point below the young area |
| Promotion.CheneyEnv.StuckExactly | src/Rts/Sys/cheney-np.c:342-353 | in terms of positions, when a round finds work for the old finger only, and that finger cannot move |
| Promotion.CheneyEnv.ScanRound | src/Rts/Sys/cheney-np.c:323-356 | a round makes progress, or finds nothing to do, or is stuck; a stuck round changes nothing and reports work, so that C goes round forever |
| Promotion.CheneyEnv.CheckFingers | src/Rts/Sys/cheney-np.c:358-359 | the assertions after the scan fail exactly if a finger is not in the current chunk, which then has the address of its area's destination; otherwise nothing is left unscanned |
| Promotion.CheneyEnv.ScanOfloNpPromote | src/Rts/Sys/cheney-np.c:318-360 | the two-finger scan terminates unless it is stuck, with the objects to copy and the chunks and bytes to scan as its measure, and leaves nothing unscanned unless an assertion fails; wherever it stops, nothing but steps of a promotion led there from its start |
| Promotion.CheneyEnv.RootScannerNp | src/Rts/Sys/cheney-np.c:282-290 | the root no longer points into an emptied generation, and no other root changes |
| Promotion.CheneyEnv.RemsetScannerNp | src/Rts/Sys/cheney-np.c:294-309 | a remembered object is forwarded, and kept in its set exactly if it pointed below its own generation |
| Promotion.CheneyEnv.OldspaceCopy | src/Rts/Sys/cheney.c:568-636 | after the whole copy nothing is left to do and the first free bytes are on record, or the run stopped for one of the three reasons in a state reached from its start |
| PromotionMeaning.ReachableIsForwarded | src/Rts/Sys/cheney-np.c:318-409 | every object that a path from a root or a remembered object leads to has been forwarded |
| PromotionMeaning.DoneIsIsomorphic | src/Rts/Sys/cheney-np.c:107-127 | exactly the reachable objects moved, to distinct places, and every live object is found there with its pointers redirected and all else unchanged |
| PromotionMeaning.SameObservation | src/Rts/Sys/cheney-np.c:318-409 | every access path finds after the promotion what it found before, moved |
| PromotionMeaning.SharingSurvives | src/Rts/Sys/cheney-np.c:318-409 | two access paths meet at one object after the promotion if and only if they did before |
| PromotionMeaning.UnrememberedUnchanged | src/Rts/Sys/cheney.c:585-600 | an object outside the emptied generations that was not remembered is unchanged |
| PromotionMeaning.ExtraHasGrown | src/Rts/Sys/cheney-np.c:69-105 | the extra remembered set keeps what it had and gains exactly the objects moved to the young area that point below it |
| PromotionMeaning.RememberedAgain | src/Rts/Sys/cheney-np.c:69-105 | if every pointer to a younger generation was remembered before, in a remembered set or in the extra set, every one is after |
| PromotionMeaning.SurvivorsAreGood | src/Rts/Sys/cheney-check.c:39-122 | every object above the emptied generations is whole, and its pointers and the roots have targets of the right kind above them |
| PromotionMeaning.NextStartIsGood | src/Rts/Sys/np-sc-heap.c:545-547 | with the old area's remembered set cleared and the young area's merged into the extra set, what is left is a memory from which a promotion may start |
| PromotionMeaning.NextIsRemembered | src/Rts/Sys/np-sc-heap.c:545-547 | clearing and merging the sets loses no pointer to a younger generation |
| PromotionMeaning.NextSpacesAreGood | src/Rts/Sys/cheney.c:626-635 | the semispaces, with seals counted as free memory, are ready for the next promotion |
| PromotionRun.Promote | src/Rts/Sys/cheney-np.c:230-247 | one whole promotion: isomorphic, bytevectors aligned, remembered, ready for the next one; the chunks by which the old area grew fit into the bytes that were left to it, and nothing went to the young area before less than one more chunk was left; or stopped for a reason that holds in a state reached from the start; and it finishes if no collected bytevector is odd and no chunk begins where another ends |
| PromotionRun.OverrunNeedsOddBytevector | src/Rts/Sys/cheney-np.c:129-134 | an overrun is about to happen only to a reachable bytevector that takes an odd number of 8-byte units |
| PromotionRun.AliasNeedsTouching | src/Rts/Sys/cheney-np.c:340-372 | a scan that does not end, or ends too early, has met a chunk that begins where another ends, both in use from the start or provided since |
| MutatorRuns.MutatorKeepsFit | src/Rts/Standard-C/millicode.c:798-827 | every allocation, load and store with its barrier keeps memory fit for a promotion and every pointer to a younger generation remembered |
| MutatorRuns.LinkedPromotion | src/Rts/Sys/cheney-np.c:107-127 | a promotion keeps the correspondence between memory and a memory in which nothing was ever moved |
| MutatorRuns.Run | src/Rts/Sys/np-sc-heap.c:493-566 | a program with any number of promotions learns what it would learn if nothing were ever moved, up to a promotion that stops, and memory stays fit for promotion throughout; a promotion leaves no object in the collected generations; none stops if all bytevectors are even and no chunk begins where another ends |
| PromotionExamples.StartExample | src/Rts/Sys/cheney-check.c:39-122 | a heap with a cycle through a remembered object and with a shared object is one from which `Promote` may start, and will finish |
| PromotionExamples.OverrunExample | src/Rts/Sys/cheney-np.c:129-134 | a reachable four-byte bytevector passes the space check for the last 8 bytes of a chunk of 256 KB and is about to be copied past its end |
| AliasExamples.EndlessExample | src/Rts/Sys/cheney-np.c:340-372 | a pair and 63 vectors of a page fill the old area's chunk, which begins where the young area's chunk ends, and the 64th fills that one to the last byte: the pair is never scanned and the scan never ends |
| AliasExamples.UnfinishedExample | src/Rts/Sys/cheney-np.c:358-359 | 64 further vectors fill a second chunk of the old area to the last byte, directly in front of the first: the pair is taken for scanned, and an assertion fails |
| ContinuationFrames.ToHeapChains | src/Rts/DotNet/ContinuationISH.cs:284-364 | a vector made from a frame and a chain is the chain with that frame in front |
| ContinuationFrames.ChainIsUnique | src/Rts/DotNet/ContinuationISH.cs:284-375 | a heap chain determines its vectors and the frames that they hold |
| StackCache.StackCacheFrame.SetSlot | src/Rts/DotNet/ContinuationISH.cs:393-408 | one slot changes, in the fields or in the overflow slots, and no other |
| StackCache.StackCacheFrame.Prepare | src/Rts/DotNet/ContinuationISH.cs:455-479 | slots up to the new last one exist; the overflow slots grow only if they must; exactly when the frame is dirty |
| StackCache.StackCacheFrame.SaveRegisters | src/Rts/DotNet/Call.cs:365-378 | the slots are the restoring code, the 32 registers, Result and the flag, and slots beyond them stay |
| StackCache.StackCacheFrame.Clear | src/Rts/DotNet/ContinuationISH.cs:499-508 | the frame keeps its contents, and its unused slots hold nothing if and only if it was dirty or they held nothing before |
| StackCache.StackCacheFrame.ToVector | src/Rts/DotNet/ContinuationISH.cs:284-364 | a new vector, shared with nothing, with the frame's return index, its parent and exactly its live slots |
| StackCache.StackCacheFrame.FillFromVector | src/Rts/DotNet/ContinuationISH.cs:366-375 | loading a heap frame gives back the frame it was made from |
| StackCache.PoppedFrameHolds | src/Rts/DotNet/ContinuationISH.cs:151-158 | a frame is saved, an object stored into it, and the frame popped: `clear` leaves the object in the cache |
| StackCache.Cont.Clear | src/Rts/DotNet/ContinuationISH.cs:104-111 | every frame but the sentinel is cleared, so that it holds no object in an unused slot if and only if it was dirty or held none; the list stays |
| StackCache.Cont.constructor | src/Rts/DotNet/ContinuationISH.cs:71-100 | a ring of any size holds just the initial continuation |
| StackCache.Cont.Save | src/Rts/DotNet/ContinuationISH.cs:115-124 | pushes one frame onto the list; when the ring is full it is flushed and the list does not notice |
| StackCache.Cont.SaveSmall | src/Rts/DotNet/ContinuationISH.cs:138-146 | pushes one frame whose slots all fit the fields onto the list, flushing a full ring; exactly when the frame is dirty |
| StackCache.Cont.Pop | src/Rts/DotNet/ContinuationISH.cs:151-158 | pops one frame off the list, refilling from the heap if need be; fails exactly on the last frame |
| StackCache.Cont.CopyOutStack | src/Rts/DotNet/ContinuationISH.cs:163-173 | the heap chain holds exactly the list, with new vectors for the cached frames; the cache and the vectors that existed are unchanged |
| StackCache.Cont.FillCache | src/Rts/DotNet/ContinuationISH.cs:177-192 | the list becomes the heap chain; fails exactly if there is no vector |
| StackCache.Cont.GetCC | src/Rts/DotNet/ContinuationISH.cs:222-225 | the captured value holds the list |
| StackCache.Cont.SetCC | src/Rts/DotNet/ContinuationISH.cs:230-234 | the list becomes what was captured |
| StackCache.Cont.Store | src/Rts/DotNet/Instructions.cs:1396-1399 | one slot of the newest frame changes, or none if the slot is beyond the frame |
| StackCache.Cont.SetReturn | src/Rts/DotNet/Instructions.cs:1387-1393 | the newest frame's return point changes, unless the code is not that frame's |
| ContinuationRuns.CapturedIsImmutable | src/Rts/DotNet/ContinuationISH.cs:222-234 | no run of operations on a stack cache changes a vector of a captured continuation |
| ContinuationRuns.ThrowReinstates | src/Rts/DotNet/ContinuationISH.cs:222-234 | throwing to a captured continuation any number of times, each time after any run on the cache, reinstates exactly the frames it was captured with |
| ContinuationRuns.Execute | src/Rts/DotNet/ContinuationISH.cs:71-192 | a stack cache performs every run of saves, pops, stores, loads, clears, captures and throws as an unbounded list of frames does |
| ContinuationRuns.RunExample | src/Rts/DotNet/ContinuationISH.cs:71-192 | a run with an operation of every kind is allowed |
| ContinuationRuns.SizeIsInvisible | src/Rts/DotNet/ContinuationISH.cs:43-47 | caches of any two sizes return the same objects for every run |
| CallContext.Processor.SaveContext | src/Rts/DotNet/Call.cs:365-378 | pushes a frame with the 32 registers, Result, the flag and the jump index, and clears the implicit continuation |
| CallContext.Processor.RestoreContext | src/Rts/DotNet/Call.cs:409-430 | all registers come from the frame, Result if the flag says so; fails if the frame is not a context or is the last one |
| CallContext.Processor.AroundOperations | src/Rts/DotNet/Call.cs:365-430 | saving, any run of stack operations, throwing back and restoring give back registers, jump index and stack, and Result exactly if it was to be kept |
| CallContext.Processor.Callback | src/Rts/DotNet/Call.cs:153-231 | the code finds the procedure, the arguments and their number, and the other registers as they were; whatever it does to the stack, and whether it returns or throws an exception, the continuation is afterwards what it was |
| RestArguments.MovingIsInvisible | src/Rts/Fence/fence-millicode.c:339-354 | a collection that moves every pair cannot be noticed from the globals |
| RestArguments.Vm.Apply | src/Rts/Fence/fence-millicode.c:291-304 | the list is spread over registers and overflow list by the calling convention |
| RestArguments.Vm.ListFromRegisters | src/Rts/Fence/fence-millicode.c:365-377 | a new list of the registers in front of the tail, although every allocation may move everything |
| RestArguments.Vm.ListCopy | src/Rts/Fence/fence-millicode.c:388-407 | a new list with the same elements; no old pair changes |
| RestArguments.Vm.RestArgs | src/Rts/Fence/fence-millicode.c:409-470 | in all four cases the first n arguments and a new list of the rest are passed as n + 1 arguments, and no old pair changes |
| RestArguments.Vm.RestArgsCase3 | src/Rts/Fence/fence-millicode.c:443-467 | the copied overflow list is cut after the fixed arguments |
| RestArguments.Vm.ApplyWithRest | src/Rts/Fence/fence-millicode.c:291-467 | apply followed by mc_restargs, for every list and every n |
| RestArguments.Vm.RestArgsInOneChunk | src/Rts/IAssassin/millicode.c:287-355 | the variant that allocates once meets the same specification and uses exactly the 2(j - n) words it allocated, unless they exceed the largest object |
| ArgumentLists.CutRest | src/Rts/Fence/fence-millicode.c:443-467 | the effect of the final set-cdr! on both halves of the list |
| FrameChains.DatumByTag | src/Rts/Standard-C/millicode.c:294-305 | which words the integrity check accepts, by their two low bits |
| FrameChains.ChainIsExact | src/Rts/Standard-C/millicode.c:265-286 | the frames between stack pointer and stack bottom take all words there |
| FrameChains.ChainIsUnique | src/Rts/Standard-C/millicode.c:265-286 | memory between two places is a chain of frames in at most one way |
| StackRegions.Region.RoomSuffices | src/Rts/Sys/nursery.c:205-227 | from the minimal size on, a collection always leaves the room that the assertions ask for |
| StackRegions.TooSmall | src/Rts/Sys/nursery.c:100-100 | every area that passes the check but is smaller than the minimal size fails when a continuation is captured |
| StackRegions.Region.Alloc | src/Rts/Standard-C/millicode.c:347-390 | an object at the heap pointer, behind all objects since the last collection and below the stack, with a collection exactly if there is no room otherwise; or a large object, or the exception for too large objects, or a failing assertion, exactly if there is no room even then; the continuation and the words of the heap do not change |
| StackRegions.Region.Save | include/Standard-C/petit-instr.h:481-493 | one frame is pushed, with REG0 in its first slot and the others cleared, after a collection if need be, exactly if that makes room; the heap is kept or emptied |
| StackRegions.Region.Pop | include/Standard-C/petit-instr.h:442-443 | one frame is popped |
| StackRegions.Region.Gather | src/Rts/Sys/stack.c:129-190 | walking the stack finds exactly its frames |
| StackRegions.Region.Flush | src/Rts/Sys/stack.c:129-190 | all frames move to the heap continuation; the heap stays |
| StackRegions.Region.Create | src/Rts/Sys/stack.c:95-120 | an underflow frame becomes the bottom of the stack, exactly if there is room |
| StackRegions.Region.RestoreFrame | src/Rts/Sys/stack.c:196-252 | the newest heap frame moves back to the stack; fails exactly if there is no room |
| StackRegions.Region.Collect | src/Rts/Sys/nursery.c:205-235 | the continuation survives a collection, the heap is empty, and recreating the stack cannot fail |
| StackRegions.Region.Capture | src/Rts/Sys/nursery.c:316-328 | the captured value is the continuation, which does not change; fails exactly if there is no room after a collection |
| StackRegions.Region.Reinstate | src/Rts/Sys/nursery.c:330-338 | the continuation becomes what was captured |
| StackRegions.Region.IntegrityCheck | src/Rts/Standard-C/millicode.c:254-286 | in any state the check passes exactly if the pointers are in order and every frame has a good size, return address and data; this holds in every state that the operations reach |
| SchemeCallouts.Millicode.IntegrityCheck | src/Rts/Standard-C/millicode.c:240-292 | the same for the whole check, roots included |
| SchemeCallouts.PiecesJoin | src/Rts/Fence/fence-millicode.c:928-933 | the pieces of a floating-point word are fixnums and give the word back |
| SchemeCallouts.Millicode.Callout | src/Rts/Fence/fence-millicode.c:902-962 | the interrupted program is pushed, with the buffer left free below it, and procedure, arguments and count are set up; fails exactly if there is no room after a collection |
| SchemeCallouts.Millicode.RestoreContext | src/Rts/Fence/fence-millicode.c:977-1000 | general registers, floating registers and return point come back, and RESULT if it was to be kept; an empty stack is refilled |
| MillicodeRuns.Execute | src/Rts/Standard-C/millicode.c:240-292 | every run of allocations, calls, returns, stores, captures, throws, and callouts that may be nested does in memory what the program sees, and passes the integrity check after every step; the objects allocated since the last collection lie apart from each other and below the heap pointer; it can fail only below the minimal size |
| MillicodeRuns.RunExample | src/Rts/Standard-C/millicode.c:240-292 | a run with a step of every kind, from the first state, is allowed, with registers of any data |
| MillicodeRuns.RunFromStart | src/Rts/Standard-C/millicode.c:240-292 | the same from the beginning, in an area of any size that passes the check |
| MillicodeRuns.CalloutIsTransparent | src/Rts/Fence/fence-millicode.c:902-1000 | whatever a callout runs, further callouts and throws among it, once it resumes the interrupted program goes on as before |
| MillicodeRuns.AroundCallout | src/Rts/Fence/fence-millicode.c:902-1000 | the same in memory: general registers, floating registers, return point, frames, and RESULT if it was to be preserved |
| InterruptTimer.VmTimer.Tick | include/Standard-C/petit-instr.h:591-597 | ticks used, TIMER and TIMER2 add up to the grant, and the timer interrupt comes with the last granted tick, if and only if no signal is pending when the count runs down; both counts, the exception and the flags afterwards exactly |
| InterruptTimer.VmTimer.TimerException | src/Rts/Standard-C/millicode.c:443-462 | a pending signal comes first and raises its own exception; otherwise no ticks are lost when the second level refills the first, interrupts that are disabled get 100 more, and the timer interrupt comes when nothing is left |
| InterruptTimer.VmTimer.EnableInterrupts | src/Rts/Standard-C/millicode.c:464-481 | a positive grant is split over both levels, and the two checks for signals raise a keyboard interrupt exactly if both its flags are set, and otherwise a floating-point exception exactly if one is waiting; anything else is an error and changes nothing |
| InterruptTimer.VmTimer.DisableInterrupts | src/Rts/Fence/fence-millicode.c:247-270 | the two counts are returned as a fixnum, or 50000 exactly if that fixnum is not positive and there is a guard; from a sound state it is what is left of the grant, between 1 and the grant; a pending signal raises its own exception |
| InterruptTimer.VmTimer.TicksUnderSignals | src/Rts/Standard-C/millicode.c:443-488 | with signals arriving between the ticks, the interrupt comes after exactly the ticks granted; a tick is lost exactly when a signal is pending at a multiple of 12500 ticks or at the last one, and signals stay pending until then |
| InterruptTimer.VmTimer.TicksUntilInterrupt | src/Rts/Standard-C/millicode.c:443-488 | without signals the interrupt comes after exactly the ticks granted |
| InterruptTimer.LostTick | src/Rts/Standard-C/millicode.c:1018-1034 | the run in which a keyboard interrupt is raised and leaves a count of 0 behind |
| StoreBuffers.PassesOlderExactly | src/Rts/IAssassin/millicode.c:584-590 | the filters let every pointer from an older to a younger generation pass if and only if they name no generation, or the oldest as target, or the youngest as holder |
| StoreBuffers.PoliciesAgree | src/Rts/Sys/memmgr.c:3825-3836 | with the order filter on, the two barriers remember the same pointers exactly then; the target filter for the static area is such a case |
| StoreBuffers.IgnoresYoungestExactly | src/Rts/IAssassin/millicode.c:584-590 | no pointer out of the youngest generation has to be remembered if and only if the filters compare generations or exclude the youngest as holder |
| StoreBuffers.Barrier.Enqueue | src/Rts/IAssassin/millicode.c:592-610 | exactly one holder more is entered, for the given generation, with the offset of its slot as second word if entries have two; no write lands at or past the end of a buffer; all buffers are emptied exactly if that one is full |
| StoreBuffers.Barrier.PartialBarrier | src/Rts/Standard-C/millicode.c:798-820 | the holder is entered exactly if the pointer has to be remembered, for its own generation or for that of the target as the policy has it, and nothing else is entered |
| StoreBuffers.Barrier.Store | src/Rts/Standard-C/millicode.c:822-826 | a store keeps it so that each pointer that has to be remembered, out of a given generation or older ones, has its holder in the buffer of the right generation or in the set that this is emptied into |
| StoreBuffers.RunMutator | src/Rts/IAssassin/millicode.c:572-611 | every run of stores and allocations does to memory what the program asks for, and for all settings of the filters each pointer out of an older generation that has to be remembered has its holder entered for the right generation; so has each pointer out of the youngest one unless the settings ask for pointers that allocation creates; and so has every pointer from an older to a younger generation if the filters let them pass |
| PageTables.CoveredExactly | src/Rts/Sys/alloc.c:305-314 | the tables cover a new block if and only if it is not on both sides of the known pages, and fits if it is the first |
| PageTables.Allocator.GclibAlloc | src/Rts/Sys/alloc.c:292-318 | exactly for such blocks the tables cover the known pages and those the block, and all other pages are as they were, or foreign |
| PageTables.BlockOnBothSides | src/Rts/Sys/alloc.c:305-314 | a block on both sides of the known pages, most of which stays unknown |
| PageTables.OversizedFirstBlock | src/Rts/Sys/alloc.c:305-314 | a first block that is larger than the tables, wherever it begins |
| PageTables.Allocator.Slide | src/Rts/Sys/alloc.c:340-345 | every entry moves up by the same distance |
| PageTables.Allocator.GrowTable | src/Rts/Sys/alloc.c:379-433 | larger tables with the known pages at the right place and foreign entries everywhere else, and the cost on the run-time system's account |
| PageTables.Allocator.AllocationBelowMembot | src/Rts/Sys/alloc.c:321-354 | known pages keep their owners, the gap becomes foreign, and the barrier gets the new table and base |
| PageTables.Allocator.AllocationAboveMemtop | src/Rts/Sys/alloc.c:356-377 | known pages keep their owners, the gap above them becomes foreign, and the tables grow, with the barrier informed, exactly if they are too small |
| PageTables.Allocator.AllocHeap | src/Rts/Sys/alloc.c:189-222 | if the tables cover the block, it belongs to its generation, all other pages keep their owners, all accounts are right |
| PageTables.Allocator.AllocRts | src/Rts/Sys/alloc.c:224-264 | if the tables cover the block, it belongs to the run-time system with exactly its attributes, is charged to the account that they name, and all other pages keep their owners |
| PageTables.Allocator.Free | src/Rts/Sys/alloc.c:436-490 | the block belongs to nobody, its account is credited, all else stays |
| PageTables.Allocator.AddAttribute | src/Rts/Sys/alloc.c:512-526 | the pages of the block have the added bits and keep all others; other pages stay |
| PageTables.Allocator.UpdateMemBytes | src/Rts/Sys/alloc.c:267-282 | the total is the sum of the counters, and the largest total the sum of their values at the peak, which are replaced exactly by a larger total |
| PageTables.Allocator.WbSetup | src/Rts/Sys/barrier.c:38-67 | the barrier's table and base are the current ones |
| PageOwners.PagesMoved | src/Rts/Sys/alloc.c:453-474 | moving a block between accounts changes both by the block's size and no other |
| PageTableRuns.Run | src/Rts/Sys/alloc.c:189-490 | after every run the tables hold what was last assigned to each page, the barrier is on or off as was last asked for and then has the current tables, every counter is the bytes of the pages on its account, and once a block was allocated the total is their sum |
| PageTableRuns.RunAndLookUp | src/Rts/Sys/alloc.c:292-433 | after every run, looking up a page gives what was last assigned to it, with every attribute that was added to it since, however often the tables slid and grew |
| WideMultiplication.UMul | src/Rts/Shared/multiply.c:37-60 | the two words are the exact product, and the high word does not overflow |
| WideMultiplication.Neg64 | src/Rts/Shared/multiply.c:62-70 | two's complement of a 64-bit number |
| WideMultiplication.Mul | src/Rts/Shared/multiply.c:16-32 | the signed product, including for the most negative operand |
| Bignums.DigitsDenoteWords | src/Rts/DotNet/Number.cs:120-147 | in both byte orders the digits denote what the data words denote |
| Bignums.SetLengthInBigits | src/Rts/DotNet/Number.cs:102-107 | the header word is the sign, which stays, in front of the new length |
| Bignums.SetSign | src/Rts/DotNet/Number.cs:112-114 | the header word is the new sign in front of the length, which stays |
| Bignums.BignumSet | src/Rts/DotNet/Number.cs:120-137 | one digit changes, and neither another digit nor the header |
| Bignums.AllocBignum | src/Rts/DotNet/Number.cs:91-96 | a positive bignum of the right length, all zeros |
| Bignums.MakeBignum | src/Rts/DotNet/Number.cs:34-48 | the bignum denotes magnitude and sign, without leading zero words |
| Bignums.MakeBignumFromShorts | src/Rts/DotNet/Number.cs:50-89 | the bignum denotes the digits read as unsigned, and when it has leading zeros |
| Bignums.LeadingZeroWord | src/Rts/DotNet/Number.cs:50-89 | digits that give a bignum with a leading zero word |
| Bignums.MakeNumberInt | src/Rts/DotNet/Factory.cs:86-96 | exactly the number: a fixnum if it is in range, otherwise a bignum without leading zeros |
| Bignums.MakeNumberUnsigned | src/Rts/DotNet/Factory.cs:97-101 | exactly the number, for uint and ulong: a fixnum if it is in range, otherwise a positive bignum without leading zeros |
| Bignums.MakeNumberLong | src/Rts/DotNet/Factory.cs:102-116 | exactly the number, and no intermediate result leaves the range of its type, even for the most negative long |
| Bignums.RepresentationIsUnique | src/Rts/DotNet/Number.cs:120-147 | in either byte order at most one length, sign and list of words stands for a number |

## Left out

- Promotion.CheneyEnv.Forward: its branch for large objects is left out, with the large-object space.
- Large objects: the promotion model has no large-object space; GoodStart requires every object of the emptied generations to be small.
- Which spare chunk a semispace takes, the bookkeeping of spare chunks, and running out of memory: the chunks that a promotion will get are an unlimited input, and chunks given back later are not among them.
- Instruction-cache flushing, statistics, the concurrent marker's callbacks and the static area of the collector.
- `cheney-split.c`, the one-destination collectors, and `perform_collect`, which makes the young area the old one.
- Promotion.CheneyEnv.OldspaceCopy: claims nothing about what C does after an overrun; the run stops there.
- Promotion.CheneyEnv.RememberVec: takes the buffer of the extra set as given. In this version of the code `np_remset_ptrs`, which hands it out, is a stub that fails an assertion (`src/Rts/Sys/memmgr.c`, lines 2966-2969).
- MutatorRuns.Run: has no generations between the nursery and the two areas to which objects are promoted by other collections, and allocates small objects only.
- Overflow slots and the eight slot fields of a stack frame are sequence values, so that two frames cannot share them; nor can they in the source.
- Scheme code that changes a vector of a captured continuation: it has no reference to one, and the runs of the model contain no such operation.
- StackCache.Cont.FillCache: a vector that is not a continuation is excluded; in the source it leads to cast exceptions.
- CallContext.Processor.Callback: Scheme code is any function of the registers and Result that it finds, to a run of stack operations, the registers and Result it leaves, and whether it throws.
- RestArguments.Vm.RestArgsInOneChunk: a chunk above the large-object limit is allocated as a large object of its own, outside the small-object heap, and the comment before list1 (`src/Rts/Fence/fence-millicode.c`, lines 349-354) calls subdividing such a chunk incorrect. The model does not tell the two kinds of memory apart.
- RestArguments.Vm.Collect: the collector moves pairs but does not reclaim any.
- StackRegions.Region.Flush: copies frames into heap values; in the source they become heap vectors in place. Conversion of return addresses to code offsets is left out, as are frames larger than the 4096 bytes for which stack.h provides.
- StackRegions.Region.RestoreFrame: the same conversions back are left out.
- StackRegions.Region.Reserve: reports that there is no room where C collects again and again without effect.
- SchemeCallouts.Millicode.IntegrityCheck: knows the registers of the model, and no other roots.
- FrameChains.DatumByTag: takes every word with a pointer tag for data; C also asks that the pointer is not below the page tables' base.
- StackRegions.Region.IntegrityCheck: fails at a frame that reaches beyond the area, where C reads on.
- setjmp and longjmp: a callout is one step, and a signal is a flag that is set between steps.
- The SATB barrier, and remembered sets beyond their contents.
- The heap limit, the large-table variant, and `gclib_shrink_block` of the page allocator; the operating system's choice of address is a parameter, and never page 0.
- PageTables.Allocator.AllocHeap: claims nothing about what C does with a block that the tables do not cover.
- PageTables.Allocator.Free: all pages of a block are on one account, as the source assumes.
- PageTables.Allocator.AddAttribute: not for bits that decide whose account a page is on.
- High-water marks of single accounts; only the total and its peak are modelled.
- Flonums, ratnums, compnums, and `copyList` of `Factory.cs`.
