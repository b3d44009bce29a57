# Verified model of the Poly/ML run-time system

A Dafny model of the parts of the Poly/ML run-time system (the C++ in `polyml/libpolyml`) that have a
short specification and a long implementation: arbitrary-precision arithmetic, the full garbage
collector, the index from addresses to memory areas, the task farm the collector runs on, the sharing
of equal cells and the copying done for an export. Code that works in place is modelled by methods on
arrays and by classes with the same fields; protocols of several threads are modelled as state machines
over their steps, for any number of threads and any interleaving; what is promised is stated about
the specification functions and proved as lemmas.

`dafny verify dfyconfig.toml` checks everything.

## What is proved

**Arithmetic** (`Arithmetic`, `Digits`, `BitLogic`, `PolyInts`, `ArbUnsigned`, `ArbDivide`,
`ArbLogical`, `ArbOps`). A number is a tagged word or a sign with a vector of bytes. Every operation on
canonical numbers gives the canonical number of the right value; the word width is a parameter. Long
division is Algorithm D of section 4.3.1 of Knuth, The Art of Computer Programming, volume 2, done in
place with normalisation, corrected estimates and a single add-back.

**The full collection** (`Heap`, `Bitmaps`, `LocalSpaces`, `Moves`, `CopySteps`, `CopyPhase`,
`CopyAllocation`, `CopyResults`, `CopyDestinations`, `Counting`, `UpdatePhase`, `UpdateRegions`, `FullGC`, `MarkGraph`,
`Marking`, `MarkBitmaps`, `Collection`). Marking with a stack of any size marks exactly what is
reachable by a path from the roots. Its bitmaps, counts and limits are what the copying must start from.
Any number of tasks may copy, in any interleaving. The update then leaves the live graph as it was, up to
renaming, and renames what permanent objects hold. `Collection.BeginCollection` and
`Collection.FinishCollection` put the phases together.

**Marking by several tasks** (`MarkTasks`, `MarkTaskProofs`, `MarkTaskResults`, `MarkTaskRuns`,
`MarkTaskChain`, `MarkTaskFailures`, `MarkTaskProgress`). Markers fork tasks, read each other's stacks without locks, mark or
scan an object twice, and drop objects from full stacks; the main thread takes and resets the limits of
each area, and lowers the count of markers in use, without the locks the others hold. Every read and
write that is not under a lock is a step of its own.

**Areas of memory** (`SpaceTrees`, `SpaceNodes`, `SpaceIndex`, `SpaceTables`, `UnusedSpace`). The 256-way tree over
the bytes of an address agrees with a plain set of disjoint ranges after any additions and removals,
including an addition for which memory ran out part of the way.

**The task farm** (`TaskFarm`), **sharing** (`ShareLists`, `ShareSort`, `ShareMeaning`, `ShareLevels`)
and **export** (`ExportState`, `Exporting`, `ExportRepair`).

## Main results

The table below has a row for every member that states something about the source. These matter most;
the others lead up to them.

- `ArbDivide.DivUnsignedLong`: division in place gives quotient and remainder of all operands, within its buffers.
- `ArbOps.QuotRem`, `ArbOps.QuotRemUnique`: truncating division of numbers of either form, the only pair there is.
- `ArbOps.ExactUnlessTopLost`: the logical operations are exact if and only if a test on the operands says so.
- `ArbOps.GcdGreatest`: the number computed is the greatest common divisor.
- `Marking.Marker.GCMarkPhase`: exactly the reachable objects are marked, whatever the size of the stack.
- `MarkTaskResults.TasksMarkReachable`: so they are by any number of markers in any interleaving, if and only if the objects lost on the way are complete after all.
- `MarkTaskResults.EntryLostExactly`, `MarkTaskResults.HalfEntryLostExactly`: exactly when a step loses one.
- `MarkTaskResults.LossNeeds`, `MarkTaskResults.OneThreadOrSpaceMarksReachable`: when none can.
- `MarkTaskProgress.MarkingGoesOn`: no marker is ever stuck.
- `MarkTaskFailures.MarkingCanLose`: a run from the start in which one is lost.
- `MarkTaskResults.ForkFindsMarker`, `MarkTaskFailures.ForkCanFail`: exactly when a fork finds a marker, and a run in which it does not.
- `CopyResults.CopyPhaseResult`: what any number of copying tasks leave, in any interleaving.
- `CopyDestinations.CopyDestination`, `CopyDestinations.NextDestination`: to which space every cell goes, and that it is the first there is.
- `CopyAllocation.Allocate`, `LocalSpaces.LocalMemSpace.FindFreeAndAllocate`: the cached search through the bitmap is the allocation those tasks take.
- `FullGC.UpdateAfterCopy`, `Collection.FinishCollection`: a whole collection preserves the live graph up to renaming.
- `SpaceTables.SpaceTable.AddTree`, `SpaceTables.SpaceTable.Find`: the tree is a map from disjoint ranges, also when memory runs out; exactly when it does.
- `TaskFarm.CompletionMeansDone`, `TaskFarm.WaitIsBounded`: the wait ends only when all is done, and ends unless tasks go on adding work.
- `TaskFarm.RunAttends`: as many workers are up, or will be woken, as there is work for.
- `TaskFarm.ZeroWithoutWork`, `TaskFarm.SemaphoreUnbounded`: exactly when the semaphore is zero without work, and that nothing else bounds it.
- `ShareSort.SortList`, `ShareMeaning.SortKeepsMeaning`, `ShareLevels.WordDataTask`: like cells are merged, each once, and every unfolding is as it was.
- `Exporting.CopyScan.ScanObjectAddress`, `ExportRepair.RunExport`: the copies are complete, need nothing of the heap, and the heap is put back, unless a null address is used; exactly when one is.

## Where the code does not do what it says

- `arb.cpp:1355` asserts that no carry is left in the logical operations and `arb.cpp:1281` says that
  there cannot be one. There is one exactly when the true answer is -256^n for operands of n bytes; the
  answer is then 0. Conjunction and exclusive-or can do this: `ArbOps.ConjunctionLosesTop` and
  `ArbOps.ExclusiveOrLosesTop`. `ArbOps.ExactUnlessTopLost` is an if-and-only-if: two short operands are
  dealt with exactly, others unless a test on the operands (`LosesTop`) holds. Disjunction is never affected.
- `RunRescan` reads and resets the limits of a space at `gc_mark_phase.cpp:634-637` without the lock
  under which `StackOverflow` widens them. An object that a forked task drops meanwhile is forgotten exactly
  if it does not lie between those limits that have been read: `MarkTasks.Loses` tells it from the
  state before the step, and `MarkTaskResults.EntryLostExactly` and `HalfEntryLostExactly` are
  if-and-only-ifs. The marking is exact if and only if the objects so lost are complete in the end
  (`TasksMarkReachable`). It takes more than one thread, more than one space, and an area that is not the first
  to be rescanned in its round (`LossNeeds`). `MarkTaskFailures.MarkingCanLose` is a run from the start, with
  three threads, two spaces and stacks of two entries, that ends with a reachable object unmarked.
- `RunRescan` lowers `nInUse` at `gc_mark_phase.cpp:644` without the lock under which others change it. If a
  fork comes between, its change is lost, and then a fork that the count allows may find no marker, against
  the assertion at line 199: `MarkTaskFailures.ForkCanFail` is such a run. The count is right exactly if
  nothing came between (`MarkTaskResults.CountIsExact`), the assertion holds exactly as
  `MarkTaskResults.ForkFindsMarker` says, and the count is zero again when marking ends
  (`MarkTaskResults.CountAtEnd`).
- The comment at `gctaskfarm.h:63-64` says that the semaphore is zero when there is no work and at most the
  number of threads otherwise. A worker that takes a task without having been woken for it leaves the post
  made for it behind. With no work queued the semaphore is zero exactly as `TaskFarm.ZeroWithoutWork` says,
  and it may reach any number with one thread (`TaskFarm.SemaphoreUnbounded`), unless the
  semaphore is of the kind that has a largest value. A worker that wakes without work does no harm.
- `exporter.cpp:290` uses the result of `NewExportSpace` before the test for failure at line 291. A null
  address is used exactly if the object is mutable and of bytes, no export space suits it and the new
  one fails: `Exporting.CopyScan.Allocate` and `Exporting.CopyScan.ScanValue`. In every other case the heap is
  left as it was (`ExportRepair.RunExport`). `ExportRepair.ExportWithoutMemory` is an input for which one is used.
- `wordDataTask` returns at `gc_share_phase.cpp:343-344` before it clears the number of words carried over, and
  is not run at all for a vector that has become empty (line 484). That vector's last number is added again
  in each later pass at line 534: `ShareLevels.WordDataTask` gives it back as it was.

## Model

| member | source | states |
|---|---|---|
| PolyInts.CanonicalUnique | polyml/libpolyml/arb.cpp:1183-1254 | Two canonical numbers of one value are the same object form, which is what lets comparison look at forms and lengths first |
| PolyInts.LongBeyondShort | polyml/libpolyml/arb.cpp:1190-1215 | A canonical long number lies beyond every short one on the side of its sign |
| PolyInts.ShortIsTaggedWord | polyml/libpolyml/globals.h:173 | A number is short exactly if its tagged word is a signed machine word |
| PolyInts.GetLength | polyml/libpolyml/arb.cpp:120-131 | The length without leading zero bytes |
| PolyInts.GetLong | polyml/libpolyml/arb.cpp:297-329 | Magnitude and sign of a number of either form, including the least short integer; only a non-zero number is negative |
| PolyInts.MakeCanonical | polyml/libpolyml/arb.cpp:346-397 | Any sign and magnitude buffer becomes the canonical number of that value: short exactly when it lies in [-MAXTAGGED-1, MAXTAGGED], otherwise with no unused leading word, and never a negative zero |
| ArbUnsigned.SumDigitsVal | polyml/libpolyml/arb.cpp:613-630 | The digits and last carry the addition loops produce have the value of the sum |
| ArbUnsigned.AddUnsignedLong | polyml/libpolyml/arb.cpp:572-633 | The canonical number of that sign and magnitude abs x + abs y, whichever operand is longer |
| ArbUnsigned.DifferenceDigitsVal | polyml/libpolyml/arb.cpp:750-764 | Modulo 256^n the digits are those of the difference, and no borrow is left when the second operand is the smaller |
| ArbUnsigned.SubUnsignedLong | polyml/libpolyml/arb.cpp:687-767 | The canonical number abs x - abs y with the given sign, reversed when the second is the larger |
| ArbUnsigned.MultiplyUnsigned | polyml/libpolyml/arb.cpp:900-915 | Row by row into a zeroed buffer: the value of the product |
| ArbUnsigned.CompareUnsigned | polyml/libpolyml/arb.cpp:1144-1181 | -1, 0 or 1 by the values of the magnitudes |
| ArbDivide.ShiftInto | polyml/libpolyml/arb.cpp:934-943 | The dividend shifted into the remainder buffer, with the bits shifted out in the spare byte |
| ArbDivide.ShiftDivisor | polyml/libpolyml/arb.cpp:945-952 | The divisor shifted in place loses no bits and has its top bit set |
| ArbDivide.EstimateWithinTwo | polyml/libpolyml/arb.cpp:959-960 | Theorem B of section 4.3.1 of Knuth, The Art of Computer Programming, volume 2: with a normalised divisor the first estimate is at most two too large |
| ArbDivide.FirstDigit | polyml/libpolyml/arb.cpp:959-960 | The first estimate as the code forms it, 255 when the leading digits agree, is a byte, never too small and at most two too large |
| ArbDivide.FailingTrial | polyml/libpolyml/arb.cpp:964-968 | A trial digit that fails the test is larger than the true digit, so correcting it never makes it too small |
| ArbDivide.PassingTrial | polyml/libpolyml/arb.cpp:964-968 | A trial digit that passes the test is at most one too large |
| ArbDivide.Corrected | polyml/libpolyml/arb.cpp:964-968 | What failing and passing mean for the test as the code writes it, on two divisor digits and three dividend digits |
| ArbDivide.TrialQuotient | polyml/libpolyml/arb.cpp:959-969 | The digit used is the true one or one more, reached by at most two corrections |
| ArbDivide.ProductDifferenceVal | polyml/libpolyml/arb.cpp:973-981 | What the subtraction of the product leaves and carries out, as numbers |
| ArbDivide.SubtractProduct | polyml/libpolyml/arb.cpp:973-979 | The loop stores exactly those digits and touches nothing else |
| ArbDivide.WrappedSumVal | polyml/libpolyml/arb.cpp:987-994 | The digits of adding the divisor back, the last carry dropped, as numbers |
| ArbDivide.AddBack | polyml/libpolyml/arb.cpp:987-994 | The loop stores exactly those digits and touches nothing else |
| ArbDivide.QuotientDigit | polyml/libpolyml/arb.cpp:956-997 | One turn of the main loop leaves the true digit and the true remainder of the window, with a single add-back at most |
| ArbDivide.DivideDigits | polyml/libpolyml/arb.cpp:954-998 | The loop over all digits: quotient and remainder of the normalised operands, nothing outside the result bytes changed |
| ArbDivide.ShiftedDownVal | polyml/libpolyml/arb.cpp:1001-1012 | Shifting digits right is division by the power of two |
| ArbDivide.Denormalise | polyml/libpolyml/arb.cpp:1001-1012 | The in-place loop from the top digit down produces those digits |
| ArbDivide.ScaledDivision | polyml/libpolyml/arb.cpp:930-952 | Scaling both operands keeps the quotient and scales the remainder |
| ArbDivide.DivUnsignedLong | polyml/libpolyml/arb.cpp:922-1013 | For any divisor with a non-zero top byte and no longer than the dividend: quotient and remainder of the original operands; nothing past the promised bytes is written; the quotient may be absent |
| BitLogic.BitwiseBit | polyml/libpolyml/arb.cpp:1361-1374 | The reference operation: each bit of the infinite two's complement result is the operation on the bits of the operands |
| BitLogic.BitwiseSign | polyml/libpolyml/arb.cpp:1303 | The sign of the reference operation is the operation on the signs |
| BitLogic.BitsDetermine | polyml/libpolyml/arb.cpp:1258-1359 | Bits and sign determine a number, so the facts about the bits and the sign of the reference operation leave no other result |
| ArbLogical.LogicDigitsVal | polyml/libpolyml/arb.cpp:1311-1352 | What both loops store together with the last carry is the true answer, negated when the sign says so |
| ArbLogical.FinalAnswer | polyml/libpolyml/arb.cpp:1353-1358 | The stored magnitude with its sign is the answer, and the carry asserted to be zero at the end is one exactly when the top of the answer is lost |
| ArbLogical.AnswerRange | polyml/libpolyml/arb.cpp:1281-1294 | An answer stays within the bytes of the longer operand unless it is exactly -256^n, and a test on the operands alone tells when |
| ArbLogical.LogicalLong | polyml/libpolyml/arb.cpp:1258-1359 | The routine on magnitudes and signs: canonical, and the true answer unless that is -256^n for operands of n bytes, when it is 0 |
| ArbOps.LogicalC | polyml/libpolyml/arb.cpp:1376-1464 | And, or and exclusive-or of canonical numbers of either form: the short cut for two short operands, otherwise what the general routine answers |
| ArbOps.ExactUnlessTopLost | polyml/libpolyml/arb.cpp:1258-1464 | On numbers of either form the routines are exact if and only if both operands are short or the top of the answer is not lost; otherwise they answer 0 |
| ArbOps.ConjunctionLosesTop | polyml/libpolyml/arb.cpp:1281-1284 | Two canonical long operands, 1 - 256^w and 2 - 256^w, whose conjunction is -256^w and is answered as 0 |
| ArbOps.ExclusiveOrLosesTop | polyml/libpolyml/arb.cpp:1281-1284 | A long and a short operand, 1 - 256^w and 1, whose exclusive-or is -256^w and is answered as 0 |
| ArbOps.NegLong | polyml/libpolyml/arb.cpp:489-526 | Negation, canonical, including the least short integer |
| ArbOps.AddLong | polyml/libpolyml/arb.cpp:770-806 | Addition of numbers of either form, canonical |
| ArbOps.SubLong | polyml/libpolyml/arb.cpp:808-845 | Subtraction of numbers of either form, canonical |
| ArbOps.MultLong | polyml/libpolyml/arb.cpp:848-919 | Multiplication of numbers of either form, canonical |
| ArbOps.CompareLong | polyml/libpolyml/arb.cpp:1183-1254 | -1, 0 or 1 by value, for numbers of either form |
| ArbOps.QuotRemProperty | polyml/libpolyml/arb.cpp:1017-1112 | What truncating division means: x = q*y + r, abs r < abs y, and r is zero or has the sign of x |
| ArbOps.QuotRemUnique | polyml/libpolyml/arb.cpp:1017-1112 | No other pair has that property |
| ArbOps.QuotRem | polyml/libpolyml/arb.cpp:1017-1112 | Both results, canonical, for all operands, the least integer by -1 among them; a divide error exactly when the divisor is zero |
| ArbOps.DivLong | polyml/libpolyml/arb.cpp:1116-1121 | The truncated quotient, or a divide error exactly when the divisor is zero |
| ArbOps.RemLong | polyml/libpolyml/arb.cpp:1123-1128 | The remainder of truncating division, or a divide error exactly when the divisor is zero |
| ArbOps.GcdDivides | polyml/libpolyml/arb.cpp:1679-1694 | Euclid's number divides both arguments |
| ArbOps.GcdGreatest | polyml/libpolyml/arb.cpp:1679-1694 | Every common divisor divides Euclid's number, so it is the greatest |
| ArbOps.Gxd | polyml/libpolyml/arb.cpp:1679-1694 | The loop on numbers of either form ends with Euclid's number |
| ArbOps.GcdArbitrary | polyml/libpolyml/arb.cpp:1708-1716 | For arguments of any sign, the non-negative greatest common divisor |
| ArbOps.LcmArbitrary | polyml/libpolyml/arb.cpp:1721-1725 | A common multiple whose product with the divisor is the product of the arguments; an error exactly when both are zero |
| Bitmaps.Bitmap.SetBit | polyml/libpolyml/bitmap.h:40-49 | Sets one bit and no other |
| Bitmaps.Bitmap.SetBits | polyml/libpolyml/bitmap.cpp:80-136 | Sets exactly the bits of the range, by part bytes and whole bytes |
| Bitmaps.Bitmap.ClearBits | polyml/libpolyml/bitmap.cpp:141-148 | Clears the range and otherwise only bits that share a byte with it |
| Bitmaps.Bitmap.CountZeroBits | polyml/libpolyml/bitmap.cpp:151-189 | The exact zero run when it is shorter than asked for, and otherwise some number no smaller, which may overshoot |
| Bitmaps.Bitmap.FindFree | polyml/libpolyml/bitmap.cpp:194-219 | The highest run of n clear bits between limit and start; failure exactly if there is none or there are no more than n bits in between |
| Bitmaps.Bitmap.CountSetBits | polyml/libpolyml/bitmap.cpp:222-242 | The number of bits set in the bytes looked at |
| LocalSpaces.LocalMemSpace.ResetForCopy | polyml/libpolyml/gc_copy_phase.cpp:346-358 | The start cache, the limits and the allocation pointer as the copy phase begins |
| LocalSpaces.LocalMemSpace.PropagateStarts | polyml/libpolyml/gc_copy_phase.cpp:107-115 | Each entry from the last size up to this becomes the least of those before it, the others stay, and what the entries bound they still bound |
| LocalSpaces.LocalMemSpace.FindFreeAndAllocate | polyml/libpolyml/gc_copy_phase.cpp:93-142 | The cache never hides usable space: success is the highest free run at or above the limit, whose bits alone become set; failure changes nothing and means no run begins strictly above the limit |
| Heap.Resolve | polyml/libpolyml/gc_update_phase.cpp:66-71 | Following tombstones always ends, at the final place of the object, where there is a length word |
| Moves.MoveKeepsHeaders | polyml/libpolyml/gc_copy_phase.cpp:322-326 | After one cell has moved every header is a length word in a final place or a tombstone that leads on |
| Moves.MoveKeepsContents | polyml/libpolyml/gc_copy_phase.cpp:152-183 | After one cell has moved each marked object is intact in its final place, no two in one place |
| CopyPhase.FirstSetIsHeader | polyml/libpolyml/gc_copy_phase.cpp:268-278 | The first set bit a scan finds is the length word of an object that has not moved, whatever the other tasks do; so the assertion on the header holds |
| CopyPhase.LimitsNeverGoDown | polyml/libpolyml/gc_copy_phase.cpp:290-292 | A destination belongs to the task, comes no later than the source, is mutable for a mutable cell, and is never searched from a lower limit than before, as the start cache needs |
| CopyPhase.CellCanMove | polyml/libpolyml/gc_copy_phase.cpp:286-331 | The copy goes to free memory, in an earlier space or higher up in the same one |
| CopyPhase.AllScanned | polyml/libpolyml/gc_copy_phase.cpp:263-270 | A scan that finds nothing more has passed every object of its source |
| CopyPhase.TakeKeeps | polyml/libpolyml/gc_copy_phase.cpp:237-257 | Taking a space to scan keeps the invariant |
| CopyPhase.SkipKeeps | polyml/libpolyml/gc_copy_phase.cpp:237-245 | Passing over a space another task owns keeps the invariant |
| CopyPhase.TopKeeps | polyml/libpolyml/gc_copy_phase.cpp:265-270 | Reaching the top of the source keeps the invariant |
| CopyPhase.NextKeeps | polyml/libpolyml/gc_copy_phase.cpp:187-225 | Turning to the first further space of the right kind that has no owner, or to the source itself, keeps the invariant |
| CopyPhase.StayKeeps | polyml/libpolyml/gc_copy_phase.cpp:305-321 | Leaving a cell where it is, with the limit lowered to it, keeps the invariant |
| CopyPhase.CopyKeeps | polyml/libpolyml/gc_copy_phase.cpp:322-331 | Moving a cell keeps the invariant |
| CopyResults.InitialInv | polyml/libpolyml/gc_copy_phase.cpp:341-358 | The invariant holds when the phase begins |
| CopyResults.StepKeeps | polyml/libpolyml/gc_copy_phase.cpp:229-339 | Every step of any task keeps the invariant: contents intact, forwarding acyclic, no mutable object in an immutable space |
| CopyResults.RunKeeps | polyml/libpolyml/gc_copy_phase.cpp:229-339 | The invariant of the copy phase holds throughout every interleaving of any number of tasks |
| CopyResults.FinishedRetains | polyml/libpolyml/gc_copy_phase.cpp:305-310 | When all tasks are done whatever stays in a space lies at or above its upperAllocPtr, where an object begins |
| CopyResults.CopyPhaseResult | polyml/libpolyml/gc_copy_phase.cpp:341-374 | The result of the whole phase for any run |
| CopyDestinations.CopyDestination | polyml/libpolyml/gc_copy_phase.cpp:285-299 | In every run a cell is copied within its source or to a space of its own kind that is no allocation space, except that an immutable cell may go to a mutable space as long as its task has no place for immutable cells; every such space before the destination has an owner; and the cell goes to the highest words free for it there |
| CopyDestinations.NextDestination | polyml/libpolyml/gc_copy_phase.cpp:187-225 | In every run a task turns to a further space only when the place it has for the cell is full, and takes the first one of the right kind that has no owner, or its source if that comes first |
| CopyDestinations.LeavesSource | polyml/libpolyml/gc_copy_phase.cpp:302-321 | A task leaves a source only when nothing allocated is left beyond its position, or when there is no room for the cell higher up and no immutable cell would have to leave a mutable space |
| CopyAllocation.Allocate | polyml/libpolyml/gc_copy_phase.cpp:93-142 | The search in an area gives what a step of the copy phase takes, and leaves the bits, the bound and the limit of the state after that step |
| CopyResults.ScanGoesOn | polyml/libpolyml/gc_copy_phase.cpp:263-332 | A scanning task can always go on |
| CopyResults.ChoosingGoesOn | polyml/libpolyml/gc_copy_phase.cpp:233-248 | A task between sources always goes on: it takes the next space if nobody else owns it and passes over it otherwise |
| CopyResults.StepApproaches | polyml/libpolyml/gc_copy_phase.cpp:233-338 | Each step brings its task nearer the end of its run and no other task further from its own, so runs end |
| Counting.TotalMoved | polyml/libpolyml/gc.cpp:233-246 | Objects that stay apart take as many words where they end as where they began |
| UpdatePhase.UpdateAddress | polyml/libpolyml/gc_update_phase.cpp:66-71 | The loop over tombstones ends, at the final place of the object |
| UpdatePhase.ScanAddress | polyml/libpolyml/gc_update_phase.cpp:103-124 | A field is renamed to the final place of what it points to, and left alone if that has not moved |
| UpdatePhase.ScanObject | polyml/libpolyml/gc_update_phase.cpp:163-204 | An object that has moved is skipped; one in its final place is counted and its fields renamed |
| UpdatePhase.ClearGap | polyml/libpolyml/gc_update_phase.cpp:143-160 | Words that belong to no object are cleared as far as the next allocated one |
| UpdatePhase.UpdateObjectsInArea | polyml/libpolyml/gc_update_phase.cpp:129-214 | Every retained object of an area has all its fields renamed, gaps are cleared, the count is the words retained, and nothing else changes |
| FullGC.UpdateAreas | polyml/libpolyml/gc_update_phase.cpp:248-260 | All areas: each updates its own objects, and the counts add up to the words of all retained objects |
| FullGC.UpdateRoots | polyml/libpolyml/gc_update_phase.cpp:78-98 | Addresses kept by the run-time system are renamed |
| UpdateRegions.ScanAddressesInObject | polyml/libpolyml/scanaddrs.cpp:118-158 | Every word of a permanent object that holds an address is renamed, from the last to the first, and nothing else is written |
| UpdateRegions.ScanAddressesInRegion | polyml/libpolyml/scanaddrs.cpp:229-260 | Walking an area renames the fields of each of its word objects, and nothing else |
| UpdateRegions.UpdatePermanent | polyml/libpolyml/gc_update_phase.cpp:269-275 | All permanent mutable areas: exactly the fields of their objects are renamed |
| UpdateRegions.ObjectOfAll | polyml/libpolyml/scanaddrs.cpp:229-260 | The fields of every word object of the areas are among the words renamed, and no word of a byte object is |
| FullGC.GraphAfterUpdate | polyml/libpolyml/gc_update_phase.cpp:129-214 | After copying and updating the live graph is as before up to renaming, with every object in a place of its own |
| FullGC.WordsConserved | polyml/libpolyml/gc.cpp:233-246 | The words counted by the update are the words marked |
| FullGC.UpdateAfterCopy | polyml/libpolyml/gc.cpp:218-246 | Copying, for any interleaving, then updating: the live graph is preserved up to renaming, the roots and the fields of permanent objects are renamed with it, no other word outside the local spaces changes, and the counts agree |
| Collection.MarkedInFirst | polyml/libpolyml/gc.cpp:162-181 | The words marked, counted space by space, are those of all marked objects |
| Collection.BeginCollection | polyml/libpolyml/gc_mark_phase.cpp:649-678 | The mark phase and the making of every bitmap, one after the other: exact marks, and for each space the bits, counts and limit of what is marked in it |
| Collection.PermanentLeads | polyml/libpolyml/gc_mark_phase.cpp:525-540 | What a field of a permanent mutable object leads to is marked or permanent |
| Collection.FinishCollection | polyml/libpolyml/gc.cpp:158-246 | From the end of marking to the end of the collection: the objects there are exactly those that were reachable, with the same length words and bytes and every address renamed; roots and fields of permanent objects are renamed; the words updated are those marked |
| MarkGraph.ClosedHasReachable | polyml/libpolyml/gc_mark_phase.cpp:649-668 | Any closed set has every object a path from the roots leads to |
| MarkGraph.ReachableIsClosed | polyml/libpolyml/gc_mark_phase.cpp:649-668 | The reachable objects are themselves a closed set, and so the least one |
| Marking.Marker.StackOverflow | polyml/libpolyml/gc_mark_phase.cpp:166-180 | The range to be rescanned of the object's space comes to include it and never shrinks |
| Marking.Marker.PushToStack | polyml/libpolyml/gc_mark_phase.cpp:116-127 | With no other thread to fork to, the object is on the stack or, if that is full, within a range to be rescanned |
| Marking.Marker.TestForScan | polyml/libpolyml/gc_mark_phase.cpp:248-281 | Whether a field leads to an object to be scanned; a byte object is marked at once |
| Marking.Marker.ScanWords | polyml/libpolyml/gc_mark_phase.cpp:405-455 | The first two unmarked objects the cell leads to, and whether there are more |
| Marking.Marker.ScanOne | polyml/libpolyml/gc_mark_phase.cpp:366-484 | One turn of the loop keeps every marked object scanned, on the stack, current or in a rescan range |
| Marking.Marker.ScanAddressesInObject | polyml/libpolyml/gc_mark_phase.cpp:361-485 | The loop ends with the stack as it was and nothing forgotten, for any stack size |
| Marking.Marker.ScanObjectAddress | polyml/libpolyml/gc_mark_phase.cpp:296-345 | A root is marked with what it leads to, unless it is not local or marked already |
| Marking.Marker.RescanRegion | polyml/libpolyml/gc_mark_phase.cpp:616-641 | Rescanning a range scans every marked object in it |
| Marking.Marker.RunRescan | polyml/libpolyml/gc_mark_phase.cpp:625-647 | Afterwards either more is marked than before or no range is left to rescan; the answer is false only if nothing was marked, and when there was no range to begin with |
| Marking.Marker.RescanAll | polyml/libpolyml/gc_mark_phase.cpp:666-668 | The rescan loop ends, with no range left to rescan and nothing forgotten |
| Marking.Marker.MarkRoots | polyml/libpolyml/gc_mark_phase.cpp:525-550 | All roots are marked with what they lead to, but for what the rescan ranges hold |
| Marking.Marker.GCMarkPhase | polyml/libpolyml/gc_mark_phase.cpp:649-668 | For every graph and every stack of at least one entry the marks at the end are exactly the reachable objects |
| MarkBitmaps.SetBitmaps | polyml/libpolyml/gc_mark_phase.cpp:552-595 | The marks of a space become bits of exactly the words of its marked objects, counted as mutable and immutable, with the lowest marked header as the limit |
| MarkBitmaps.CountWords | polyml/libpolyml/gc.cpp:162-171 | Counting set bits counts those words |
| MarkBitmaps.CreateBitmaps | polyml/libpolyml/gc_mark_phase.cpp:597-602 | For each space the bits counted are the words marked, so the check before copying succeeds |
| MarkBitmaps.MarkingStartsCopying | polyml/libpolyml/gc_copy_phase.cpp:341-358 | What marking leaves is what the copy phase must start from |
| MarkBitmaps.MarkingIsClosed | polyml/libpolyml/gc_mark_phase.cpp:649-693 | Exact marks lead only to marked and permanent objects, as the update needs |
| MarkTaskProofs.SlotKnown | polyml/libpolyml/gc_mark_phase.cpp:216-236 | Whatever a thief reads in another marker's stack, without a lock, is an object already marked or a permanent one already visited |
| MarkTaskProofs.StealKeeps | polyml/libpolyml/gc_mark_phase.cpp:211-244 | Stealing, which leaves the entry where it is so that it may be scanned twice, keeps the invariant |
| MarkTaskProofs.ForkKeeps | polyml/libpolyml/gc_mark_phase.cpp:184-206 | Starting a task on another marker keeps the invariant |
| MarkTaskProofs.WidenStartKeeps | polyml/libpolyml/gc_mark_phase.cpp:168-173 | With the stack full, lowering the start of the area of the object's space keeps the invariant, whatever the main thread is doing |
| MarkTaskProofs.WidenEndKeeps | polyml/libpolyml/gc_mark_phase.cpp:174-180 | So does raising its end; an object that is thereby lost is the one this step adds to those lost |
| MarkTaskProofs.OverflowIsLocal | polyml/libpolyml/gc_mark_phase.cpp:166-180 | Only local objects are ever dropped, so their space is found |
| MarkTaskProofs.NoteWordKeeps | polyml/libpolyml/gc_mark_phase.cpp:418-425 | Noting an object to be scanned, or breaking off at a third, keeps the invariant |
| MarkTaskProofs.EndWordsKeeps | polyml/libpolyml/gc_mark_phase.cpp:457-467 | Coming to the end of a cell, with the second object marked and pushed, keeps the invariant |
| MarkTaskProofs.MarkFirstKeeps | polyml/libpolyml/gc_mark_phase.cpp:469-474 | Marking the first object and going on with it keeps the invariant |
| MarkTaskProofs.PopKeeps | polyml/libpolyml/gc_mark_phase.cpp:477-481 | Popping, before the slot is cleared, keeps the invariant |
| MarkTaskProofs.ReadingKeeps | polyml/libpolyml/gc_mark_phase.cpp:632-635 | Each reading of a limit, and of the count, is a step that keeps the invariant |
| MarkTaskProofs.ResetStartKeeps | polyml/libpolyml/gc_mark_phase.cpp:636 | Resetting the start of an area keeps the invariant; the objects thereby lost are those half entered past the limits read |
| MarkTaskProofs.ResetEndKeeps | polyml/libpolyml/gc_mark_phase.cpp:637 | Resetting its end, and going on to the objects between the limits read, always does |
| MarkTaskResults.InitialInv | polyml/libpolyml/gc_mark_phase.cpp:525-550 | The invariant holds at the start |
| MarkTaskResults.StepKeeps | polyml/libpolyml/gc_mark_phase.cpp:184-244 | Every step of any marker keeps the invariant: each marked object is fully scanned, held by a marker, in an area to be rescanned, or among those a step has lost |
| MarkTaskResults.RunKeeps | polyml/libpolyml/gc_mark_phase.cpp:184-244 | The marking invariant holds in every interleaving |
| MarkTaskResults.RunForgets | polyml/libpolyml/gc_mark_phase.cpp:166-180 | In every run what is lost has been marked |
| MarkTaskResults.IdleLeavesAreas | polyml/libpolyml/gc_mark_phase.cpp:625-647 | Once all markers are idle only the areas to be rescanned hold unfinished work, but for what has been lost |
| MarkTaskResults.TasksMarkReachable | polyml/libpolyml/gc_mark_phase.cpp:649-668 | In every run, when the rescanning has ended, only reachable objects are marked, whatever was forked, stolen, scanned twice or dropped on the way; and all of them are if and only if each object lost on the way is complete after all |
| MarkTaskResults.WithoutLossMarksReachable | polyml/libpolyml/gc_mark_phase.cpp:649-668 | If no step has lost an object the marks are exactly the reachable objects |
| MarkTaskResults.EntryLostExactly | polyml/libpolyml/gc_mark_phase.cpp:632-637 | An object entered while its area is being taken is recorded, when the area has been taken, if and only if it lies between those limits that have been read |
| MarkTaskResults.HalfEntryLostExactly | polyml/libpolyml/gc_mark_phase.cpp:166-180 | An object half entered as the start of the area is reset is recorded, whichever of the two is completed first, if and only if it lies between the limits read |
| MarkTaskResults.TakesAtOnce | polyml/libpolyml/gc_mark_phase.cpp:634-641 | What taking an area comes to is reached by steps of the main thread alone |
| MarkTaskResults.FirstAreaLosesNothing | polyml/libpolyml/gc_mark_phase.cpp:625-641 | Until a round has found an area no task is running, so taking the first loses nothing |
| MarkTaskResults.LossNeeds | polyml/libpolyml/gc_mark_phase.cpp:625-641 | A step loses an object only with more than one thread, more than one space, and an area taken before in the round |
| MarkTaskResults.OneThreadOrSpaceMarksReachable | polyml/libpolyml/gc_mark_phase.cpp:625-668 | With one thread, or one space, every run that ends has marked exactly the reachable objects |
| MarkTaskFailures.MarkingCanLose | polyml/libpolyml/gc_mark_phase.cpp:634-637 | A run from the start to the end, with three threads, two spaces and stacks of two entries, that loses two objects and leaves a reachable one unmarked |
| MarkTaskResults.StepCounts | polyml/libpolyml/gc_mark_phase.cpp:184-206 | After every step nInUse is the number of markers in use less the changes overwritten in this round |
| MarkTaskResults.RunIsOrderly | polyml/libpolyml/gc_mark_phase.cpp:525-647 | So it is in every run from the start; and spaces are rescanned in order, with no task running until a round has found an area |
| MarkTaskResults.CountIsExact | polyml/libpolyml/gc_mark_phase.cpp:644 | Lowered without the lock, nInUse is right if and only if nothing changed it in between |
| MarkTaskResults.ForkFindsMarker | polyml/libpolyml/gc_mark_phase.cpp:190-200 | There is an inactive marker for a fork, as the code asserts, if and only if nInUse with the changes overwritten is below the number of threads |
| MarkTaskResults.ForkFindsMarkerUnlessOverwritten | polyml/libpolyml/gc_mark_phase.cpp:190-200 | So a fork that the count allows finds one as long as no fork has been overwritten |
| MarkTaskResults.CountAtEnd | polyml/libpolyml/gc_mark_phase.cpp:528 | nInUse is zero when marking has ended, as the next marking asserts |
| MarkTaskProgress.MarkerGoesOn | polyml/libpolyml/gc_mark_phase.cpp:166-244 | A marker in use has a next step, whatever the others do, unless it waits for the lock of a space or there is no marker for the task it is to fork |
| MarkTaskProgress.MarkingGoesOn | polyml/libpolyml/gc_mark_phase.cpp:525-668 | In every run, until marking has ended there is a next step, as long as no fork lacks a marker |
| MarkTaskProgress.ForksKeepWork | polyml/libpolyml/gc_mark_phase.cpp:184-206 | In every run a task is forked only by a marker that keeps two objects on its own stack, and gets the first marker not in use |
| MarkTaskProgress.StealsMarked | polyml/libpolyml/gc_mark_phase.cpp:216-236 | In every run a thief takes from a stack of the farm an object that is marked, or permanent and visited, scans it from its first word and leaves it there |
| MarkTaskFailures.ForkCanFail | polyml/libpolyml/gc_mark_phase.cpp:190-200 | A run from the start to a fork that the count allows and for which all markers are in use, against the assertion |
| MarkTaskRuns.StealsInVain | polyml/libpolyml/gc_mark_phase.cpp:216-236 | After stealing a finished object a thief can come back to exactly where it was, so that several markers end only if each is let run |
| SpaceTrees.LookupAdded | polyml/libpolyml/memmgr.cpp:889-923 | After an addition the range leads to its space and every other address to what it did |
| SpaceTrees.LookupRemoved | polyml/libpolyml/memmgr.cpp:929-968 | After a removal the range leads to nothing and every other address to what it did |
| SpaceTrees.AddedNoEmpty | polyml/libpolyml/memmgr.cpp:889-923 | Adding leaves no node without an entry |
| SpaceTrees.RemovedNoEmpty | polyml/libpolyml/memmgr.cpp:960-967 | Removing leaves no node without an entry |
| SpaceTrees.FreeIsNull | polyml/libpolyml/memmgr.cpp:912-918 | A whole entry whose addresses are all free is null, which is what is asserted before it is set |
| SpaceTrees.AddedKeeps | polyml/libpolyml/memmgr.cpp:889-923 | Adding keeps every disjoint range installed |
| SpaceTrees.RemovedKeeps | polyml/libpolyml/memmgr.cpp:929-968 | Removing a range keeps every disjoint range installed |
| SpaceTrees.PartlyRemovable | polyml/libpolyml/memmgr.cpp:929-968 | What a broken-off addition has left is something a removal of the same range can be applied to |
| SpaceTrees.Restored | polyml/libpolyml/memmgr.cpp:929-968 | Removing after a whole or broken-off addition gives back the tree exactly as it was |
| SpaceIndex.StartParts | polyml/libpolyml/memmgr.cpp:889-899 | The shifted start word of a range, cut at its first byte, against the range in the entry |
| SpaceIndex.EndParts | polyml/libpolyml/memmgr.cpp:889-899 | The shifted end word of a range, cut at its first byte, against the range in the entry, with zero for the top of memory |
| SpaceIndex.AddedGrows | polyml/libpolyml/memmgr.cpp:889-923 | An addition gives back no node and makes at most a fixed number for each byte of the word, whatever the range |
| SpaceIndex.AddTreeRange | polyml/libpolyml/memmgr.cpp:889-923 | The recursion over shifted words computes the addition if and only if there is memory for the nodes it needs, each of which is taken from the budget, and otherwise part of it with the whole budget used |
| SpaceIndex.RemoveTreeRange | polyml/libpolyml/memmgr.cpp:929-968 | The recursion computes the removal, also of a partial addition |
| SpaceIndex.SpaceForAddress | polyml/libpolyml/memmgr.h:253-268 | The loop down the tree answers what the tree holds for the address |
| SpaceTables.SpaceTable.Find | polyml/libpolyml/memmgr.h:253-268 | A space is found for an address if and only if it lies in a range present, and then it is that range's |
| SpaceTables.SpaceTable.AddTree | polyml/libpolyml/memmgr.cpp:875-880 | A range disjoint from those present is added if and only if there is memory for the nodes missing, which are fewer than two for each byte of a word; when memory runs out and the caller removes it again nothing has changed |
| SpaceTables.SpaceTable.RemoveTree | polyml/libpolyml/memmgr.cpp:882-886 | A range present is removed and all others stay |
| SpaceTables.LocalTable.AddLocalSpace | polyml/libpolyml/memmgr.cpp:205-243 | The space is added to the index and to the table, which keeps immutable, mutable, allocation order, if and only if the table can grow and there is memory for the nodes missing; otherwise both are as they were |
| UnusedSpace.FillUnusedSpace | polyml/libpolyml/memmgr.cpp:526-541 | The words are filled end to end with immutable byte objects, all but the last of the maximum length; nothing but their headers is written |
| TaskFarm.QueuedAt | polyml/libpolyml/gctaskfarm.cpp:176-179 | Where in the ring each queued entry is |
| TaskFarm.WorkQueue.AddWork | polyml/libpolyml/gctaskfarm.cpp:135-151 | Appends unless full; a signal is asked for when not every worker has work already |
| TaskFarm.WorkQueue.TakeWork | polyml/libpolyml/gctaskfarm.cpp:175-185 | Takes the oldest entry |
| TaskFarm.MainAddsWork | polyml/libpolyml/gctaskfarm.cpp:135-151 | What adding to the ring buffer does, and whether it asks for a signal, is a step of the main thread in the protocol; a full queue refuses it |
| TaskFarm.WorkerAddsWork | polyml/libpolyml/gctaskfarm.cpp:135-151 | Likewise for a task that adds work |
| TaskFarm.WorkerTakesWork | polyml/libpolyml/gctaskfarm.cpp:175-185 | The task taken from the ring buffer is the one the worker runs after a step of the protocol |
| TaskFarm.StepKeeps | polyml/libpolyml/gctaskfarm.cpp:160-235 | Every step of the workers and the main thread keeps the invariant |
| TaskFarm.RunKeeps | polyml/libpolyml/gctaskfarm.cpp:160-235 | The invariant of the farm holds in every run with at least one worker |
| TaskFarm.TasksConserved | polyml/libpolyml/gctaskfarm.cpp:135-235 | Tasks leave in the order added, once each; added = queued + running + done, and the active count is the number running |
| TaskFarm.CompletionMeansDone | polyml/libpolyml/gctaskfarm.cpp:254-268 | The wait ends only when everything added has been done |
| TaskFarm.QueueIsCaredFor | polyml/libpolyml/gctaskfarm.cpp:135-235 | While work is queued some worker is active or awake, the semaphore is up, or a post is owed |
| TaskFarm.RunAttends | polyml/libpolyml/gctaskfarm.cpp:135-151 | In every run the workers that are not blocked, the count of the semaphore and the posts owed are together at least as many as the tasks queued, or as the workers if there are fewer |
| TaskFarm.WaitingIsNotForever | polyml/libpolyml/gctaskfarm.cpp:254-268 | While the main thread waits some worker can always take a step |
| TaskFarm.CheckSettles | polyml/libpolyml/gctaskfarm.cpp:254-268 | In every run, when the main thread checks whether it may stop waiting, it goes on if and only if nothing is queued or being run, and waits otherwise |
| TaskFarm.WorkerStep | polyml/libpolyml/gctaskfarm.cpp:160-235 | A worker can go on as long as it is not blocked or the semaphore is up |
| TaskFarm.WaitIsBounded | polyml/libpolyml/gctaskfarm.cpp:160-268 | While it waits each step but an addition lowers a measure, so that the wait has at most a fixed number of steps and five for each addition |
| TaskFarm.RunTallies | polyml/libpolyml/gctaskfarm.cpp:135-235 | In every run the count of the semaphore is posts less wakes and posts refused; each task added has its post, made or owed, unless none is wanted; each wake is for a task, in vain or still to come to something |
| TaskFarm.SemaphoreCount | polyml/libpolyml/gctaskfarm.h:63-66 | What the count is in terms of the tasks queued and those taken by workers not woken for them; and the number of threads bounds a semaphore with a largest value |
| TaskFarm.ZeroWithoutWork | polyml/libpolyml/gctaskfarm.h:63-64 | With no work queued the semaphore is zero if and only if the tasks taken by workers not woken for them are as many as those added without a signal, the posts refused, owed or used in vain, and the workers woken that have yet to look |
| TaskFarm.SemaphoreUnbounded | polyml/libpolyml/gctaskfarm.h:63-64 | For every n a run of one thread after which the semaphore is n with no work queued: the number of threads is no bound |
| ShareLists.MergedUnion | polyml/libpolyml/gc_share_phase.cpp:255-318 | Two merged sets with no contents in common are merged together, and their counts add |
| ShareSort.Partition | polyml/libpolyml/gc_share_phase.cpp:259-288 | Cells equal to the first are forwarded to it and counted; the others are split by order; none is lost |
| ShareSort.SortTurn | polyml/libpolyml/gc_share_phase.cpp:257-304 | One turn merges the median's group and the smaller side and leaves the larger, which is shorter |
| ShareSort.SortTwo | polyml/libpolyml/gc_share_phase.cpp:418-431 | Two cells are compared at once |
| ShareSort.SortList | polyml/libpolyml/gc_share_phase.cpp:255-318 | In the end each contents has one cell with the length word, all others forward directly to it, and the count grows by cells less different contents |
| ShareMeaning.MergesKeepMeaning | polyml/libpolyml/gc_share_phase.cpp:255-318 | Forwarding cells to cells like them leaves the unfolding of every cell, to any depth, as it was |
| ShareMeaning.RewritesKeepMeaning | polyml/libpolyml/gc_share_phase.cpp:369-373 | Replacing addresses of merged cells by those of their representatives leaves the unfolding of every cell as it was |
| ShareMeaning.SortKeepsMeaning | polyml/libpolyml/gc_share_phase.cpp:255-318 | Sorting a list leaves the unfolding of every cell as it was |
| ShareLevels.UpdateWords | polyml/libpolyml/gc_share_phase.cpp:361-381 | The words of a cell are brought up to date as far as the first address still to be shared, and no further; the cell is deferred exactly if there is one; the count carried over grows by the number of words that are not what they were |
| ShareLevels.ScatterWords | polyml/libpolyml/gc_share_phase.cpp:358-400 | Every cell goes either back to the list or to the bucket of its contents; the count carried over is the number of words of all these cells that are not what they were |
| ShareLevels.SortData | polyml/libpolyml/gc_share_phase.cpp:405-438 | All buckets are merged; cells of different buckets have different contents, so the table as a whole is |
| ShareLevels.WordDataTask | polyml/libpolyml/gc_share_phase.cpp:338-402 | One level: deferred cells are in the list, each with an address that was still to be shared; the others hold only settled addresses and are merged with a right count; every unfolding is as it was; the count carried over is the number of words rewritten, or for an empty list what it was before |
| ShareLevels.HashAndSortAllTask | polyml/libpolyml/gc_share_phase.cpp:440-464 | All cells of the list are merged, with a right count; every unfolding is as it was |
| ExportState.FieldToScan | polyml/libpolyml/exporter.cpp:178-184 | A word of a copy that still waits is the original field and leads only to live objects |
| ExportState.ObjectIntact | polyml/libpolyml/exporter.cpp:303 | No tombstone is among the words of an object about to be copied |
| ExportState.Scanned | polyml/libpolyml/exporter.cpp:334 | Updating a field keeps the invariant of the export |
| ExportState.Copied | polyml/libpolyml/exporter.cpp:301-322 | Copying an object and leaving its tombstone, in the graveyard if it is read-only, keeps the invariant of the export |
| ExportState.UsesSpace | polyml/libpolyml/exporter.cpp:263-279 | Taking words from an export space that suits keeps the invariant, and they overlap no copy |
| ExportState.AddsSpace | polyml/libpolyml/exporter.cpp:280-299 | Adding a new export space for the object keeps the invariant, and its words overlap no copy |
| ExportState.ReadOnlyKept | polyml/libpolyml/exporter.cpp:305-322 | Nothing is ever written to the header of an object in an immutable permanent area of level 0 |
| Exporting.CopyScan.Allocate | polyml/libpolyml/exporter.cpp:253-299 | Room in a space for the kind of object, apart from all other copies; none exactly if no space suits and a new one is refused, and then a null address is used exactly if the object is mutable and of bytes |
| Exporting.CopyScan.ScanValue | polyml/libpolyml/exporter.cpp:178-336 | An address becomes that of the copy, made now or before, or is followed where a collection moved it; anything not exported is kept; it fails exactly if an object must be copied and there is no room, with a null address used exactly for mutable byte objects |
| Exporting.CopyScan.ScanAddressesInObject | polyml/libpolyml/scanaddrs.cpp:118-200 | After the loop and its recursion no field of the object or of any copy made on the way still waits |
| Exporting.CopyScan.ScanObjectAddress | polyml/libpolyml/exporter.cpp:339-347 | The root and all it leads to are copied, or some object that must be copied has no room and decides how it ends |
| Exporting.DoneStays | polyml/libpolyml/scanaddrs.cpp:188-197 | A field once updated does not change again, so the word reread at the end is the one found first |
| ExportRepair.GetObjLength | polyml/libpolyml/exporter.cpp:360-375 | The length word through any number of forwardings; headers that forward into an export space are put back on the way |
| ExportRepair.FixForwarding | polyml/libpolyml/exporter.cpp:377-388 | Walking an area puts back the header of every object in it |
| ExportRepair.AllRepaired | polyml/libpolyml/exporter.cpp:446-460 | When every area has been walked the heap is word for word as before, local forwarding included |
| ExportRepair.CopyComplete | polyml/libpolyml/exporter.cpp:435-438 | When nothing waits the copies are of a closed set of objects, in places of their own, in spaces for their kind, the same but for renamed addresses |
| ExportRepair.ExportStandsAlone | polyml/libpolyml/exporter.cpp:178-204 | No field of a copy leads to a local area, or to a permanent one of the level exported or above, unless the original field led to a tombstone; and addresses of other areas are kept |
| ExportRepair.RunExport | polyml/libpolyml/exporter.cpp:428-467 | Unless a null address is used the heap is left exactly as it was; if copying is completed the copies are of exactly what the root leads to, and need nothing of the heap they come from; a null address is used only for a live mutable byte object, and is if that is the root and memory is refused |
| ExportRepair.ExportWithoutMemory | polyml/libpolyml/exporter.cpp:289-295 | An input for which a null address is used: one mutable byte object and no memory |

## Left out

- The branches for GMP, the conversions to and from floating point and machine integers, and Windows code: library calls or variants. Of the semaphore both kinds are modelled, with and without a largest value.
- Code objects, `ScanConstantsWithinCode` and code addresses: cells are word or byte objects.
- Weak references: there are no weak cells in the model.
- The minor collection and the forwarding it may leave in the areas of a full collection: assumed absent when marking; the export does allow for it.
- `GCModules` is a visit to every root; where these come from is not modelled.
- Forwarding pointers in permanent mutable areas, which sharing may leave: every object there has its length word.
- `GetSharing` as a whole: its recursive scan that fills the vectors, and its loop over passes, whose end is not guaranteed; each pass is modelled for one vector.
- Heap sizing, statistics, profiling, logging and the second attempt after a count error.
- Memory that is given back to or obtained from the operating system, but for running out of it.
- `alloc_and_save` gives zero-filled memory, as the code itself assumes.
- Mark bits are a set beside the headers, and all sets of addresses in the state machines are sets rather than memory.
- What is done with a lock held is one step where no other thread reads or writes the same words without it.
- Spaces and tree nodes: `SpaceIndex` works on values, so the update of nodes in place and their addresses are not modelled; running out of memory is a budget of nodes, of any size, for one addition.
- An empty range is never added to the tree, and a cell of no words is never pointed to.
- The local areas, the permanent ones and the roots are updated one after another; the code updates them in parallel, and no two write to the same area.
- The loss of sharing that a race between vectors can cause, and that the code's own comment describes, does not arise.
- The order of `memcmp` is modelled by an order on words, and the hash of a cell by a sum over its words; only that they depend on the contents, and that the order tells different contents apart, is used.
- Work that is run at once because the queue is full is part of the caller's step.
- `Terminate` of the task farm.
- The graveyard is one array for all read-only areas.
- The reading of export sizes at the start of an export, which only decides when a new space is needed: the sizes are parameters, and so are the answers to requests for memory.
- What a program does after it has used a null address.
- Writing the exported areas to a file, and saved states.
- ShareLevels.SortData: the buckets are merged one after another; the code forks a task for each. They have no cell in common, and their share counts are added up in one.
- ShareLevels.WordDataTask: one vector at a time; the code runs several.
- ShareLevels.HashAndSortAllTask: one vector at a time; the code runs several.
- CopyResults.StepKeeps: allocation is taken as one step, by the relation that `CopyAllocation.Allocate` is proved to meet; the code does it under no lock because a space has one owner.
- CopyResults.StepApproaches: the end of a run is shown by a measure that each step of the task lowers; that the operating system lets every task take steps is assumed.
- MarkTaskResults.WithoutLossMarksReachable: like the other results about runs says what holds when the marking has ended. That it ends is proved for one marker, in `Marking`; with several a thief may go round for ever while the owner of a stack takes no step (`MarkTaskRuns.StealsInVain`), so no measure falls with every step.
- TaskFarm.WaitIsBounded: bounds the steps of a wait by the additions made in it; a task may add work for ever.
- UpdatePhase.UpdateObjectsInArea: word and byte objects only.
- MarkTaskProgress.MarkingGoesOn: for stacks with room for at least one object, as they have in the code; without any a permanent object could overflow, which the code asserts it does not.
