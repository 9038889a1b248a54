# Cortex-M7 core support: verified models

A Dafny model of the algorithmic parts of the CMSIS headers in `inc/`: cache maintenance, memory
protection unit tables, interrupt priorities and enables, the system tick, the portable bit loop and
the C start-up loops. `dafny verify dfyconfig.toml` checks everything.

## How it is built

**Data cache.** `CacheModel` describes main memory as bytes in 32-byte lines, a set-associative
write-back cache in front of it, and what one store to a maintenance register does. An entry keeps
the number of the line it holds, that is, its tag together with its set index. `Registers` holds the
bit packing of the set/way words and of CCSIDR. `Traces` says which words the two families of loops
write and what those words name. `Maintenance` replaces a sequence of writes by an order-free
description: the set of slots selected determines the final state. `Sweeps` applies this to the two
families of loops. `HandOff`, `Agreement`, `Coherence`, `Interleaving`, `Switching`, `OpenRuns` and
`Views` prove the laws, and `DCache.Scb` holds the functions themselves, with their post-decrementing `do..while` loops as
loops. Each of its methods is proved to write exactly the words in `Traces` and to be one step of
the machine in `Coherence`.

`Coherence` is about whole runs: the CPU loads and stores, the cache fills, evicts and writes back
lines whenever it likes, a bus master reads and writes main memory behind the cache, and software
calls the SCB functions. Each line belongs to the CPU or to the bus master. Under a discipline that
a caller can follow (`Coherence.Permitted`), both sides see one flat memory over every run.

`Interleaving` and `Switching` open the SCB functions up: between any two of their register writes the
cache fills, evicts and writes back, and the CPU and the bus master load and store. `OpenRuns` puts
opened calls one after another: the law of `Coherence` holds over whole runs in which no call is a
single step, and a call with nothing in between is the step of `Coherence`. What a caller has to
keep during a call is in `Interleaving.Passes`.

`Views` leaves the discipline: it says exactly when a function keeps what the CPU sees, for every
cache that is `Shaped`, that is, whose slots are those of its geometry. Such a cache may hold
anything, at power-up also one line in several ways; `Tagged` caches hold none so. A line "drains" to
what main memory holds of it once every slot has been cleaned in the order of the nest, and
invalidation "uncovers" what a cached access sees once the slot found has been cleaned and
invalidated: the next lower way that holds the line, or main memory.

**The other parts.** `Mpu` replays register stores, so that the burst load is compared with
programming the regions one by one. `Priority` and `Nvic` cover priority fields and the packed
enable and pending words. `Aircr` and `SysTick` are small register machines. `BitReverse` has the
bit loop, and `StartUp` the copy and zero tables.

Words that are counted with, added to or used as addresses are naturals with explicit reduction
modulo 2^32 and bitwise operators defined by binary digits (`Word32`). Words that are only masked by
constants are `bv32`.

## Where the code and its description disagree

The model follows the code.

- `SysTick_Config` accepts `ticks == 1`, but a reload value of zero never fires. `PeriodicIff` gives
  the exact condition.
- SCB_CleanDCache, SCB_CleanInvalidateDCache and SCB_DisableDCache are offered without a condition.
  Called before the cache was ever enabled or invalidated they can overwrite main memory with what
  the cache held at power-up. `Views.WholeKeepsViewIff`, `Views.DisableKeepsViewIff` and
  `Views.RangeKeepsViewIff` give the exact conditions, and `Views.CleaningBeforeEnableCorrupts` a
  state that fails them.
- `ARM_MPU_ACCESS_NORMAL` is documented to set the C bit from the inner policy and never does.
  `NormalInnerPolicyIff` gives the exact condition.
- The remaining size of a by-address call is kept in a signed word whose first sum can overflow; the
  first subtraction undoes it, so the loops are right for every positive size and every address.
- `SCB_CleanInvalidateDCache_by_Addr` asks for an aligned address and does not need one.
- `__NVIC_SetPriorityGrouping` speaks of resolving a conflict with the implemented bits; it stores
  the group unchanged, and the conflict is resolved by the encoding.

## Model

| member | source | states |
|---|---|---|
| `Registers.PackSetWay` | inc/core_cm7.h:816-834 | for all counter values the shifts, masks and OR of the nest put the low nine bits of the set in bits 13..5 and the low two of the way in bits 31..30, and zeros elsewhere |
| `Registers.SetWayWordDecodes` | inc/core_cm7.h:816-834 | the hardware reads back from that word the set and the way it was made from, as far as the fields reach |
| `Registers.MaskSets` | inc/core_cm7.h:2232 | bit i of CCSIDR_SETS(x) is bit 13 + i of x for i < 15, and there are no others |
| `Registers.MaskWays` | inc/core_cm7.h:2231 | bit i of CCSIDR_WAYS(x) is bit 3 + i of x for i < 10, and there are no others |
| `Traces.SweepExact` | inc/core_cm7.h:2340-2350 | the nest names (S+1)*(W+1) slots, every slot of the geometry exactly once and no other |
| `Traces.SweepWritesName` | inc/core_cm7.h:2416-2426 | within 512 sets and 4 ways the words written name those slots one for one |
| `Traces.SweepReachesAllIff` | inc/core_cm7.h:2451-2461 | the nest reaches every slot of a geometry if and only if it has at most 512 sets and 4 ways |
| `Traces.RunCoversExactly` | inc/core_cm7.h:2515-2525 | a by-address loop visits exactly the lines with a byte of the block, each once, also when address or size wrap |
| `Traces.RunAscends` | inc/core_cm7.h:2515-2525 | below the top of the address space it visits them in ascending order from the first byte's line to the last byte's |
| `Maintenance.SlotsMaintained` | inc/core_cm7.h:489-498 | set/way maintenance in any order comes to the maintenance of the set of slots named |
| `Maintenance.LinesMaintained` | inc/core_cm7.h:489-498 | maintenance by address comes to the maintenance of the slots that held the lines |
| `Maintenance.MaintainedIsFunctional` | inc/core_cm7.h:489-498 | that order-free description fixes the resulting state |
| `Maintenance.LookupAfter` | inc/core_cm7.h:489-498 | afterwards a line is found unless its slot was selected for invalidation |
| `Sweeps.SweepAllMaintains` | inc/core_cm7.h:2438-2501 | a whole-cache function maintains every slot, with no trace of its order left |
| `Sweeps.SweepRangeMaintains` | inc/core_cm7.h:2512-2591 | a call by address maintains exactly the slots holding a line of the block |
| `Sweeps.SweepAllEmpties` | inc/core_cm7.h:2340-2350 | a nest that invalidates empties the cache, and one that only invalidates spares main memory, whatever the cache held |
| `Sweeps.SweepPerformed` | inc/core_cm7.h:2486-2496 | on a cache that fits the fields the words of the nest have the effect of the sweep |
| `DCache.WrapSteps` | inc/core_cm7.h:2516-2525 | one round on the wrapped address and signed size is exact, and the sign test stops the loop exactly when nothing is left |
| `DCache.Scb.RunWays` | inc/core_cm7.h:2342-2349 | the inner loop writes one word for each way, from the last to way 0, and ends although its counter wraps |
| `DCache.Scb.RunNest` | inc/core_cm7.h:2340-2350 | the nest writes exactly the words of the sweep and ends although both counters wrap |
| `DCache.Scb.EnableDCache` | inc/core_cm7.h:2325-2358 | does nothing when on; otherwise selects the data cache, empties it, spares main memory, and then sets bit 16 of CCR: the store that turns the cache on is recorded after those of the nest |
| `DCache.Scb.DisableDCache` | inc/core_cm7.h:2365-2396 | clears bit 16 of CCR and then cleans and invalidates every slot, recorded in that order; is the step `Disable` of the machine |
| `DCache.Scb.InvalidateDCache` | inc/core_cm7.h:2403-2431 | empties the cache without writing to memory; is the step `InvalidateAll` |
| `DCache.Scb.CleanDCache` | inc/core_cm7.h:2438-2466 | cleans every slot with one word each; is the step `MaintainAll(false)` |
| `DCache.Scb.CleanInvalidateDCache` | inc/core_cm7.h:2473-2501 | cleans and invalidates every slot; is the step `MaintainAll(true)` |
| `DCache.Scb.MaintainLines` | inc/core_cm7.h:2514-2530 | writes exactly ceil((addr mod 32 + size)/32) words, the k-th of them addr + 32 k modulo 2^32, for every address and every 32-bit size, none when the size is not positive |
| `DCache.Scb.InvalidateDCacheByAddr` | inc/core_cm7.h:2512-2532 | invalidates the lines of the block; is the step `Take` |
| `DCache.Scb.CleanDCacheByAddr` | inc/core_cm7.h:2542-2561 | cleans the lines of the block; is the steps `MaintainRange(false)` and `Give(false)` |
| `DCache.Scb.CleanInvalidateDCacheByAddr` | inc/core_cm7.h:2572-2591 | cleans and invalidates the lines of the block; is the steps `MaintainRange(true)` and `Give(true)` |
| `DCache.Scb.InvalidateICacheByAddr` | inc/core_cm7.h:2299-2318 | names the same lines to ICIMVAU and leaves the data side alone |
| `HandOff.RangeEffect` | inc/core_cm7.h:2512-2591 | line by line effect of each call by address on memory, on the CPU's view and on dirtiness, inside and outside the block |
| `HandOff.CleanHandsOver` | inc/core_cm7.h:2542-2561 | cleaning changes the CPU's view nowhere, and main memory equals that view on the block if and only if no line of it was stale |
| `HandOff.InvalidateTakesBack` | inc/core_cm7.h:2512-2532 | after invalidation the CPU sees main memory on the block; only lines meeting the block can change for it |
| `HandOff.InvalidateSparesNeighboursIff` | inc/core_cm7.h:2505-2511 | bytes beside an unaligned block stay as the CPU saw them if and only if main memory already held them |
| `HandOff.AlignedBlockOwnsItsLines` | inc/core_cm7.h:2505-2511 | a line-aligned block has no such neighbours |
| `Agreement.CleanInvalidateIsCleanThenInvalidate` | inc/core_cm7.h:2403-2501 | SCB_CleanInvalidateDCache equals SCB_CleanDCache followed by SCB_InvalidateDCache |
| `Agreement.RangeCleanInvalidateIsCleanThenInvalidate` | inc/core_cm7.h:2512-2591 | the same for the calls by address, on any block |
| `Agreement.RangeSplits` | inc/core_cm7.h:2512-2591 | maintaining a block equals maintaining its two parts, wherever it is cut |
| `Agreement.WholeAgreesWithRanges` | inc/core_cm7.h:2403-2591 | a whole-cache function equals its by-address counterpart over any family of blocks that meets every line held |
| `Coherence.StepKeepsCoherence` | inc/core_cm7.h:2325-2591 | every permitted step of CPU, cache hardware, bus master and SCB functions keeps the machine coherent with one flat memory |
| `Coherence.RunsAgreeWithFlatMemory` | inc/core_cm7.h:2325-2591 | over every permitted run each CPU load and each bus master read returns what the flat memory would |
| `Coherence.RunsFromPowerUp` | inc/core_cm7.h:2325-2358 | the same from power-up, when the cache may hold anything at all |
| `Coherence.DisableLeavesMemoryCurrent` | inc/core_cm7.h:2365-2396 | SCB_DisableDCache after any permitted run leaves main memory equal to the flat memory |
| `Coherence.ReadsReturnLastStored` | inc/core_cm7.h:2325-2591 | after any permitted run a CPU load or bus master read returns the byte last stored at that address by either side |
| `Interleaving.CleaningRun` | inc/core_cm7.h:2438-2591 | cleaning writes in any order, interleaved in any way with fills, evictions, write-backs and loads and stores of the CPU and the bus master: the machine stays coherent, every read in between agrees with the flat memory, and what was cleaned stays clean but for lines the CPU stores to meanwhile |
| `Interleaving.WholeCleaningInterleaved` | inc/core_cm7.h:2438-2501 | SCB_CleanDCache and SCB_CleanInvalidateDCache so interleaved end coherent, with main memory current and nothing dirty on every line not stored to meanwhile |
| `Interleaving.RangeCleaningInterleaved` | inc/core_cm7.h:2542-2591 | a cleaning call by address so interleaved ends coherent, with no line of the block dirty and main memory current there, but for lines stored to meanwhile |
| `Interleaving.GiveInterleaved` | inc/core_cm7.h:2542-2591 | if no store dirties the block meanwhile, it may be handed to the bus master and the machine is coherent with it handed over |
| `Interleaving.TakeInterleaved` | inc/core_cm7.h:2512-2532 | SCB_InvalidateDCache_by_Addr so interleaved, on a block the bus master has finished with, returns it: the machine is coherent and the CPU sees the flat memory there, although lines may be filled again during the call |
| `Switching.EmptyingInterleaved` | inc/core_cm7.h:2325-2431 | SCB_EnableDCache and SCB_InvalidateDCache, from power-up or later, while CPU and bus master go on: the cache ends empty and main memory current, so that it may be turned on |
| `Switching.DisableInterleaved` | inc/core_cm7.h:2365-2396 | SCB_DisableDCache while the bus master goes on and the CPU loads and stores lines that are not dirty: the cache ends empty and main memory is the flat memory |
| `Switching.ClearingStoreIff` | inc/core_cm7.h:2371-2386 | after SCB_DisableDCache has cleared DC, the cache still drains to the flat memory with a CPU store in it if and only if the line is not dirty or already held that byte |
| `Switching.ClearingLoadIff` | inc/core_cm7.h:2371-2386 | and a CPU load is right if and only if its line is not dirty or main memory has the byte |
| `OpenRuns.QuietCallIsStep` | inc/core_cm7.h:2325-2591 | an opened call of any of the SCB functions with nothing in between its register writes is the single step of `Coherence` |
| `OpenRuns.EnableInterleaved` | inc/core_cm7.h:2325-2358 | SCB_EnableDCache, opened at every register write and at its store to CCR: on only from that store on, and coherent before and after |
| `OpenRuns.DisablingInterleaved` | inc/core_cm7.h:2365-2396 | SCB_DisableDCache, opened likewise: off from its store to CCR on, and at the end empty with main memory current |
| `OpenRuns.EnableBeforeNestCorrupts` | inc/core_cm7.h:2333-2353 | with the store to CCR before the nest, a power-up cache would show the CPU what memory does not hold, and could write it back |
| `OpenRuns.CallKeepsCoherence` | inc/core_cm7.h:2325-2591 | every SCB function, opened, keeps the machine coherent, and every read made during it agrees with the flat memory |
| `OpenRuns.OpenRunsAgreeWithFlatMemory` | inc/core_cm7.h:2325-2591 | over every run of opened calls and other events every CPU load and bus master read, also during a call, returns what the flat memory would |
| `OpenRuns.OpenRunsFromPowerUp` | inc/core_cm7.h:2325-2358 | the same from power-up, when the cache may hold anything at all |
| `Views.WholeKeepsViewIff` | inc/core_cm7.h:2438-2501 | in any shaped state, SCB_CleanDCache and SCB_CleanInvalidateDCache keep the CPU's view of every line if and only if each line is one that a hit keeps or one whose last dirty holder in the order of the nest has the data the CPU sees |
| `Views.DisableKeepsViewIff` | inc/core_cm7.h:2365-2396 | in any shaped state, SCB_DisableDCache keeps the CPU's view if and only if every line drains to what the CPU sees |
| `Views.WholeKeepsViewWhenTaggedIff` | inc/core_cm7.h:2438-2501 | with no line in two ways: cache on, if and only if no line is stale where the call also invalidates; cache off, if and only if no dirty line differs from memory |
| `Views.DrainedIsViewIff` | inc/core_cm7.h:2365-2396 | with no line in two ways the condition of `Views.DisableKeepsViewIff` on a line: not stale (cache on), or not dirty with other data than memory (cache off) |
| `Views.AgreeingDrains` | inc/core_cm7.h:2365-2501 | a power-up cache without a dirty entry that differs from memory meets the condition, duplicates or not |
| `Views.InvalidateAllKeepsViewIff` | inc/core_cm7.h:2325-2431 | in any shaped state, SCB_InvalidateDCache keeps the CPU's view if and only if the cache is off or agrees with memory on every line; SCB_EnableDCache keeps it always |
| `Views.RangeKeepsViewIff` | inc/core_cm7.h:2542-2591 | in any state, a cleaning call by address keeps the CPU's view if and only if, on the lines of its block, invalidation uncovers nothing new (cache on), or the dirty data found agree with memory (cache off) |
| `Views.UncoveredIsLatestIff` | inc/core_cm7.h:2572-2591 | with no line in two ways, invalidation by address uncovers something new exactly of a stale line |
| `Views.CleaningUnsettledIff` | inc/core_cm7.h:2438-2501 | before the cache is set up, whole-cache cleaning keeps the machine coherent if and only if every line drains to what memory held |
| `Views.DisableUnsettledIff` | inc/core_cm7.h:2365-2396 | before the cache is set up, the same condition for SCB_DisableDCache |
| `Views.RangeCleaningUnsettledIff` | inc/core_cm7.h:2542-2591 | before the cache is set up, the condition for the cleaning calls by address |
| `Views.CleaningBeforeEnableCorrupts` | inc/core_cm7.h:2438-2591 | a power-up state that fails these conditions: cleaning, whole or by address, changes what the CPU loads |
| `Views.DuplicatesDrainInOrder` | inc/core_cm7.h:2376-2386 | a power-up state with one line in two ways, where the copy found agrees with memory and the nest still changes it |
| `Mpu.Rbar` | inc/mpu_armv7.h:75-78 | the word is valid and gives back region modulo 16 and the 32-byte aligned base |
| `Mpu.RbarFields` | inc/mpu_armv7.h:75-78 | bit by bit: the base in bits 31..5, bit 4 set, the region in bits 3..0 |
| `Mpu.RasrFields` | inc/mpu_armv7.h:88-124 | every argument of ARM_MPU_RASR comes back cut to its field, with the region enabled |
| `Mpu.NormalInnerPolicyIff` | inc/mpu_armv7.h:157 | the inner policy is encoded as documented exactly when its bit 1 is clear |
| `Mpu.LoadSetsRows` | inc/mpu_armv7.h:225-270 | the burst's stores through the alias pairs leave the state of programming the rows one by one, for any table |
| `Mpu.Unit.OrderedMemcpy` | inc/mpu_armv7.h:248-255 | copies in order, every store inside the eight-word window |
| `Mpu.Unit.Load` | inc/mpu_armv7.h:261-270 | for any count, writes every table word once, in order, the k-th at place k modulo 8, and programs the rows in order |
| `Mpu.Unit.SetRegion` | inc/mpu_armv7.h:225-229 | programs the row given |
| `Mpu.SetsNamed` | inc/mpu_armv7.h:225-229 | a row made with ARM_MPU_RBAR for a number r below 16 programs exactly region r |
| `Mpu.Unit.SetRegionEx` | inc/mpu_armv7.h:236-241 | for every number r below 256 in RNR and a base word that names no region, programs exactly region r; in general selects the region first and then programs the row |
| `Mpu.SetsNumbered` | inc/mpu_armv7.h:236-241 | a row that names no region programs exactly the region of the number r below 256 in RNR |
| `Mpu.Unit.ClrRegion` | inc/mpu_armv7.h:215-219 | for every number r below 256, clears the attributes of region r, selects it, and leaves every other region as it was |
| `Mpu.LastRowWins` | inc/mpu_armv7.h:261-270 | after a load each region holds the last row meant for it and every other region keeps its contents |
| `Mpu.NamedRowTargets` | inc/mpu_armv7.h:75-78 | a row made with ARM_MPU_RBAR for a number r below 16 is meant for region r, also in a table |
| `Priority.Widths` | inc/core_cm7.h:2085-2086 | the preemption field has min(7 - group mod 8, bits) bits and the subpriority field the other implemented ones, for every group, through the wrapping subtractions |
| `Priority.EncodeBelow` | inc/core_cm7.h:2079-2092 | an encoded priority uses only implemented bits |
| `Priority.DecodeEncode` | inc/core_cm7.h:2079-2117 | decoding an encoded pair gives both values reduced to their fields |
| `Priority.EncodeDecode` | inc/core_cm7.h:2079-2117 | every priority is the encoding of what it decodes to |
| `Priority.EncodeOrders` | inc/core_cm7.h:2079-2092 | encodings compare as the pairs do lexicographically, each value reduced to its field |
| `Priority.StoredPriority` | inc/core_cm7.h:2032-2065 | a stored priority stands reduced to the implemented bits in the topmost bits of its byte, and reads back so |
| `Priority.StoredPairDecodes` | inc/core_cm7.h:2032-2117 | encode, store, read and decode give the pair back, for every group and every number of implemented bits |
| `Priority.PreemptsIff` | inc/core_cm7.h:2105-2117 | of two stored bytes one preempts the other for the hardware, comparing the bits above bit group mod 8, exactly when its first decoded component is the lower |
| `Priority.PairPreemptsIff` | inc/core_cm7.h:2079-2092 | of two encoded and stored pairs the one with the lower preemption priority, reduced to min(7 - group mod 8, bits) bits, preempts |
| `Nvic.Controller.SetPriority` | inc/core_cm7.h:2032-2042 | puts the priority, reduced to the implemented bits, in the topmost bits of the byte of one device interrupt or system exception and of no other |
| `Nvic.Controller.GetPriority` | inc/core_cm7.h:2054-2065 | reads that byte, moved down by the bits that are not implemented |
| `Nvic.RaiseAdds` | inc/core_cm7.h:1902-1910 | a write-1-to-set store adds exactly the interrupt, nothing for a negative number |
| `Nvic.ClearRemoves` | inc/core_cm7.h:1940-1948 | a write-1-to-clear store removes exactly the interrupt |
| `Nvic.CallsActOnSets` | inc/core_cm7.h:1902-1999 | after any sequence of calls the packed words stand for the sets the same calls make of plain sets |
| `Nvic.Controller.EnableIRQ` | inc/core_cm7.h:1902-1910 | sets bit irq mod 32 of word irq / 32 and no other bit; is the call `EnableIRQ` on the packed words |
| `Nvic.Controller.DisableIRQ` | inc/core_cm7.h:1940-1948 | clears that bit and no other; is the call `DisableIRQ` |
| `Nvic.Controller.SetPendingIRQ` | inc/core_cm7.h:1978-1984 | sets that bit of the pending words and no other; is the call `SetPendingIRQ` |
| `Nvic.Controller.ClearPendingIRQ` | inc/core_cm7.h:1993-1999 | clears that bit of the pending words and no other; is the call `ClearPendingIRQ` |
| `Nvic.Controller.GetEnableIRQ` | inc/core_cm7.h:1921-1931 | answers membership in the enabled set |
| `Nvic.Controller.GetPendingIRQ` | inc/core_cm7.h:1959-1969 | answers membership in the pending set |
| `Aircr.OneSetting` | inc/core_cm7.h:1871-1882 | a setting is accepted, puts its group modulo 8 in force and changes no other non-key bit |
| `Aircr.LastSettingHolds` | inc/core_cm7.h:1871-1893 | after any sequence of settings the last is in force and the other bits are as at first |
| `Aircr.ResetIsAccepted` | inc/core_cm7.h:2156-2162 | the reset word carries the key, requests the reset and keeps the group |
| `Aircr.Register.SetPriorityGrouping` | inc/core_cm7.h:1871-1882 | the register ends as 0xFA05_0000, the group modulo 8 in bits 10..8 and the other bits of its lower half as before |
| `Aircr.Register.SystemReset` | inc/core_cm7.h:2156-2162 | the register ends as 0xFA05_0004 with the group bits as before and every other non-key bit clear |
| `SysTick.Unit.Config` | inc/core_cm7.h:2618-2632 | succeeds exactly for 1 <= ticks <= 2^24, storing LOAD, the lowest priority, VAL and CTRL = 7 in this order; changes nothing on failure |
| `SysTick.CounterAfter` | inc/core_cm7.h:2618-2632 | counter value and number of interrupts after any number of steps, for every accepted ticks value, 1 included |
| `SysTick.PeriodicIff` | inc/core_cm7.h:2618-2632 | the k-th interrupt comes after exactly k * ticks steps, for every k, if and only if ticks >= 2 |
| `BitReverse.RBIT` | inc/cmsis_gcc.h:1057-1068 | bit i of the result is bit 31 - i of the input, through the early exit and the final shift |
| `BitReverse.RevTwice` | inc/cmsis_gcc.h:1057-1068 | reversing twice is the identity |
| `BitReverse.LeadingZeros` | inc/cmsis_gcc.h:1078-1094 | CLZ counts the zeros above the highest set bit, 32 for zero |
| `BitReverse.PositionVal` | inc/stm32f7xx.h:204 | POSITION_VAL is the index of the lowest set bit, 32 for zero |
| `BitReverse.RorBits` | inc/cmsis_gcc.h:1021-1029 | bit i of a rotation by n is bit (i + n) mod 32 of the operand |
| `BitReverse.RotationsAdd` | inc/cmsis_gcc.h:1021-1029 | rotations add up, also when the sum of the amounts wraps |
| `StartUp.CopyTableSpares` | inc/cmsis_gcc.h:151-155 | whatever the rows overlap, a word none of them writes keeps its value |
| `StartUp.CopyTableCopies` | inc/cmsis_gcc.h:151-155 | for separate rows each destination word ends as the original source word |
| `StartUp.CopyLoops` | inc/cmsis_gcc.h:151-155 | the nested copy loops, reading a constant table from the memory they change, for rows that may overlap, word by word; for separate rows word i at the address in the second word of row k ends as word i at the address in its first |
| `StartUp.ZeroLoops` | inc/cmsis_gcc.h:157-161 | the nested zero loops, likewise: every word the table names ends zero |
| `StartUp.StartUpEffect` | inc/cmsis_gcc.h:131-161 | for separate tables every copied word equals the original source word, every zeroed word is zero, every other word is unchanged |
| `StartUp.CmsisStart` | inc/cmsis_gcc.h:131-161 | both pairs of loops in place, with both tables in the same memory: for separate tables, stated on the words of the rows, every block has arrived, every block to be zeroed is zero, and every other word is as before |

## Left out

- Barriers and pipeline effects: register writes take effect in program order.
- Instruction cache contents, and SCB_EnableICache, SCB_DisableICache and SCB_InvalidateICache, which are single stores.
- `Aircr.Register.SystemReset`: does not model the endless loop after the store.
- `StartUp.CmsisStart`: does not model the jump to `_start`. The tables are `const` in the source, so the model demands that a copy row writes neither to itself nor to a later row of its table nor to the zero table, and a zero row neither to itself nor to a later row of its table.
- `Mpu.LastRowWins`: keeps all 256 region numbers RNR can select, although a device implements fewer and leaves stores to the others unpredictable.
- `BitReverse.LeadingZeros`: describes what `__builtin_clz` computes; it is a compiler built-in and has no body here.
- Interrupt activity that sets or clears pending bits on its own, active bits, vectors and vector table relocation.
- Single-instruction intrinsics, saturation, FPU type, register bit macros, ITM output: no branches or no body.
- ARM_MPU_Enable and ARM_MPU_Disable: single register updates.
- HAL, RTX, CAN, Ethernet and lwIP headers: their implementations are not part of this model.
