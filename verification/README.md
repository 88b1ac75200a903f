# nlplatform: what its stateful core guarantees

A Dafny model of the parts of the nlplatform firmware library that keep state over unbounded runs or do
real arithmetic, with proofs of what they promise. Each part is modelled in the form of its C code (fields,
lists, arrays and buffers changed in place by methods with loops) and tied to a plain reference machine
over values; the guarantees are then theorems over every run of that machine.

| part | reference machine | code |
|---|---|---|
| software timers | `TimerQueue`, `TimerRuns`, `TimerDelays`: a stable priority queue over unbounded time | `SwTimer`: two linked lists sorted by a wrapping 32-bit tick |
| persistent RAM console | `ConsoleLog`: this boot's log and the previous one, as texts | `RamConsole`: one circular buffer with two index pairs |
| SPI NOR flash and files | `Nor`: a stream of programmed bytes over a chip | `SpiFlash`: page cache, page-split writes, erase plan; `Nlfs`: files |
| reset and fault record | `FaultVault`: a cell written once, with a ledger of resets; `FaultRecord`: its bytes | `OverlaidReset` (record in flash), `RetainedReset` (record in RAM) |
| event trace | `TraceFifo`: a FIFO of started events | `Trace`: a doubly linked list inside a fixed array |
| unaligned LDM/STM fix-up | `MultipleTransfer`: the instructions as functions of registers and memory | `UsageFault`: saved frames changed in place |
| button debounce | `Debounce`: interrupts and timer events in any order | `GpioButton`: the driver over the timers |
| milliseconds from nanoseconds | rounding to nearest, over the integers | `SystemTime` |
| SPI IPC exchange | what a receiver should make of a byte stream | `SpiIpc`: receive buffer filled while sending |

`Words` holds the fixed-width arithmetic. 32-bit and 64-bit wrap-around is written out wherever the C code
relies on it or suffers from it. `dafny verify dfyconfig.toml` checks everything.

How the surroundings are modelled: what a timer function does in one call is an arbitrary finite list of starts
and cancels and a returned delay (`Script`); a flash command succeeds or fails as a list of outcomes says; a storage
operation of the fault record completes, fails or loses power, and the two latter leave arbitrary contents; abort
callbacks are lists of answers; the slave's bytes on the SPI bus are an arbitrary function; the CRC is an
arbitrary fold.

Where the code does not do what its comments or its purpose say, the model follows the code, a counterexample
is proved, and a theorem says exactly when the code is right:

- a page flush that fails while the write position moves elsewhere sends the cached bytes to the new place
  (`SpiFlash.FailedFlushMisplacesByte`, `SpiFlash.Device.Write`);
- a file position plus a byte count above 2^32 is not cut at the end of the file (`Nlfs.CutExact`, `Nlfs.CutMisses`);
- a refused or failed open for writing leaves the file marked open, and writes are accepted (`Nlfs.File.WriteAfterRefusal`);
- the console's index correction and byte count are exact only below a wrap of 32 bits
  (`RamConsole.WrapBackExact`, `RamConsole.CountAfterExact`, and inputs that miss in `WrapBackMisses`, `CountAfterWraps`);
- an event started with a null name is linked into the trace but its slot still counts as free
  (`Trace.Tracer.Start`), and ending event number NL_TRACE_MAX_EVENTS touches a slot past the array (`Trace.Tracer.End`);
- an error while looking up the dirty key makes the boot code overwrite an uncleared fault record
  (`FaultVault.SaveSafeExactly`, `FaultVault.RefusedLookupReplaces`);
- with dedicated RAM, a reset that nobody prepared discards an uncleared fault although RAM was kept
  (`RetainedReset.UnpreparedBootKeepsExactly`, `RetainedReset.UnpreparedBootLoses`);
- a load multiple that lists its own base or the program counter is not what the architecture says
  (`MultipleTransfer.HandlerFollowsManualExactly`, `MultipleTransfer.LoadedBaseIsOverwritten`);
- an IPC length byte of 1, 2 or more than 247 makes the driver leave its receive buffer (`SpiIpc.Master.Send`, `SpiIpc.OneTooLong`).

## Model

| member | source | states |
|---|---|---|
| TimerQueue.RunHeadProgress | src/nlswtimer.c:402-428 | whatever a timer function starts, cancels or returns, running it leaves strictly fewer due timers, so the tick handler terminates |
| TimerRuns.RunKeeps | src/nlswtimer.c:228-429 | every run of starts, cancels, ticks with arbitrary timer functions, and granted sleeps keeps order, conservation and punctuality of all pending timers |
| TimerRuns.QueueIsPendingInOrder | src/nlswtimer.c:228-287 | after every run the queue is the only arrangement of the uncancelled, unrun starts by absolute deadline, ties in start order, no timer twice |
| TimerRuns.NeverEarlyNeverMissed | src/nlswtimer.c:129-215 | no timer runs before its deadline, and none later than it, or than the tick after it when a sleep ended exactly on the deadline |
| TimerRuns.PastStartsAreSettled | src/nlswtimer.c:365-429 | once its deadline has passed, every start has exactly one fate: cancelled, or run on time |
| TimerRuns.TickRunsExactlyTheDue | src/nlswtimer.c:402-428 | in one tick every timer due on entry meets exactly one fate, only those run, in order, and nothing started or restarted in the tick runs in it |
| TimerRuns.StartsBalance | test/nlswtimer-test.c:993-1004 | per timer, over any run: starts = runs + successful cancels + 1 if active |
| TimerRuns.CancelUndoesStart | src/nlswtimer.c:319-363 | cancelling a timer just started restores the queue |
| TimerDelays.StartDue | src/nlswtimer.c:228-243 | a start of an inactive timer makes it due exactly that many ticks later, one for a delay of 0 |
| TimerDelays.StartHaltsExactly | src/nlswtimer.c:234 | the assert fails if and only if the timer is active |
| TimerDelays.CancelEnds | src/nlswtimer.c:348-363 | after a cancel the timer is not pending |
| TimerDelays.StartRunsOnTime | src/nlswtimer.c:228-429 | over any run that does not cancel it, a timer started with d ticks runs at exactly start + d, or one tick later if a sleep ended then |
| TimerDelays.RestartDue | src/nlswtimer.c:413-421 | a returned delay of c ticks makes the timer due c - 1 ticks after this tick; 1 counts as 1, and 0 ticks wrap to 2^32 - 1 |
| TimerDelays.TickRestarts | src/nlswtimer.c:402-428 | whichever function of a tick returns a delay, its timer is pending after the tick, that much later, unless a later function of the tick cancelled it |
| TimerDelays.TickStarts | src/nlswtimer.c:402-428 | the same for a timer that a function starts as one of its calls, counted from the tick |
| TimerDelays.FunctionCancels | src/nlswtimer.c:402-428 | a timer that a function cancels is not pending afterwards |
| TimerDelays.OwnStart | src/nlswtimer.c:406-421 | a function may start its own timer, and then trips the assert if and only if it also returns a delay |
| TimerDelays.RunClock | src/nlswtimer.c:195-218 | absolute time and the ends of sleeps are what ticks and sleeps of the run add up to |
| SwTimer.Scheduler.constructor | src/nlswtimer.c:60-75 | empty lists and a zero clock represent the empty queue |
| SwTimer.Scheduler.InList | src/nlswtimer.c:97-110 | walking a list finds a timer exactly when it is pending in it |
| SwTimer.Scheduler.IsActive | src/nlswtimer.c:112-127 | true exactly when the timer is pending in the unbounded queue |
| SwTimer.Scheduler.InsertInto | src/nlswtimer.c:262-287 | a timer is linked after every entry due no later and before every later one; the rest of the list keeps its links |
| SwTimer.Scheduler.Start | src/nlswtimer.c:228-317 | the two lists after a start are the unbounded queue with the new entry, the target is the tick count plus the delay on 32 bits, and the assert fails exactly for an active timer |
| SwTimer.Scheduler.RemoveFrom | src/nlswtimer.c:319-346 | unlinks exactly the timer asked for, and says whether it was there |
| SwTimer.Scheduler.Cancel | src/nlswtimer.c:348-363 | the lists follow the queue's cancel, and the result is true exactly when the timer was pending |
| SwTimer.Scheduler.Merge | src/nlswtimer.c:374-400 | on a wrap the overflow list is appended to the current one and late timers stay due, with the order kept |
| SwTimer.Scheduler.RunDue | src/nlswtimer.c:402-428 | running timers while the first is due, with the calls and restarts of their functions, does exactly what draining the unbounded queue does, in the same order |
| SwTimer.Scheduler.TickHandler | src/nlswtimer.c:365-429 | one tick refines a tick of the unbounded queue, restarts and the wrap of the count to 0 included; tick count and nanoseconds advance by one tick |
| SwTimer.Scheduler.PreSleep | src/nlswtimer.c:129-193 | refuses exactly when a timer is waiting to run; otherwise every sleep up to the granted time that does not wrap the count is one the queue allows |
| SwTimer.Scheduler.PostSleep | src/nlswtimer.c:195-218 | after a sleep the lists and both clocks agree with the queue at the later time, and both have advanced by the ticks slept |
| SwTimer.Scheduler.Execute | src/nlswtimer.c:129-429 | refinement over whole runs: current list followed by overflow list is always the queue of the unbounded machine |
| ConsoleLog.RunFaithful | src/nlram_console.c:103-301 | over any run of boots, resizes and writes both kept logs are suffixes of what was written while recording was on (from a boot or an enable to an init or a disable), and together never exceed the buffer |
| ConsoleLog.RunComplete | src/nlram_console.c:257-301 | without a size change, the newest bytes of this boot that fit, and then as much of the previous boot's end as fits, are kept |
| ConsoleLog.ResizeKeepsNewest | src/nlram_console.c:131-220 | a size change keeps exactly the newest min(total, new size, scratch size) bytes of previous log followed by current log |
| ConsoleLog.InitKeepsNewest | src/nlram_console.c:121-225 | the application's init keeps exactly those newest bytes, or everything if the size is the same, with the boundary between the logs in its place |
| RamConsole.WrapBackExact | src/nlram_console.c:155-162 | the unsigned index correction gives the circular index if and only if the difference does not look like a valid index |
| RamConsole.WrapBackMisses | src/nlram_console.c:155-162 | in a buffer of 2^32 - 2 bytes, three places before index 0 comes out wrong |
| RamConsole.CountAfterExact | src/nlram_console.c:287-300 | the byte count after a write is min(count + len, size) if and only if the 32-bit sum does not wrap |
| RamConsole.CountAfterWraps | src/nlram_console.c:287-300 | a write of 2^32 - 50 bytes to a full 100-byte buffer leaves a count of 50 |
| RamConsole.Console.HoldsByIndex | src/nlram_console.c:257-301 | holding a log means: the bytes_written bytes ending circularly at write_index are this boot's, the last_bytes_written bytes ending at last_write_index the previous boot's |
| RamConsole.Console.Write | src/nlram_console.c:257-301 | a write of any length, also longer than the buffer, leaves the buffer holding the log with the text appended; if the count wraps the newest bytes are there all the same and the count is short by 2^32 |
| RamConsole.Console.Reset | src/nlram_console.c:83-94 | initialisation leaves two empty logs |
| RamConsole.Console.InitBootloader | src/nlram_console.c:103-119 | a boot turns the current log into the previous one, index and count included, or starts afresh without the magic word, and recording is on either way |
| RamConsole.Console.Init | src/nlram_console.c:121-225 | the application's initialisation keeps the logs, converting them if the buffer size changed, and leaves recording off |
| RamConsole.Console.ChangeSize | src/nlram_console.c:131-220 | growing or shrinking in place re-establishes the buffer around the kept bytes, with the boundary between the two logs in the right place |
| RamConsole.Console.Execute | src/nlram_console.c:103-301 | after every run of boots, resizes and writes, on the fields: the bytes before write_index are the newest of this boot, those before last_write_index an intact end of the previous boot's, they never exceed the buffer, and without a resize they are all that fits |
| SpiFlash.Device.ProgramPage | src/nlflash_spi.c:565-573 | one program command; its data never crosses a page boundary; on failure nothing changes |
| Nor.RetriesRepair | src/nlflash_spi.c:610-613 | however often a program command failed, and whatever part of its bits each attempt cleared, the retry that succeeds leaves the chip as if the first had |
| SpiFlash.Device.Flush | src/nlflash_spi.c:716-743 | a flush moves the cached bytes to the chip and leaves the stream of accepted bytes the same; if it fails the cache is kept |
| SpiFlash.Device.Write | src/nlflash_spi.c:575-659 | each accepted byte joins the stream once, at its address, unless the flush for a new place fails, and exactly then the cached bytes change their address |
| SpiFlash.Device.WriteDirect | src/nlflash_spi.c:661-712 | the unbuffered write programs exactly the first `retlen` bytes, in order, page by page |
| SpiFlash.BufferedEqualsDirect | src/nlflash_spi.c:575-743 | any sequence of successful buffered writes ended by a flush leaves the same chip as the same writes unbuffered, each byte programmed once |
| SpiFlash.FailedFlushMisplacesByte | src/nlflash_spi.c:584-589 | a byte written to address 1 ends up at address 257 after a failed flush and a retry |
| SpiFlash.PlanCovers | src/nlflash_spi.c:467-488 | the sub-sector, sector and sub-sector counts add up to the length, each group starts aligned to its own size, and less than a sector is erased by sub-sectors at either end |
| SpiFlash.Device.EraseRange | src/nlflash_spi.c:467-535 | the erase commands tile the erased prefix without gap or overlap, each aligned to its size; they stop exactly at the first command that fails or callback that refuses, and `retlen` is the prefix erased |
| SpiFlash.CourseAt | src/nlflash_spi.c:492-535 | every callback before the last block agreed, and an erase that stopped had its reason |
| SpiFlash.Device.Erase | src/nlflash_spi.c:425-540 | the same with the whole-chip command, which leaves `retlen` untouched when it fails |
| Nlfs.CutExact | src/nlfs.c:292-355 | the byte count is cut at the end of the file if and only if position plus count does not wrap |
| Nlfs.CutMisses | src/nlfs.c:292-355 | at position 16 of a 32-byte file a request for 2^32 - 8 bytes is not cut |
| Nlfs.File.Open | src/nlfs.c:246-290 | opening for writing erases the whole partition; read-only partitions and missing images are refused without touching the chip |
| Nlfs.File.Write | src/nlfs.c:332-355 | the bytes taken go to the file position, cut at the end of the partition, whatever the partition holds and whatever the cache does; in a file opened properly the content grows by them; a wrapping count, and no other, runs past the chip |
| Nlfs.File.WriteAfterRefusal | src/nlfs.c:246-355 | a refused open leaves the file marked open, and writing to it then changes the read-only partition unless every bit to be cleared is clear already |
| Nlfs.File.Close | src/nlfs.c:357-382 | a successful close of a written file leaves the content on the chip; a failed one keeps the file open and the content recoverable |
| Nlfs.File.Read | src/nlfs.c:292-330 | a read returns the content from the position on, 0xFF past its end, cut at the partition length; it runs past the chip exactly when position plus count wraps |
| Nlfs.File.Seek | src/nlfs.c:384-411 | the position is moved inside the file only and left alone when refused; a relative move goes backwards exactly when the 32-bit sum wraps |
| Nlfs.StoredIsTake | src/nlfs.c:332-355 | cutting write by write is cutting the joined bytes once |
| Nlfs.File.StoreThenLoad | src/nlfs.c:246-382 | round trip: open, write in any chunks, close, reopen and read in any chunks gives the bytes cut at the partition length, then 0xFF |
| FaultRecord.DescriptionReadsBack | src/nlreset_info.c:156-167 | a stored description reads back as the text cut at 32 bytes, terminated or not |
| FaultRecord.FieldPadded | src/nlreset_info.c:156-167 | the description field holds the text and then NULs to its end |
| FaultRecord.Faults | include/nlreset_info.h:40-60 | the fault reasons are hard fault, assert, watchdog and stack overflow |
| FaultRecord.LowestFirst | include/nlreset_info.h:117-118 | the reason word is little-endian |
| FaultRecord.FieldsApart | include/nlreset_info.h:117-130 | reason and description are read back as stored and do not disturb each other |
| FaultVault.StoresExactly | src/nlreset_info.c:76-88 | writing after a completed erase leaves exactly the record in flash |
| FaultVault.RunKeeps | src/nlreset_info.c:61-230 | over any boots, power losses and failures a set key has a valid fault reason behind it, and the record, every byte of it, changes only by a clear |
| FaultVault.RunWhole | src/nlreset_info.c:61-230 | after any such run the bytes behind a set key are one complete record: the one from before, or all 532 bytes of what a boot of the run found in RAM with the vault empty and every storage operation taking |
| FaultVault.SaveSafeExactly | src/nlreset_info.c:67-95 | under every storage outcome a save leaves an uncleared record unchanged and sets the key only over a complete one, if and only if a set key is not reported missing |
| FaultVault.RefusedLookupReplaces | src/nlreset_info.c:67-95 | after a refused lookup the new fault replaces the uncleared one |
| FaultVault.QueryKeeps | src/nlreset_info.c:199-225 | asking for the saved fault hands out the record and never discards it |
| FaultVault.ClearEmpties | src/nlreset_info.c:227-230 | a completed clear empties the vault, and a failed one leaves it alone unless it took all the same |
| FaultVault.BootLodges | src/nlreset_info.c:104-127 | a boot with working storage that finds the vault empty and a fault in RAM saves that fault, reason and every other byte |
| FaultVault.ClearedThenSaved | src/nlreset_info.c:61-230 | after a completed clear the next boot with a fault in kept RAM saves that one |
| FaultVault.RunMatches | src/nlreset_info.c:61-230 | bytes, magic word and key follow the ledger: the pending reset is the first prepared since boot (a bootloader fault wins), the saved fault the first whose save took, and every byte of its record is what RAM held at the boot that lodged it |
| FaultVault.SavedInTheEnd | src/nlreset_info.c:61-150 | a fault in kept RAM survives any number of boots that lose power while saving it and is saved by the first that completes |
| OverlaidReset.ResetInfo.SaveFaultToFlash | src/nlreset_info.c:61-102 | unless the lookup is refused a record that is there is not touched; otherwise the key is set exactly when every operation took, with the whole RAM record in flash behind it |
| OverlaidReset.ResetInfo.Init | src/nlreset_info.c:104-150 | the pending reset of the ledger is saved if it is a fault and none is on record, and forgotten when the boot completes; if power is lost the fault is still whole in RAM |
| OverlaidReset.ResetInfo.SetReset | src/nlreset_info.c:152-168 | afterwards RAM matches the note of this reset, and a description reads back cut at its field |
| OverlaidReset.ResetInfo.PrepareReset | src/nlreset_info.c:170-182 | nothing at all changes once a reset is pending; the first one is entered in the ledger with its reason and readable description |
| OverlaidReset.ResetInfo.PrepareResetBootloader | src/nlreset_info.c:184-197 | a bootloader fault replaces the pending entry of the ledger, other reasons only fill an empty one |
| OverlaidReset.ResetInfo.GetSavedFault | src/nlreset_info.c:199-230 | with a sound store the vault's record is returned and the key kept |
| OverlaidReset.ResetInfo.ClearSavedFault | src/nlreset_info.c:227-230 | a completed clear deletes the key, and no clear sets it |
| OverlaidReset.ResetInfo.Execute | src/nlreset_info.c:61-230 | on the fields, flash and key, for runs with power lost anywhere: a complete record behind a set key, ended only by a clear, and agreement with the ledger and the origin of every byte |
| RetainedReset.RunAgrees | src/nlreset_info.c:236-337 | over any run that retains RAM, the RAM follows the ledger of accepted resets |
| RetainedReset.AnswersTheLedger | src/nlreset_info.c:308-331 | a saved fault is returned exactly when one is on record, with its reason and description |
| RetainedReset.SavedIsFirst | src/nlreset_info.c:260-290 | the fault on record is the first accepted since the record was last ended, both ways |
| RetainedReset.FirstReasonStays | src/nlreset_info.c:282-290 | later prepare calls in the same boot never change the reset reason |
| RetainedReset.FirstPrepareTaken | src/nlreset_info.c:282-305 | the first reset prepared after a boot is the one on record |
| RetainedReset.PrepareSetsReason | src/nlreset_info.c:236-305 | a boot forgets the reset reason and the next prepare sets it, whatever RAM held |
| RetainedReset.NoFaultIs | src/nlreset_info.c:333-337 | a cleared record is all zeros but for its unknown reason |
| RetainedReset.BootloaderFaultReplaces | src/nlreset_info.c:292-305 | a bootloader fault replaces both the reset reason and the record, whatever RAM held |
| RetainedReset.UnpreparedBootKeepsExactly | src/nlreset_info.c:236-258 | for every RAM content, a boot that keeps RAM keeps the saved fault if and only if there is none or the magic word of a prepared reset is set |
| RetainedReset.UnpreparedBootLoses | src/nlreset_info.c:236-258 | a fault is prepared, the device boots and has it, boots again and has lost it |
| RetainedReset.ResetInfo.Execute | src/nlreset_info.c:236-337 | on the fields themselves: the saved fault after any run is the first one still standing |
| RetainedReset.ResetInfo.GetResetReason | src/nlreset_info.c:341-353 | the reason of the first reset accepted since boot if it is a valid one, else unknown |
| TraceFifo.BootKeeps | src/nltrace.c:61-251 | over any run, printed events followed by queued ones are the started events in start order, in distinct slots |
| TraceFifo.RunRecords | src/nltrace.c:190-216 | what counts as started is exactly the starts of the run that came while tracing was on and a slot was free, with their names, tasks and times |
| TraceFifo.EndStampsOne | src/nltrace.c:234-251 | an end stamps the unended event of that slot and name with the time, and no other |
| TraceFifo.StartThenEnd | src/nltrace.c:190-251 | a start and its end leave the event last in the queue with both times |
| TraceFifo.PrintTakesEndedPrefix | src/nltrace.c:132-156 | printing takes exactly the longest ended prefix |
| TraceFifo.AllocationFailsOnlyWhenFull | src/nltrace.c:61-75 | no slot is found if and only if all are in the list |
| Trace.FreeExactly | src/nltrace.c:61-75 | a slot is free exactly when it is not in the list |
| Trace.UnlinkBacked | src/nltrace.c:93-130 | unlinking any event keeps forward and backward links mirrored and frees just its slot |
| Trace.Tracer.constructor | src/nltrace.c:158-178 | the cleared array represents the empty queue |
| Trace.Tracer.Alloc | src/nltrace.c:61-75 | the lowest slot without a name, or none if all have one |
| Trace.Tracer.Insert | src/nltrace.c:77-91 | links a slot at the tail and changes no other link |
| Trace.Tracer.Remove | src/nltrace.c:93-130 | the array then holds the queue without that event, and the result is the slot after it |
| Trace.Tracer.Start | src/nltrace.c:190-216 | a start appends to the queue and records name, task and time in its slot; with a null name no queue describes the array any more |
| Trace.Tracer.End | src/nltrace.c:234-251 | stamps the event once, if slot and name match; slot number NL_TRACE_MAX_EVENTS is outside the array |
| Trace.Tracer.Print | src/nltrace.c:132-156 | the array follows the queue, and one line per removed event comes out in order, with its name, task, start and the time from start to end |
| Trace.Tracer.Execute | src/nltrace.c:61-251 | refinement over whole runs of named events |
| MultipleTransfer.StoredReadsBack | src/cpu/arm/cortex-m3/fault.c:353-372 | stored words load back from base + 4k, unaligned and across the end of the address space, and no other byte changes |
| MultipleTransfer.EmulatedPointwise | src/cpu/arm/cortex-m3/fault.c:320-385 | a load puts the word at base + 4 times the number of listed registers below i into register i, a store the register into that word, also the base register itself; writeback adds 4 times the count, the pc moves on, nothing else changes |
| MultipleTransfer.HandlerFollowsManualExactly | src/cpu/arm/cortex-m3/fault.c:353-384 | the handler equals the LDM and STM entries of section A7.7 of the ARMv7-M Architecture Reference Manual on all states if and only if no load lists the pc or, with writeback, its base |
| MultipleTransfer.LoadedBaseIsOverwritten | src/cpu/arm/cortex-m3/fault.c:355-382 | LDMIA r1, {r0, r1} leaves the moved base in r1 instead of the loaded word |
| UsageFault.PlacesDiffer | src/cpu/arm/cortex-m3/fault.c:296-307 | different registers live in different places of the two frames |
| UsageFault.SavedIsLayout | src/cpu/arm/cortex-m3/fault.c:296-307 | the register pointers go to r0-r3, r12, lr and pc of the hardware frame and r4-r11 of the other, word by word |
| UsageFault.Faulting16 | src/cpu/arm/cortex-m3/fault.c:313-342 | the bytes 03 C9 at the pc are LDMIA r1, {r0, r1} |
| UsageFault.Faulting32 | src/cpu/arm/cortex-m3/fault.c:313-342 | the bytes B4 E8 03 00 at the pc are LDMIA.W r4!, {r0, r1} |
| MultipleTransfer.SplitExactly | src/cpu/arm/cortex-m3/fault.c:318-342 | two halfwords are accepted with certain fields if and only if they are the 16-bit or the 32-bit assembler encoding of them |
| MultipleTransfer.PackBits | src/cpu/arm/cortex-m3/fault.c:355-356 | bit i of the register list is register i |
| MultipleTransfer.RegisterNumbers | src/cpu/arm/cortex-m3/fault.c:330-341 | a register field is the register's number |
| MultipleTransfer.LowestFirst | src/cpu/arm/cortex-m3/fault.c:362-369 | words in memory are little-endian |
| MultipleTransfer.CountIsSize | src/cpu/arm/cortex-m3/fault.c:355-371 | the count of registers below i is the number of listed ones |
| UsageFault.Handler.SetReg | src/cpu/arm/cortex-m3/fault.c:296-307 | writing through the register pointer changes that register only |
| UsageFault.Handler.Transfer | src/cpu/arm/cortex-m3/fault.c:355-372 | the loop transfers every listed register, or those below r13 if it is listed and then gives up |
| UsageFault.Handler.HandleUsageFault | src/cpu/arm/cortex-m3/fault.c:310-392 | on the words of the frames: handled exactly for an unaligned access by a known encoding without r13, and then frames and memory hold the instruction's effect; otherwise nothing has changed, or the registers below r13 have been transferred |
| Debounce.CallbacksAlternate | src/nlgpio_button.c:54-68 | in every interleaving callbacks strictly alternate, starting opposite to the initial level |
| Debounce.CallbacksReportQuietLevel | src/nlgpio_button.c:54-87 | each callback reports the level of the last interrupt before it and comes a full quiet interval after it, on the tick or one later after a sleep |
| Debounce.QuietLevelIsTaken | src/nlgpio_button.c:54-87 | once the interval has passed since the last interrupt, its level is the debounced and last reported one |
| Debounce.SamplesAreInterrupts | src/nlgpio_button.c:71-81 | the samples are the levels of the interrupts, each once and in order |
| Debounce.SampleTime | src/nlgpio_button.c:71-81 | a sample is dated with its interrupt, and the timer then runs one interval from there |
| Debounce.DrainSlot | src/nlswtimer.c:402-428 | in one tick the button's timer fires only if due and is then gone; otherwise other timers leave it alone |
| GpioButton.DownWhenActive | src/nlgpio_button.c:121-127 | a button is down exactly when the pin is at its active level |
| GpioButton.ButtonDriver.constructor | src/nlgpio_button.c:111-112 | the debounced levels start as whether the pin is active; the raw level is left unset, which no callback can show |
| GpioButton.ButtonDriver.Isr | src/nlgpio_button.c:71-87 | the interrupt samples whether the pin is active and restarts the timer on the linked lists |
| GpioButton.ButtonDriver.DebounceHandler | src/nlgpio_button.c:54-68 | takes the sampled level over and reports it exactly when it differs |
| GpioButton.ButtonDriver.Tick | src/nlgpio_button.c:54-68 | the handler runs in exactly the ticks in which the timer list runs the button's timer |
| GpioButton.ButtonDriver.Execute | src/nlgpio_button.c:54-87 | driver and timer lists together follow the debounce machine and report exactly its callbacks |
| SystemTime.SystemMs | src/nltime.c:34-49 | no 64-bit overflow, and the result is floor((t * 562949953 + 2^48) / 2^49) |
| SystemTime.ErrorBounds | src/nltime.c:34-49 | at most half a millisecond above t / 10^6, and below it by less than that plus t * 421312 / (2^49 * 10^6) |
| SystemTime.Monotone | src/nltime.c:34-49 | a later nanosecond count never gives an earlier millisecond |
| SystemTime.GetSystemMs | src/nlswtimer.c:431-440 | the value read is that of ticks times nanoseconds per tick |
| SystemTime.NeverBackwards | src/nlswtimer.c:365-372 | over any run of the timers reported time does not go backwards before the nanosecond count wraps |
| SpiIpc.AppendTwice | src/nlspi_ipc.c:181-183 | the CRC computed over header and then data is the CRC of both together |
| SpiIpc.AppendOne | src/nlspi_ipc.c:181-183 | every byte takes part in the CRC, by one step |
| SpiIpc.DeliveredExactly | src/nlspi_ipc.c:163-224 | a message is delivered if and only if exactly its frame was on the wire |
| SpiIpc.OneTooLong | src/nlspi_ipc.c:500-522 | a length byte of 248 passes the check against the buffer size and leads past the buffer |
| SpiIpc.Master.CheckAndDispatch | src/nlspi_ipc.c:163-224 | the data handler gets opcode and data when the CRC matches, the corrupt handler otherwise, neither for an empty frame |
| SpiIpc.Master.SendOwn | src/nlspi_ipc.c:430-491 | the slave is sent the frame of the message, while the buffer takes as many of its bytes |
| SpiIpc.Master.Send | src/nlspi_ipc.c:430-537 | for shorter, equal and longer slave frames data and CRC lie contiguous at the start of the buffer and the outcome is what was heard; the buffer is left exactly for lengths 1, 2 and above 247 |
| SpiIpc.Master.Work | src/nlspi_ipc.c:227-334 | receiving without sending: the same for frames in range; length 2 leaves the buffer; a frame too long dispatches the buffer's old bytes |

## Left out

- Timers: the conversion of milliseconds to ticks (a macro of the product), the FreeRTOS drift asserts, the resynchronisation of the tick count in unit tests, the sanity test, and sleeps across a wrap of the tick count, which the code excludes by comment (src/nlswtimer.c:203-209).
- Timers: re-initialising a timer object while it is active, and builds with asserts disabled; after the assert against starting an active timer has failed the model stops.
- RamConsole.Console.ChangeSize: assumes buffers below 2^31 bytes; `WrapBackExact` says when larger ones go wrong.
- RamConsole.Console.Init: assumes buffers below 2^31 bytes when it converts, as ChangeSize does.
- RamConsole.Console.Execute: single writes are below 2^31 bytes, so that the count does not wrap; Write says what a wrap does.
- RAM console: the watermark callback and nl_ram_console_get_info, which only report.
- Flash: power request and release, chip identification, busy polling and delays; a failed erase command is taken to leave the chip as it was; reads cannot fail.
- SpiFlash.Device.ProgramPage: a failed program command is taken to leave the chip as it was; `Nor.RetriesRepair` covers a retry after one that cleared part of its bits, and what such a command leaves without a retry is not followed further.
- SpiFlash.Device.Erase: assumes an empty page cache, since erasing does not look at the cache.
- Files: sub-partitions inside ELF images, FAT files and the choice of an image from the environment; their libraries are not part of this model.
- Nlfs.File.Close: closing a file open for reading leaves it marked open, as the code does.
- Fault record: printing in DEBUG builds is modelled only by the query it makes; which bytes the crash dump fills in around reason and description is arbitrary.
- Trace.Tracer.Execute: covers runs of events with names and slot numbers inside the array; Start and End state what other arguments do.
- Usage fault: the assembly around the handler and the crash dump; data memory does not overlap the saved frames. When r13 is met the registers below it have been transferred, and the caller crashes.
- MultipleTransfer.HandlerFollowsManualExactly: stores that list the base above a lower register, which the manual leaves unknown, are taken to store the old base, as the code does; writeback to r15 as base is unpredictable and excluded.
- Button: an interrupt and a tick are each indivisible; the callback is only recorded. The simulated-hardware build is not modelled.
- SPI IPC: the SRDY/MRDY handshake, task notification, ACK mode and failed bus transfers.
- nlflash.c, nlcrc.c, nlwatchpoint.c, nlprofile.c, nlmpu.c, nlstubs.c and the peripheral headers: thin wrappers or one-step facts that would only add easy members.
